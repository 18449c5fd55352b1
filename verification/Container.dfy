/**
 The exchange package as a file: magic, version, and three blocks, each after its
 length. Assembling, strict parsing with a cursor, and that the two leave no slack.
 */
module Container {
  import opened Sequences
  import opened Bytes
  import opened Wrappers

  const MAGIC: bytes := [67, 67, 80, 75, 71]
  const FORMAT_VERSION: byte := 1
  const MAX_PACKAGE_BYTES := 0x400_0000
  const MAX_MANIFEST_BYTES := 0x10_0000
  const MAX_SIGNATURE_BYTES := 0x1_0000

  datatype Error =
    | PackageFormat
    | UnsupportedVersion
    | TooLarge
    | SchemaMismatch
    | AlgorithmNotAllowed
    | Tampered
    | SenderMismatch
    | NotARecipient
    | DecompressionLimit
    | RecordCountMismatch
    | InvalidRequest
    | DuplicateKey
    | NoMatchKey
    | UnknownCategory
    | UntrustedChain
    | CertificateRevoked
    | CertificateInvalid
    | CertificateExpired
    | KeyUsageDenied
    | CryptoFailed
    | NotEncodable

  datatype Signature = Signature(provider: string, algorithm: string, signerId: string, certificateId: string, value: bytes)

  /** encoding/json for the signature document. */
  datatype SignatureCodec = SignatureCodec(marshal: Signature -> bytes, unmarshal: bytes -> Option<Signature>)

  ghost predicate SignatureCodecOk(k: SignatureCodec) {
    forall s :: k.unmarshal(k.marshal(s)) == Some(s) && k.marshal(s) != []
  }

  datatype Parsed = Parsed(manifest: bytes, signature: Signature, ciphertext: bytes)

  /** A block after its length as uint32. */
  function Block32(b: bytes): bytes
    requires |b| < TWO_32
  {
    BE4(|b|) + b
  }

  function Block64(b: bytes): bytes
    requires |b| < TWO_64
  {
    BE8(|b|) + b
  }

  function Framed(manifest: bytes, document: bytes, ciphertext: bytes): bytes
    requires |manifest| < TWO_32 && |document| < TWO_32 && |ciphertext| < TWO_64
  {
    MAGIC + [FORMAT_VERSION] + (Block32(manifest) + (Block32(document) + Block64(ciphertext)))
  }

  /** The parts of a package, framed, unless a part or the whole is over its limit. */
  function Assembled(k: SignatureCodec, manifest: bytes, signature: Signature, ciphertext: bytes): Result<bytes, Error> {
    var d := k.marshal(signature);
    var total := 22 + |manifest| + |d| + |ciphertext|;
    if |manifest| > MAX_MANIFEST_BYTES || |d| > MAX_SIGNATURE_BYTES || total > MAX_PACKAGE_BYTES then Err(TooLarge)
    else Ok(Framed(manifest, d, ciphertext))
  }

  /** Builds the file piece by piece in a buffer of the size reckoned beforehand. */
  method Assemble(k: SignatureCodec, manifest: bytes, signature: Signature, ciphertext: bytes)
    returns (r: Result<bytes, Error>)
    ensures r == Assembled(k, manifest, signature, ciphertext)
    ensures r.Ok? ==> |r.value| == 22 + |manifest| + |k.marshal(signature)| + |ciphertext|
  {
    var document := k.marshal(signature);
    var total := |MAGIC| + 1 + 4 + |manifest| + 4 + |document| + 8 + |ciphertext|;
    if |manifest| > MAX_MANIFEST_BYTES || |document| > MAX_SIGNATURE_BYTES || total > MAX_PACKAGE_BYTES {
      return Err(TooLarge);
    }
    var out := MAGIC;
    out := out + [FORMAT_VERSION];
    out := out + BE4(|manifest|);
    out := out + manifest;
    out := out + BE4(|document|);
    out := out + document;
    out := out + BE8(|ciphertext|);
    out := out + ciphertext;
    FramedFlat(manifest, document, ciphertext);
    r := Ok(out);
  }

  lemma FramedFlat(m: bytes, d: bytes, c: bytes)
    requires |m| < TWO_32 && |d| < TWO_32 && |c| < TWO_64
    ensures MAGIC + [FORMAT_VERSION] + BE4(|m|) + m + BE4(|d|) + d + BE8(|c|) + c == Framed(m, d, c)
  {
    var head := MAGIC + [FORMAT_VERSION];
    ConcatAssoc(head, BE4(|m|), m);
    ConcatAssoc(head + Block32(m), BE4(|d|), d);
    ConcatAssoc(head + Block32(m) + Block32(d), BE8(|c|), c);
    ConcatAssoc(head, Block32(m), Block32(d));
    ConcatAssoc(head, Block32(m) + Block32(d), Block64(c));
    ConcatAssoc(Block32(m), Block32(d), Block64(c));
  }

  // ----- parsing -----

  datatype Cut = Cut(block: bytes, rest: bytes)

  /** A length-prefixed block: the declared length is checked against the limit, then against what is there. */
  function TakeBlock32(data: bytes, limit: nat): Result<Cut, Error> {
    if |data| < 4 then Err(PackageFormat)
    else
      var n := Get4(data[..4]);
      if n > limit then Err(TooLarge)
      else if n > |data| - 4 || n == 0 then Err(PackageFormat)
      else Ok(Cut(data[4..][..n], data[4..][n..]))
  }

  /** The last block must be everything that is left, and not nothing. */
  function TakeLast(data: bytes): Result<bytes, Error> {
    if |data| < 8 then Err(PackageFormat)
    else if Get8(data[..8]) == 0 || Get8(data[..8]) != |data| - 8 then Err(PackageFormat)
    else Ok(data[8..])
  }

  /** The six bytes the reader gets for a header: a short read leaves zeros. */
  function HeaderBytes(data: bytes): (h: bytes)
    ensures |h| == 6
  {
    if |data| >= 6 then data[..6] else data + seq(6 - |data|, _ => 0)
  }

  function ParseBlocks(k: SignatureCodec, data: bytes): Result<Parsed, Error> {
    match TakeBlock32(data, MAX_MANIFEST_BYTES)
    case Err(e) => Err(e)
    case Ok(m) =>
      match TakeBlock32(m.rest, MAX_SIGNATURE_BYTES)
      case Err(e) => Err(e)
      case Ok(d) =>
        match TakeLast(d.rest)
        case Err(e) => Err(e)
        case Ok(c) =>
          match k.unmarshal(d.block)
          case None => Err(PackageFormat)
          case Some(s) => Ok(Parsed(m.block, s, c))
  }

  function ParseSpec(k: SignatureCodec, data: bytes): Result<Parsed, Error> {
    if |data| > MAX_PACKAGE_BYTES then Err(TooLarge)
    else if data == [] || HeaderBytes(data)[..5] != MAGIC then Err(PackageFormat)
    else if HeaderBytes(data)[5] != FORMAT_VERSION then Err(UnsupportedVersion)
    else ParseBlocks(k, data[6..])
  }

  /** bytes.Reader: a cursor over fixed data. */
  class Reader {
    const data: bytes
    var pos: nat

    constructor (data: bytes)
      ensures this.data == data && pos == 0 && Valid()
    {
      this.data, pos := data, 0;
    }

    ghost predicate Valid()
      reads this
    {
      pos <= |data|
    }

    function Left(): bytes
      requires Valid()
      reads this
    {
      data[pos..]
    }

    /** As much as is there, up to n bytes; at the end of the data there is nothing but the end. */
    method Read(n: nat) returns (got: bytes)
      requires Valid()
      modifies this
      ensures Valid() && old(Left()) == got + Left()
      ensures |got| == if n < |old(Left())| then n else |old(Left())|
    {
      var m := if n < |data| - pos then n else |data| - pos;
      got := data[pos..pos + m];
      pos := pos + m;
    }

    method ReadBlock32(limit: nat) returns (r: Result<bytes, Error>)
      requires Valid()
      modifies this
      ensures Valid()
      ensures match TakeBlock32(old(Left()), limit)
        case Err(e) => r == Err(e)
        case Ok(cut) => r == Ok(cut.block) && Left() == cut.rest
    {
      ghost var all := Left();
      var size := Read(4);
      if |size| != 4 {
        return Err(PackageFormat);
      }
      assert size == all[..4] && Left() == all[4..];
      var length := Get4(size);
      if length > limit {
        return Err(TooLarge);
      }
      if length > |data| - pos || length == 0 {
        return Err(PackageFormat);
      }
      var block := Read(length);
      r := Ok(block);
    }
  }

  method ParseContainer(k: SignatureCodec, data: bytes) returns (r: Result<Parsed, Error>)
    ensures r == ParseSpec(k, data)
  {
    if |data| > MAX_PACKAGE_BYTES {
      return Err(TooLarge);
    }
    var reader := new Reader(data);
    var got := reader.Read(6);
    var header := got + seq(6 - |got|, _ => 0);
    assert header == HeaderBytes(data);
    if got == [] || header[..5] != MAGIC {
      return Err(PackageFormat);
    }
    if header[5] != FORMAT_VERSION {
      return Err(UnsupportedVersion);
    }
    r := ParseRest(k, reader, data[6..]);
  }

  method ParseRest(k: SignatureCodec, reader: Reader, ghost rest: bytes) returns (r: Result<Parsed, Error>)
    requires reader.Valid() && reader.Left() == rest
    modifies reader
    ensures r == ParseBlocks(k, rest)
  {
    var manifest := reader.ReadBlock32(MAX_MANIFEST_BYTES);
    if manifest.Err? {
      return Err(manifest.error);
    }
    var document := reader.ReadBlock32(MAX_SIGNATURE_BYTES);
    if document.Err? {
      return Err(document.error);
    }
    ghost var tail := reader.Left();
    var size := reader.Read(8);
    if |size| != 8 {
      return Err(PackageFormat);
    }
    assert size == tail[..8] && reader.Left() == tail[8..];
    var length := Get8(size);
    if length == 0 || length != |reader.data| - reader.pos {
      return Err(PackageFormat);
    }
    var ciphertext := reader.Read(length);
    assert ciphertext == tail[8..];
    var signature := k.unmarshal(document.value);
    if signature.None? {
      return Err(PackageFormat);
    }
    r := Ok(Parsed(manifest.value, signature.value, ciphertext));
  }

  // ----- exactness -----

  lemma TakeBlockExact(data: bytes, limit: nat, block: bytes, rest: bytes)
    requires limit < TWO_32
    ensures TakeBlock32(data, limit) == Ok(Cut(block, rest)) <==> 0 < |block| <= limit && data == Block32(block) + rest
  {
    if TakeBlock32(data, limit) == Ok(Cut(block, rest)) {
      BE4OfGet4(data[..4]);
      assert data == data[..4] + (block + rest);
      ConcatAssoc(data[..4], block, rest);
    }
    if 0 < |block| <= limit && data == Block32(block) + rest {
      ConcatAssoc(BE4(|block|), block, rest);
      assert data[..4] == BE4(|block|) && data[4..] == block + rest;
      assert (block + rest)[..|block|] == block && (block + rest)[|block|..] == rest;
    }
  }

  lemma TakeLastExact(data: bytes, block: bytes)
    ensures TakeLast(data) == Ok(block) <==> 0 < |block| < TWO_64 && data == Block64(block)
  {
    if TakeLast(data) == Ok(block) {
      BE8OfGet8(data[..8]);
      assert data == data[..8] + data[8..];
    }
    if 0 < |block| < TWO_64 && data == Block64(block) {
      assert data[..8] == BE8(|block|) && data[8..] == block;
    }
  }

  /** The blocks of an acceptable package, none of them empty or over its limit. */
  predicate BlocksOk(manifest: bytes, document: bytes, ciphertext: bytes) {
    0 < |manifest| <= MAX_MANIFEST_BYTES && 0 < |document| <= MAX_SIGNATURE_BYTES && 0 < |ciphertext| < TWO_64
  }

  lemma ParseBlocksExact(k: SignatureCodec, data: bytes, p: Parsed)
    ensures ParseBlocks(k, data) == Ok(p) <==>
      exists d :: BlocksOk(p.manifest, d, p.ciphertext) && k.unmarshal(d) == Some(p.signature)
                  && data == Block32(p.manifest) + (Block32(d) + Block64(p.ciphertext))
  {
    if ParseBlocks(k, data) == Ok(p) {
      var m := TakeBlock32(data, MAX_MANIFEST_BYTES).value;
      var d := TakeBlock32(m.rest, MAX_SIGNATURE_BYTES).value;
      TakeBlockExact(data, MAX_MANIFEST_BYTES, m.block, m.rest);
      TakeBlockExact(m.rest, MAX_SIGNATURE_BYTES, d.block, d.rest);
      TakeLastExact(d.rest, p.ciphertext);
      assert BlocksOk(p.manifest, d.block, p.ciphertext);
    }
    forall d | BlocksOk(p.manifest, d, p.ciphertext) && k.unmarshal(d) == Some(p.signature)
               && data == Block32(p.manifest) + (Block32(d) + Block64(p.ciphertext))
      ensures ParseBlocks(k, data) == Ok(p)
    {
      TakeBlockExact(data, MAX_MANIFEST_BYTES, p.manifest, Block32(d) + Block64(p.ciphertext));
      TakeBlockExact(Block32(d) + Block64(p.ciphertext), MAX_SIGNATURE_BYTES, d, Block64(p.ciphertext));
      TakeLastExact(Block64(p.ciphertext), p.ciphertext);
    }
  }

  /** The header check passes exactly when magic and version are there in full. */
  lemma HeaderExact(k: SignatureCodec, data: bytes)
    requires |data| <= MAX_PACKAGE_BYTES
    ensures MAGIC + [FORMAT_VERSION] <= data ==> ParseSpec(k, data) == ParseBlocks(k, data[6..])
    ensures !(MAGIC + [FORMAT_VERSION] <= data) ==> ParseSpec(k, data).Err?
  {
    var head := MAGIC + [FORMAT_VERSION];
    if |data| >= 6 {
      assert data[..6][..5] == data[..5] && data[..6][5] == data[5];
      assert data[..6] == data[..5] + [data[5]];
      assert head[..5] == MAGIC && head[5] == FORMAT_VERSION;
    } else {
      assert HeaderBytes(data)[5] == 0;
    }
  }

  lemma FramedHead(m: bytes, d: bytes, c: bytes)
    requires |m| < TWO_32 && |d| < TWO_32 && |c| < TWO_64
    ensures MAGIC + [FORMAT_VERSION] <= Framed(m, d, c)
    ensures Framed(m, d, c)[6..] == Block32(m) + (Block32(d) + Block64(c))
  {
  }

  /**
   What is accepted is exactly a framed package of its own blocks: every byte is magic,
   version, a length or a block, and framing the blocks again gives the input back.
   */
  lemma ParseIsExact(k: SignatureCodec, data: bytes, p: Parsed)
    ensures ParseSpec(k, data) == Ok(p) <==>
      |data| <= MAX_PACKAGE_BYTES &&
      exists d :: BlocksOk(p.manifest, d, p.ciphertext) && k.unmarshal(d) == Some(p.signature)
                  && data == Framed(p.manifest, d, p.ciphertext)
  {
    if |data| <= MAX_PACKAGE_BYTES {
      HeaderExact(k, data);
      if MAGIC + [FORMAT_VERSION] <= data {
        ParseBlocksExact(k, data[6..], p);
        assert data == MAGIC + [FORMAT_VERSION] + data[6..];
      }
    }
    forall d | BlocksOk(p.manifest, d, p.ciphertext)
      ensures MAGIC + [FORMAT_VERSION] <= Framed(p.manifest, d, p.ciphertext)
      ensures Framed(p.manifest, d, p.ciphertext)[6..] == Block32(p.manifest) + (Block32(d) + Block64(p.ciphertext))
    {
      FramedHead(p.manifest, d, p.ciphertext);
    }
  }

  /** An assembled package parses back to its parts exactly when the manifest and the ciphertext are not empty. */
  lemma AssembledParses(k: SignatureCodec, manifest: bytes, signature: Signature, ciphertext: bytes)
    requires SignatureCodecOk(k)
    requires |manifest| <= MAX_MANIFEST_BYTES && |k.marshal(signature)| <= MAX_SIGNATURE_BYTES
    requires 22 + |manifest| + |k.marshal(signature)| + |ciphertext| <= MAX_PACKAGE_BYTES
    ensures ParseSpec(k, Framed(manifest, k.marshal(signature), ciphertext)) == Ok(Parsed(manifest, signature, ciphertext))
       <==> manifest != [] && ciphertext != []
  {
    var p := Parsed(manifest, signature, ciphertext);
    var d := k.marshal(signature);
    ParseIsExact(k, Framed(manifest, d, ciphertext), p);
    if manifest != [] && ciphertext != [] {
      assert BlocksOk(manifest, d, ciphertext);
    }
  }
}
