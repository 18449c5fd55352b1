/**
 The encrypted backup file as a pure function: a header, then the plaintext cut
 into chunks, each sealed under its own number and a "last chunk" flag.
 The writer and the reader in the next modules are proved against these functions.
 */
module SealedStream {
  import opened Bytes
  import opened Wrappers

  const MAGIC: bytes := [67, 67, 66, 75, 49, 10]
  const SALT_SIZE := 16
  const HEADER_SIZE := 30
  const DEFAULT_CHUNK := 0x10_0000
  const MAX_CHUNK := 0x80_0000
  const DEFAULT_ROUNDS := 600_000
  const MIN_ROUNDS := 100_000
  const MAX_ROUNDS := 10_000_000
  const OVERHEAD := 16
  const MAX_CIPHER_CHUNK := MAX_CHUNK + OVERHEAD

  datatype Error =
    | EndOfFile
    | UnexpectedEnd
    | Format
    | Auth
    | Truncated
    | Passphrase
    | ChunkTooLong
    | BadManifest
    | BadPath
    | Incomplete
    | NoDump
    | EmptyDump
    | SourceFailed
    | TooManyFiles
    | OutputFailed
    | SinkFailed

  /**
   The primitives the format is built on. PBKDF2 (derive), AES-256-GCM (seal and
   open, each taking key, nonce, text and additional data) and SHA-256 are arbitrary
   functions here; what is needed of them is stated where it is used.
   */
  datatype Crypto = Crypto(
    derive: (string, bytes, nat) -> bytes,
    seal: (bytes, bytes, bytes, bytes) -> bytes,
    open: (bytes, bytes, bytes, bytes) -> Option<bytes>,
    sha: bytes -> bytes)

  /** Opening what was sealed gives the plaintext back; a seal adds a 16-byte tag. */
  ghost predicate Correct(c: Crypto) {
    forall k, n, p, a :: |c.seal(k, n, p, a)| == |p| + OVERHEAD && c.open(k, n, c.seal(k, n, p, a), a) == Some(p)
  }

  datatype Header = Header(salt: bytes, rounds: nat, chunk: nat)

  predicate HeaderOk(h: Header) {
    |h.salt| == SALT_SIZE && h.rounds < TWO_32 && 0 < h.chunk < TWO_32
  }

  function Raw(h: Header): (r: bytes)
    requires HeaderOk(h)
    ensures |r| == HEADER_SIZE
  {
    MAGIC + h.salt + BE4(h.rounds) + BE4(h.chunk)
  }

  /** The header a reader takes from the first bytes, if they are acceptable. */
  function ParseHeader(raw: bytes): (r: Option<Header>)
    requires |raw| == HEADER_SIZE
    ensures r.Some? ==> HeaderOk(r.value) && Raw(r.value) == raw
  {
    if raw[..6] != MAGIC then None
    else
      var h := Header(raw[6..22], Get4(raw[22..26]), Get4(raw[26..30]));
      if h.rounds < MIN_ROUNDS || h.rounds > MAX_ROUNDS || h.chunk == 0 || h.chunk > MAX_CHUNK then None
      else
        BE4OfGet4(raw[22..26]);
        BE4OfGet4(raw[26..30]);
        assert raw == raw[..6] + raw[6..22] + raw[22..26] + raw[26..30];
        Some(h)
  }

  /** Where the parts of a header stand. */
  lemma RawParts(h: Header)
    requires HeaderOk(h)
    ensures var raw := Raw(h);
      raw[..6] == MAGIC && raw[6..22] == h.salt && raw[22..26] == BE4(h.rounds) && raw[26..30] == BE4(h.chunk)
  {
    var front := MAGIC + h.salt;
    var numbers := BE4(h.rounds) + BE4(h.chunk);
    assert Raw(h) == front + numbers && |front| == 22;
    assert numbers[..4] == BE4(h.rounds) && numbers[4..] == BE4(h.chunk);
    assert Raw(h)[22..] == numbers && Raw(h)[22..26] == numbers[..4] && Raw(h)[26..30] == numbers[4..];
  }

  /** A header is read back exactly when its round count and chunk size are in range. */
  lemma ParseHeaderOfRaw(h: Header)
    requires HeaderOk(h)
    ensures ParseHeader(Raw(h)) ==
      if MIN_ROUNDS <= h.rounds <= MAX_ROUNDS && h.chunk <= MAX_CHUNK then Some(h) else None
  {
    RawParts(h);
  }

  lemma RawInjective(g: Header, h: Header)
    requires HeaderOk(g) && HeaderOk(h) && Raw(g) == Raw(h)
    ensures g == h
  {
    RawParts(g);
    RawParts(h);
  }

  /** The counter is a 64-bit number in the last eight of the twelve nonce bytes. */
  function Nonce(counter: nat): (n: bytes)
    ensures |n| == 12
  {
    [0, 0, 0, 0] + BE8(counter % TWO_64)
  }

  lemma NonceInjective(i: nat, j: nat)
    requires i < TWO_64 && j < TWO_64 && Nonce(i) == Nonce(j)
    ensures i == j
  {
    SmallMod(i);
    SmallMod(j);
    assert Nonce(i)[4..] == BE8(i) && Nonce(j)[4..] == BE8(j);
    BE8Injective(i, j);
  }

  function Aad(h: Header, final: bool): (a: bytes)
    requires HeaderOk(h)
  {
    Raw(h) + [if final then 1 else 0]
  }

  lemma AadInjective(g: Header, f: bool, h: Header, e: bool)
    requires HeaderOk(g) && HeaderOk(h) && Aad(g, f) == Aad(h, e)
    ensures g == h && f == e
  {
    assert Aad(g, f)[..HEADER_SIZE] == Raw(g) && Aad(h, e)[..HEADER_SIZE] == Raw(h);
    assert Aad(g, f)[HEADER_SIZE] == Aad(h, e)[HEADER_SIZE];
    RawInjective(g, h);
  }

  /**
   The plaintext in chunks: every chunk but the last is full, and there is always
   a last one, so an empty plaintext is one empty chunk.
   */
  function Chunks(data: bytes, size: nat): (cs: seq<bytes>)
    requires size > 0
    ensures |cs| > 0
  {
    if |data| <= size then [data] else [data[..size]] + Chunks(data[size..], size)
  }

  ghost predicate ChunkShape(cs: seq<bytes>, size: nat) {
    && |cs| > 0
    && (forall i :: 0 <= i < |cs| - 1 ==> |cs[i]| == size)
    && |cs[|cs| - 1]| <= size
    && (cs[|cs| - 1] == [] ==> |cs| == 1)
  }

  /**
   Cutting loses nothing, every chunk but the last is full, and the last is empty
   only for empty data.
   */
  lemma {:induction false} ChunksShape(data: bytes, size: nat)
    requires size > 0
    ensures Flat(Chunks(data, size)) == data
    ensures ChunkShape(Chunks(data, size), size)
  {
    var cs := Chunks(data, size);
    if |data| <= size {
      assert Flat(cs) == data + Flat([]);
    } else {
      var rest := data[size..];
      ChunksShape(rest, size);
      assert data == data[..size] + rest;
      assert cs[1..] == Chunks(rest, size);
    }
  }

  /** There are max(1, ceil(|data| / size)) chunks. */
  lemma {:induction false} ChunksCount(data: bytes, size: nat)
    requires size > 0
    ensures var n := |Chunks(data, size)|; if data == [] then n == 1 else (n - 1) * size < |data| <= n * size
  {
    if |data| > size {
      var n := |Chunks(data[size..], size)|;
      ChunksCount(data[size..], size);
      assert |Chunks(data, size)| == n + 1;
      assert (n + 1) * size == n * size + size && n * size == (n - 1) * size + size;
    }
  }

  /** The shape leaves no freedom: these are the only chunks with this content. */
  lemma {:induction false} ChunksUnique(cs: seq<bytes>, size: nat)
    requires size > 0 && ChunkShape(cs, size)
    ensures Chunks(Flat(cs), size) == cs
  {
    if |cs| == 1 {
      assert Flat(cs) == cs[0] + Flat([]) == cs[0];
      assert cs == [cs[0]];
    } else {
      var tail := cs[1..];
      assert ChunkShape(tail, size) by {
        assert tail[|tail| - 1] == cs[|cs| - 1];
      }
      ChunksUnique(tail, size);
      assert Flat(cs) == cs[0] + Flat(tail);
      assert Flat(cs)[..size] == cs[0] && Flat(cs)[size..] == Flat(tail);
      assert Flat(tail) != [] by {
        assert tail[0] != [];
        assert Flat(tail) == tail[0] + Flat(tail[1..]);
      }
    }
  }

  function SealChunk(c: Crypto, key: bytes, h: Header, i: nat, plain: bytes, final: bool): bytes
    requires HeaderOk(h)
  {
    c.seal(key, Nonce(i), plain, Aad(h, final))
  }

  /** One chunk on disk: the length of the sealed text as uint32, then the text. */
  function Frame(c: Crypto, key: bytes, h: Header, i: nat, plain: bytes, final: bool): bytes
    requires HeaderOk(h)
  {
    var sealed := SealChunk(c, key, h, i, plain, final);
    BE4(|sealed| % TWO_32) + sealed
  }

  /** All frames from number i on; the last chunk of the list carries the flag. */
  function Frames(c: Crypto, key: bytes, h: Header, chunks: seq<bytes>, i: nat): bytes
    requires HeaderOk(h) && i <= |chunks|
    decreases |chunks| - i
  {
    if i == |chunks| then []
    else Frame(c, key, h, i, chunks[i], i + 1 == |chunks|) + Frames(c, key, h, chunks, i + 1)
  }

  /** The whole file for one plaintext. */
  function Sealed(c: Crypto, pass: string, h: Header, data: bytes): bytes
    requires HeaderOk(h)
  {
    Raw(h) + Frames(c, c.derive(pass, h.salt, h.rounds), h, Chunks(data, h.chunk), 0)
  }
}
