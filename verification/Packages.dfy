/** Exporting records as a signed and encrypted package, and opening one: the two pipelines, step by step. */
module Packages {
  import opened Bytes
  import opened Wrappers
  import opened Container
  import opened Manifests
  import opened Trust
  import opened MatchKey
  import opened SortedRecords
  import CanonicalJson
  import Classification
  import Sorting

  const MAX_PLAINTEXT := 256 * 0x10_0000
  const MAX_RECORDS := 200_000
  const MAX_RECIPIENTS := 64

  datatype Recipient = Recipient(id: string, certificateId: string, publicKey: bytes)

  /** References to keys; the keys themselves stay with the provider. */
  datatype SecretRef = SecretRef(id: string, keyRef: string)

  datatype SignerRef = SignerRef(id: string, certificateId: string, keyRef: string)

  datatype Envelope = Envelope(recipientId: string, wrappedKey: Slice<byte>)

  datatype Encrypted = Encrypted(
    provider: string, algorithm: string, payloadHash: bytes, ciphertext: bytes, recipients: seq<Envelope>)

  /** The cryptographic provider; owns says whose key a reference leads to. */
  datatype Engine = Engine(
    encrypt: (bytes, seq<Recipient>) -> Option<Encrypted>,
    decrypt: (Encrypted, SecretRef) -> Option<bytes>,
    sign: (bytes, SignerRef) -> Option<Signature>,
    verify: (bytes, Signature) -> bool,
    owns: (SecretRef, Recipient) -> bool)

  /**
   gzip, and encoding/json for the list of records. Inflating gives what could be
   decompressed, and whether the stream ended cleanly.
   */
  datatype Packing = Packing(
    gzip: bytes -> bytes,
    inflate: bytes -> (bytes, bool),
    marshal: seq<Record> -> Option<bytes>,
    unmarshal: bytes -> Option<seq<Record>>,
    float: real -> string)

  datatype World = World(
    e: Env, x: Texts, k: SignatureCodec, z: Packing, engine: Engine,
    sha: bytes -> bytes, hex: bytes -> string, unhex: string -> Option<bytes>)

  // ----- export -----

  datatype Request = Request(
    organizationId: string, signer: SignerRef, recipients: seq<Recipient>, records: seq<Record>,
    reportYear: int, period: string, now: Option<int>)

  predicate RecipientOk(r: Recipient) {
    r.id != "" && r.certificateId != "" && r.publicKey != []
  }

  predicate DistinctRecipients(rs: seq<Recipient>) {
    forall i, j :: 0 <= i < j < |rs| ==> rs[i].id != rs[j].id
  }

  predicate RecipientsOk(rs: seq<Recipient>) {
    DistinctRecipients(rs) && forall i :: 0 <= i < |rs| ==> RecipientOk(rs[i])
  }

  predicate ValidRequest(q: Request) {
    && q.organizationId != "" && q.signer.id != "" && q.signer.certificateId != "" && q.signer.keyRef != ""
    && 1 <= |q.recipients| <= MAX_RECIPIENTS && RecipientsOk(q.recipients)
    && 2000 <= q.reportYear <= 2100 && (q.period == "plan" || q.period == "fact")
    && 1 <= |q.records| <= MAX_RECORDS
  }

  /** The loop over the recipients, with the identifiers already seen. */
  method CheckRecipients(rs: seq<Recipient>) returns (ok: bool)
    ensures ok == RecipientsOk(rs)
  {
    var seen: set<string> := {};
    var k := 0;
    while k < |rs|
      invariant k <= |rs| && RecipientsOk(rs[..k])
      invariant forall id :: id in seen <==> exists i :: 0 <= i < k && rs[i].id == id
    {
      if !RecipientOk(rs[k]) || rs[k].id in seen {
        return false;
      }
      seen := seen + {rs[k].id};
      k := k + 1;
    }
    assert rs[..k] == rs;
    ok := true;
  }

  method ValidateExport(q: Request) returns (r: Option<Error>)
    ensures r == if ValidRequest(q) then None else Some(InvalidRequest)
  {
    if q.organizationId == "" || q.signer.id == "" || q.signer.certificateId == "" || q.signer.keyRef == "" {
      return Some(InvalidRequest);
    }
    if |q.recipients| == 0 || |q.recipients| > MAX_RECIPIENTS {
      return Some(InvalidRequest);
    }
    var recipients := CheckRecipients(q.recipients);
    if !recipients || q.reportYear < 2000 || q.reportYear > 2100 || (q.period != "plan" && q.period != "fact") {
      return Some(InvalidRequest);
    }
    if |q.records| == 0 || |q.records| > MAX_RECORDS {
      return Some(InvalidRequest);
    }
    r := None;
  }

  /** The certificate of a recipient; the last of that identifier, or none. */
  function CertificateOf(rs: seq<Recipient>, id: string): string {
    if rs == [] then ""
    else if rs[|rs| - 1].id == id then rs[|rs| - 1].certificateId
    else CertificateOf(rs[..|rs| - 1], id)
  }

  /** A manifest line for each envelope. */
  function Addressed(rs: seq<Recipient>, envelopes: seq<Envelope>): (r: seq<ManifestRecipient>)
    ensures |r| == |envelopes| && forall i :: 0 <= i < |envelopes| ==>
      r[i] == ManifestRecipient(envelopes[i].recipientId, CertificateOf(rs, envelopes[i].recipientId), envelopes[i].wrappedKey)
  {
    if envelopes == [] then []
    else
      [ManifestRecipient(envelopes[0].recipientId, CertificateOf(rs, envelopes[0].recipientId), envelopes[0].wrappedKey)]
      + Addressed(rs, envelopes[1..])
  }

  function RecipientName(r: ManifestRecipient): string {
    r.id
  }

  /** The recipients of the manifest: those of the envelopes, in the order of their identifiers. */
  ghost predicate SortedRecipients(rs: seq<Recipient>, envelopes: seq<Envelope>, sorted: seq<ManifestRecipient>) {
    && multiset(sorted) == multiset(Addressed(rs, envelopes))
    && Sorting.InOrder(Sorting.ByName(RecipientName), sorted)
  }

  method Certificates(rs: seq<Recipient>) returns (m: map<string, string>)
    ensures forall id :: (if id in m then m[id] else "") == CertificateOf(rs, id)
  {
    m := map[];
    var k := 0;
    while k < |rs|
      invariant k <= |rs| && forall id :: (if id in m then m[id] else "") == CertificateOf(rs[..k], id)
    {
      assert rs[..k + 1][..k] == rs[..k];
      m := m[rs[k].id := rs[k].certificateId];
      k := k + 1;
    }
    assert rs[..k] == rs;
  }

  method ListRecipients(rs: seq<Recipient>, envelopes: seq<Envelope>) returns (sorted: seq<ManifestRecipient>)
    ensures SortedRecipients(rs, envelopes, sorted)
  {
    var certificates := Certificates(rs);
    var recipients: seq<ManifestRecipient> := [];
    ghost var all := Addressed(rs, envelopes);
    var k := 0;
    while k < |envelopes|
      invariant k <= |envelopes| && |recipients| == k && forall i :: 0 <= i < k ==> recipients[i] == all[i]
    {
      var id := envelopes[k].recipientId;
      var certificate := if id in certificates then certificates[id] else "";
      recipients := recipients + [ManifestRecipient(id, certificate, envelopes[k].wrappedKey)];
      k := k + 1;
    }
    assert recipients == all;
    sorted := Sorting.SortSlice(Sorting.ByName(RecipientName), recipients);
  }

  /** Records to the bytes that will be compressed. */
  function Plaintext(w: World, q: Request): Result<bytes, Error> {
    if !ValidRequest(q) then Err(InvalidRequest)
    else match SortedSpec(w.e, q.records)
      case Err(x) => Err(x)
      case Ok(records) =>
        match w.z.marshal(records)
        case None => Err(NotEncodable)
        case Some(plain) => if |plain| > MAX_PLAINTEXT then Err(InvalidRequest) else Ok(plain)
  }

  function Encryption(w: World, q: Request): Result<Encrypted, Error> {
    match Plaintext(w, q)
    case Err(x) => Err(x)
    case Ok(plain) =>
      match w.engine.encrypt(w.z.gzip(plain), q.recipients)
      case None => Err(CryptoFailed)
      case Some(x) => Ok(x)
  }

  function ManifestOf(
    w: World, q: Request, clock: int, x: Encrypted, recipients: seq<ManifestRecipient>, size: nat): Manifest
  {
    Manifest(
      FORMAT_NAME, FORMAT_VERSION as int, SCHEMA_RECORDS, if q.now.Some? then q.now.value else clock,
      Sender(q.organizationId, q.signer.id, q.signer.certificateId),
      Of(recipients),
      Cipher(x.provider, x.algorithm, COMPRESSION_GZIP, w.hex(x.payloadHash), w.hex(w.sha(x.ciphertext)), size),
      q.reportYear, q.period, |q.records|)
  }

  function SignedAs(w: World, q: Request, x: Encrypted, m: Manifest): Result<bytes, Error> {
    if !CanonicalJson.AllFit(w.x.fits, ManifestJson(w.x, m)) then Err(NotEncodable)
    else
      var canonical := CanonicalManifest(w.x, m);
      match w.engine.sign(canonical, q.signer)
      case None => Err(CryptoFailed)
      case Some(signature) => Assembled(w.k, canonical, signature, x.ciphertext)
  }

  /** The package of a request, given the order in which its recipients are listed. */
  function ExportSpec(w: World, q: Request, clock: int, recipients: seq<ManifestRecipient>): Result<bytes, Error> {
    match Encryption(w, q)
    case Err(x) => Err(x)
    case Ok(x) => SignedAs(w, q, x, ManifestOf(w, q, clock, x, recipients, |w.z.gzip(Plaintext(w, q).value)|))
  }

  lemma SortedKeepsCount(e: Env, rs: seq<Record>)
    requires SortedSpec(e, rs).Ok?
    ensures |SortedSpec(e, rs).value| == |rs|
  {
    FitExact(e, rs, {});
    SortedLength(e, rs);
  }

  method Export(w: World, q: Request, clock: int) returns (r: Result<bytes, Error>, recipients: seq<ManifestRecipient>)
    ensures r == ExportSpec(w, q, clock, recipients)
    ensures match Encryption(w, q)
      case Ok(x) => SortedRecipients(q.recipients, x.recipients, recipients)
      case Err(_) => true
  {
    recipients := [];
    var invalid := ValidateExport(q);
    if invalid.Some? {
      return Err(invalid.value), [];
    }
    var records := SortRecords(w.e, q.records);
    if records.Err? {
      return Err(records.error), [];
    }
    var plain := w.z.marshal(records.value);
    if plain.None? {
      return Err(NotEncodable), [];
    }
    if |plain.value| > MAX_PLAINTEXT {
      return Err(InvalidRequest), [];
    }
    var compressed := w.z.gzip(plain.value);
    var encrypted := w.engine.encrypt(compressed, q.recipients);
    if encrypted.None? {
      return Err(CryptoFailed), [];
    }
    recipients := ListRecipients(q.recipients, encrypted.value.recipients);
    SortedKeepsCount(w.e, q.records);
    var manifest := ManifestOf(w, q, clock, encrypted.value, recipients, |compressed|);
    r := SignAndAssemble(w, q, encrypted.value, manifest);
  }

  method SignAndAssemble(w: World, q: Request, x: Encrypted, m: Manifest) returns (r: Result<bytes, Error>)
    ensures r == SignedAs(w, q, x, m)
  {
    if !CanonicalJson.AllFit(w.x.fits, ManifestJson(w.x, m)) {
      return Err(NotEncodable);
    }
    var canonical := CanonicalManifest(w.x, m);
    var signature := w.engine.sign(canonical, q.signer);
    if signature.None? {
      return Err(CryptoFailed);
    }
    r := Assemble(w.k, canonical, signature.value, x.ciphertext);
  }

  // ----- opening -----

  datatype ImportPolicy = ImportPolicy(
    recipient: SecretRef, signature: SignaturePolicy, chains: Option<string -> Result<seq<Certificate>, Error>>,
    allowedCiphers: map<string, bool>, allowedSignatures: map<string, bool>, expectedYear: int, expectedPeriod: string)

  datatype Imported = Imported(manifest: Manifest, signer: SignerMetadata, records: seq<Record>)

  function AlgorithmKey(provider: string, algorithm: string): string {
    provider + "/" + algorithm
  }

  /** What can be refused without any key: format, schema, algorithms, year and period, and the hash of the ciphertext. */
  function Screened(w: World, p: ImportPolicy, c: Parsed, m: Manifest): Option<Error> {
    if m.format != FORMAT_NAME || m.version != FORMAT_VERSION as int then Some(UnsupportedVersion)
    else if m.schema != SCHEMA_RECORDS then Some(SchemaMismatch)
    else if m.cipher.compression != COMPRESSION_GZIP then Some(AlgorithmNotAllowed)
    else if |Elements(m.recipients)| == 0 || |Elements(m.recipients)| > MAX_RECIPIENTS || m.recordCount < 0 || m.recordCount > MAX_RECORDS
    then Some(PackageFormat)
    else if !Flagged(p.allowedCiphers, AlgorithmKey(m.cipher.provider, m.cipher.algorithm)) then Some(AlgorithmNotAllowed)
    else if !Flagged(p.allowedSignatures, AlgorithmKey(c.signature.provider, c.signature.algorithm))
    then Some(AlgorithmNotAllowed)
    else if p.expectedYear != 0 && m.reportYear != p.expectedYear then Some(SchemaMismatch)
    else if p.expectedPeriod != "" && m.period != p.expectedPeriod then Some(SchemaMismatch)
    else if w.hex(w.sha(c.ciphertext)) != m.cipher.ciphertextSha then Some(Tampered)
    else None
  }

  /** The signature, the chain behind it, and that the manifest names the owner of the certificate. */
  function Authenticated(
    w: World, p: ImportPolicy, chains: string -> Result<seq<Certificate>, Error>, clock: int, c: Parsed, m: Manifest)
    : Result<SignerMetadata, Error>
  {
    if !w.engine.verify(c.manifest, c.signature) then Err(CryptoFailed)
    else if c.signature.certificateId != m.sender.certificateId || c.signature.signerId != m.sender.signerId
    then Err(SenderMismatch)
    else match chains(m.sender.certificateId)
      case Err(x) => Err(x)
      case Ok(chain) =>
        match ChainSpec(p.signature, clock, chain)
        case Err(x) => Err(x)
        case Ok(signer) =>
          if signer.organizationId != m.sender.organizationId || signer.signerId != m.sender.signerId
          then Err(SenderMismatch)
          else Ok(signer)
  }

  predicate AddressedTo(m: Manifest, id: string) {
    var rs := Elements(m.recipients);
    exists i :: 0 <= i < |rs| && rs[i].id == id
  }

  function Envelopes(rs: seq<ManifestRecipient>): (r: seq<Envelope>)
    ensures |r| == |rs| && forall i :: 0 <= i < |rs| ==> r[i] == Envelope(rs[i].id, rs[i].wrappedKey)
  {
    if rs == [] then [] else [Envelope(rs[0].id, rs[0].wrappedKey)] + Envelopes(rs[1..])
  }

  /** Never more than the limit: the reader stops one byte past it, before any error further on. */
  function Decompress(z: Packing, data: bytes): Result<bytes, Error> {
    var (out, clean) := z.inflate(data);
    if |out| > MAX_PLAINTEXT then Err(DecompressionLimit)
    else if !clean then Err(PackageFormat)
    else Ok(out)
  }

  function Decrypted(w: World, p: ImportPolicy, c: Parsed, m: Manifest): Result<bytes, Error> {
    if !AddressedTo(m, p.recipient.id) then Err(NotARecipient)
    else match w.unhex(m.cipher.payloadSha)
      case None => Err(PackageFormat)
      case Some(hash) =>
        match w.engine.decrypt(
            Encrypted(m.cipher.provider, m.cipher.algorithm, hash, c.ciphertext, Envelopes(Elements(m.recipients))), p.recipient)
        case None => Err(CryptoFailed)
        case Some(compressed) => Decompress(w.z, compressed)
  }

  function Records(w: World, plain: bytes, count: int): Result<seq<Record>, Error> {
    match w.z.unmarshal(plain)
    case None => Err(PackageFormat)
    case Some(rs) =>
      if |rs| != count then Err(RecordCountMismatch)
      else if !Classification.Keyed(w.e, rs) then Err(PackageFormat)
      else Ok(rs)
  }

  function Content(w: World, p: ImportPolicy, c: Parsed, m: Manifest): Result<seq<Record>, Error> {
    match Decrypted(w, p, c, m)
    case Err(x) => Err(x)
    case Ok(plain) => Records(w, plain, m.recordCount)
  }

  function OpenSpec(w: World, p: ImportPolicy, clock: int, data: bytes): Result<Imported, Error> {
    if p.chains.None? then Err(UntrustedChain)
    else match ParseSpec(w.k, data)
      case Err(x) => Err(x)
      case Ok(c) =>
        match ParseManifest(w.x, c.manifest)
        case Err(x) => Err(x)
        case Ok(m) =>
          match Screened(w, p, c, m)
          case Some(x) => Err(x)
          case None =>
            match Authenticated(w, p, p.chains.value, clock, c, m)
            case Err(x) => Err(x)
            case Ok(signer) =>
              match Content(w, p, c, m)
              case Err(x) => Err(x)
              case Ok(rs) => Ok(Imported(m, signer, rs))
  }

  method FindRecipient(rs: seq<ManifestRecipient>, id: string) returns (found: bool)
    ensures found <==> exists i :: 0 <= i < |rs| && rs[i].id == id
  {
    var k := 0;
    while k < |rs|
      invariant k <= |rs| && forall i :: 0 <= i < k ==> rs[i].id != id
    {
      if rs[k].id == id {
        return true;
      }
      k := k + 1;
    }
    found := false;
  }

  method ListEnvelopes(rs: seq<ManifestRecipient>) returns (envelopes: seq<Envelope>)
    ensures envelopes == Envelopes(rs)
  {
    envelopes := [];
    var k := 0;
    while k < |rs|
      invariant k <= |rs| && |envelopes| == k
      invariant forall i :: 0 <= i < k ==> envelopes[i] == Envelope(rs[i].id, rs[i].wrappedKey)
    {
      envelopes := envelopes + [Envelope(rs[k].id, rs[k].wrappedKey)];
      k := k + 1;
    }
  }

  method CheckKeys(e: Env, rs: seq<Record>) returns (ok: bool)
    ensures ok == Classification.Keyed(e, rs)
  {
    var k := 0;
    while k < |rs|
      invariant k <= |rs| && forall i :: 0 <= i < k ==> KeyOf(e, rs[i]).Ok?
    {
      if KeyOf(e, rs[k]).Err? {
        return false;
      }
      k := k + 1;
    }
    ok := true;
  }

  /** Everything that can be checked without the recipient's key comes first; the records come last. */
  method Open(w: World, p: ImportPolicy, clock: int, data: bytes) returns (r: Result<Imported, Error>)
    ensures r == OpenSpec(w, p, clock, data)
  {
    if p.chains.None? {
      return Err(UntrustedChain);
    }
    var parsed := ParseContainer(w.k, data);
    if parsed.Err? {
      return Err(parsed.error);
    }
    var manifest := ParseManifest(w.x, parsed.value.manifest);
    if manifest.Err? {
      return Err(manifest.error);
    }
    var screened := Screened(w, p, parsed.value, manifest.value);
    if screened.Some? {
      return Err(screened.value);
    }
    var signer := Authenticate(w, p, p.chains.value, clock, parsed.value, manifest.value);
    if signer.Err? {
      return Err(signer.error);
    }
    var records := ReadContent(w, p, parsed.value, manifest.value);
    if records.Err? {
      return Err(records.error);
    }
    r := Ok(Imported(manifest.value, signer.value, records.value));
  }

  method Authenticate(
    w: World, p: ImportPolicy, chains: string -> Result<seq<Certificate>, Error>, clock: int, c: Parsed, m: Manifest)
    returns (r: Result<SignerMetadata, Error>)
    ensures r == Authenticated(w, p, chains, clock, c, m)
  {
    if !w.engine.verify(c.manifest, c.signature) {
      return Err(CryptoFailed);
    }
    if c.signature.certificateId != m.sender.certificateId || c.signature.signerId != m.sender.signerId {
      return Err(SenderMismatch);
    }
    var chain := chains(m.sender.certificateId);
    if chain.Err? {
      return Err(chain.error);
    }
    var signer := ValidateCertificateChain(p.signature, clock, chain.value);
    if signer.Ok? && (signer.value.organizationId != m.sender.organizationId || signer.value.signerId != m.sender.signerId) {
      return Err(SenderMismatch);
    }
    r := signer;
  }

  method ReadContent(w: World, p: ImportPolicy, c: Parsed, m: Manifest) returns (r: Result<seq<Record>, Error>)
    ensures r == Content(w, p, c, m)
  {
    var mine := FindRecipient(Elements(m.recipients), p.recipient.id);
    if !mine {
      return Err(NotARecipient);
    }
    var hash := w.unhex(m.cipher.payloadSha);
    if hash.None? {
      return Err(PackageFormat);
    }
    var envelopes := ListEnvelopes(Elements(m.recipients));
    var compressed := w.engine.decrypt(
      Encrypted(m.cipher.provider, m.cipher.algorithm, hash.value, c.ciphertext, envelopes), p.recipient);
    if compressed.None? {
      return Err(CryptoFailed);
    }
    var plain := Decompress(w.z, compressed.value);
    if plain.Err? {
      return Err(plain.error);
    }
    var document := w.z.unmarshal(plain.value);
    if document.None? {
      return Err(PackageFormat);
    }
    if |document.value| != m.recordCount {
      return Err(RecordCountMismatch);
    }
    var keyed := CheckKeys(w.e, document.value);
    if !keyed {
      return Err(PackageFormat);
    }
    r := Ok(document.value);
  }
}
