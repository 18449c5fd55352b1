/** The signed manifest of a package: its canonical text, and that no other text of it is accepted. */
module Manifests {
  import opened Bytes
  import opened Wrappers
  import opened Json
  import opened CanonicalJson
  import opened Container

  const FORMAT_NAME := "cybercalc.pkg"
  const SCHEMA_RECORDS := "exchange.records.v1"
  const COMPRESSION_GZIP := "gzip"

  datatype Sender = Sender(organizationId: string, signerId: string, certificateId: string)

  /** A Go slice: nil is written as null and comes back as nil, an empty one does not. */
  datatype Slice<+T> = Nil | Of(elements: seq<T>)

  function Elements<T>(s: Slice<T>): seq<T> {
    if s.Nil? then [] else s.elements
  }

  datatype ManifestRecipient = ManifestRecipient(id: string, certificateId: string, wrappedKey: Slice<byte>)

  datatype Cipher = Cipher(
    provider: string, algorithm: string, compression: string,
    payloadSha: string, ciphertextSha: string, plaintextSize: int)

  datatype Manifest = Manifest(
    format: string, version: int, schema: string, createdAt: int, sender: Sender,
    recipients: Slice<ManifestRecipient>, cipher: Cipher, reportYear: int, period: string, recordCount: int)

  /** encoding/json for the values of a manifest; read decodes the fields, and refuses unknown ones. */
  datatype Texts = Texts(
    utf8: string -> bytes,
    decode: bytes -> Option<string>,
    itoa: int -> string,
    stamp: int -> string,
    base64: bytes -> string,
    fits: string -> bool,
    read: Json -> Option<Manifest>)

  function Number(x: Texts, n: int): Json {
    Num(x.itoa(n))
  }

  function SenderJson(s: Sender): Json {
    Obj(map["organization_id" := Str(s.organizationId), "signer_id" := Str(s.signerId),
            "certificate_id" := Str(s.certificateId)])
  }

  function RecipientJson(x: Texts, r: ManifestRecipient): Json {
    Obj(map["id" := Str(r.id), "certificate_id" := Str(r.certificateId), "wrapped_key" := KeyJson(x, r.wrappedKey)])
  }

  function KeyJson(x: Texts, key: Slice<byte>): Json {
    if key.Nil? then Null else Str(x.base64(key.elements))
  }

  function ListJson(x: Texts, rs: Slice<ManifestRecipient>): Json {
    if rs.Nil? then Null else Arr(RecipientsJson(x, rs.elements))
  }

  function CipherJson(x: Texts, c: Cipher): Json {
    Obj(map["provider" := Str(c.provider), "algorithm" := Str(c.algorithm), "compression" := Str(c.compression),
            "payload_sha256" := Str(c.payloadSha), "ciphertext_sha256" := Str(c.ciphertextSha),
            "plaintext_size" := Number(x, c.plaintextSize)])
  }

  function RecipientsJson(x: Texts, rs: seq<ManifestRecipient>): (items: seq<Json>)
    ensures |items| == |rs| && forall i :: 0 <= i < |rs| ==> items[i] == RecipientJson(x, rs[i])
  {
    if rs == [] then [] else [RecipientJson(x, rs[0])] + RecipientsJson(x, rs[1..])
  }

  function TextMembers(x: Texts, m: Manifest): map<string, Json> {
    map["format" := Str(m.format), "schema" := Str(m.schema), "created_at" := Str(x.stamp(m.createdAt)),
        "period" := Str(m.period)]
  }

  function NumberMembers(x: Texts, m: Manifest): map<string, Json> {
    map["version" := Number(x, m.version), "report_year" := Number(x, m.reportYear),
        "record_count" := Number(x, m.recordCount)]
  }

  function PartMembers(x: Texts, m: Manifest): map<string, Json> {
    map["sender" := SenderJson(m.sender), "recipients" := ListJson(x, m.recipients),
        "cipher" := CipherJson(x, m.cipher)]
  }

  /** The fields of a manifest as encoding/json writes them. */
  function ManifestJson(x: Texts, m: Manifest): Json {
    Obj(TextMembers(x, m) + NumberMembers(x, m) + PartMembers(x, m))
  }

  ghost predicate TextsOk(x: Texts) {
    && (forall s :: x.decode(x.utf8(s)) == Some(s) && (s != "" ==> x.utf8(s) != []))
    && (forall n :: ValidNumber(x.itoa(n)) && x.fits(x.itoa(n)))
    && (forall m :: x.read(ManifestJson(x, m)) == Some(m))
  }

  /** The canonical bytes: what is signed. */
  function CanonicalManifest(x: Texts, m: Manifest): bytes {
    x.utf8(Print(ManifestJson(x, m)))
  }

  /** Decodes, and then insists on the canonical bytes of what was decoded. */
  function ParseManifest(x: Texts, raw: bytes): Result<Manifest, Error> {
    match x.decode(raw)
    case None => Err(PackageFormat)
    case Some(text) =>
      match Decode(text)
      case None => Err(PackageFormat)
      case Some(v) =>
        match x.read(v)
        case None => Err(PackageFormat)
        case Some(m) => if CanonicalManifest(x, m) == raw then Ok(m) else Err(PackageFormat)
  }

  lemma RecipientWellFormed(x: Texts, r: ManifestRecipient)
    ensures WellFormed(RecipientJson(x, r), 2)
  {
  }

  lemma ListWellFormed(x: Texts, rs: Slice<ManifestRecipient>)
    ensures WellFormed(ListJson(x, rs), 1)
  {
    if rs.Of? {
      forall r
        ensures WellFormed(RecipientJson(x, r), 2)
      {
        RecipientWellFormed(x, r);
      }
    }
  }

  lemma PartsWellFormed(x: Texts, m: Manifest)
    requires TextsOk(x)
    ensures WellFormed(SenderJson(m.sender), 1) && WellFormed(CipherJson(x, m.cipher), 1)
    ensures WellFormed(ListJson(x, m.recipients), 1)
  {
    ListWellFormed(x, m.recipients);
  }

  lemma PartMembersWellFormed(x: Texts, m: Manifest)
    requires TextsOk(x)
    ensures MembersOk(PartMembers(x, m), 1)
  {
    PartsWellFormed(x, m);
  }

  lemma TextsWellFormed(x: Texts, m: Manifest)
    ensures MembersOk(TextMembers(x, m), 1)
  {
  }

  lemma NumbersWellFormed(x: Texts, m: Manifest)
    requires TextsOk(x)
    ensures MembersOk(NumberMembers(x, m), 1)
  {
  }

  lemma MembersWellFormed(x: Texts, m: Manifest)
    requires TextsOk(x)
    ensures MembersOk(TextMembers(x, m), 1) && MembersOk(NumberMembers(x, m), 1) && MembersOk(PartMembers(x, m), 1)
  {
    TextsWellFormed(x, m);
    NumbersWellFormed(x, m);
    PartMembersWellFormed(x, m);
  }

  lemma ManifestWellFormed(x: Texts, m: Manifest)
    requires TextsOk(x)
    ensures WellFormed(ManifestJson(x, m), 0)
  {
    MembersWellFormed(x, m);
    UnionOk(TextMembers(x, m), NumberMembers(x, m), PartMembers(x, m));
  }

  lemma UnionOk(a: map<string, Json>, b: map<string, Json>, c: map<string, Json>)
    requires MembersOk(a, 1) && MembersOk(b, 1) && MembersOk(c, 1)
    ensures WellFormed(Obj(a + b + c), 0)
  {
  }

  /**
   A manifest is accepted from exactly one byte string, its canonical text: bytes in another
   order, with other spaces or with anything after them are refused.
   */
  lemma OneTextPerManifest(x: Texts, raw: bytes, m: Manifest)
    requires TextsOk(x)
    ensures ParseManifest(x, raw) == Ok(m) <==> raw == CanonicalManifest(x, m)
  {
    ManifestWellFormed(x, m);
    DecodeOfPrint(ManifestJson(x, m));
  }

  /** Different manifests have different canonical bytes: a signature covers one manifest only. */
  lemma CanonicalManifestInjective(x: Texts, m: Manifest, n: Manifest)
    requires TextsOk(x) && CanonicalManifest(x, m) == CanonicalManifest(x, n)
    ensures m == n
  {
    OneTextPerManifest(x, CanonicalManifest(x, m), m);
    OneTextPerManifest(x, CanonicalManifest(x, m), n);
  }
}
