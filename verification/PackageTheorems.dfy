/**
 From export to reconciliation: every addressed recipient who trusts the sender opens exactly the
 exported records, sorted by key, and comparing them with the originals finds no difference,
 as far as floating-point numbers survive their decimal text. What is opened was signed as it stands.
 */
module PackageTheorems {
  import opened Bytes
  import opened Wrappers
  import opened Ordering
  import opened Json
  import opened Container
  import opened Manifests
  import opened Trust
  import opened MatchKey
  import opened SortedRecords
  import opened Packages
  import opened Reimport
  import Compare
  import Classification
  import DiffTheorems
  import CanonicalJson

  // ----- what the surroundings promise -----

  ghost predicate SameEnvelopes(a: seq<Envelope>, b: seq<Envelope>) {
    forall y :: y in a <==> y in b
  }

  ghost predicate HasEnvelope(envelopes: seq<Envelope>, id: string) {
    exists i :: 0 <= i < |envelopes| && envelopes[i].recipientId == id
  }

  /** One envelope for each recipient, and each of them opens the ciphertext to what was encrypted. */
  ghost predicate EncryptsFor(engine: Engine, plain: bytes, rs: seq<Recipient>, x: Encrypted) {
    && x.ciphertext != [] && |x.recipients| == |rs|
    && (forall i :: 0 <= i < |rs| ==> HasEnvelope(x.recipients, rs[i].id))
    && forall envelopes: seq<Envelope>, i, secret: SecretRef ::
         (0 <= i < |rs| && SameEnvelopes(envelopes, x.recipients) && secret.id == rs[i].id && engine.owns(secret, rs[i])
          ==> engine.decrypt(x.(recipients := envelopes), secret) == Some(plain))
  }

  ghost predicate EngineOk(engine: Engine) {
    && (forall plain, rs :: engine.encrypt(plain, rs).Some? ==>
          EncryptsFor(engine, plain, rs, engine.encrypt(plain, rs).value))
    && forall data, signer :: engine.sign(data, signer).Some? ==>
         var s := engine.sign(data, signer).value;
         engine.verify(data, s) && s.signerId == signer.id && s.certificateId == signer.certificateId
  }

  ghost predicate PackingOk(w: World) {
    && (forall b :: w.z.inflate(w.z.gzip(b)) == (b, true))
    && forall rs :: w.z.marshal(rs).Some? ==> w.z.unmarshal(w.z.marshal(rs).value) == Some(BackAll(w, rs))
  }

  ghost predicate WorldOk(w: World) {
    && EnvOk(w.e) && TextsOk(w.x) && SignatureCodecOk(w.k) && NumbersOk(w) && PackingOk(w) && EngineOk(w.engine)
    && (forall b :: w.unhex(w.hex(b)) == Some(b)) && KeysCompared(w.e.k)
  }

  // ----- opening what was exported -----

  /** What an export went through on the way to its bytes. */
  ghost predicate Exported(
    w: World, q: Request, clock: int, recipients: seq<ManifestRecipient>,
    plain: bytes, x: Encrypted, m: Manifest, s: Signature, data: bytes)
  {
    && Plaintext(w, q) == Ok(plain) && w.engine.encrypt(w.z.gzip(plain), q.recipients) == Some(x)
    && SortedRecipients(q.recipients, x.recipients, recipients)
    && m == ManifestOf(w, q, clock, x, recipients, |w.z.gzip(plain)|)
    && w.engine.sign(CanonicalManifest(w.x, m), q.signer) == Some(s)
    && Assembled(w.k, CanonicalManifest(w.x, m), s, x.ciphertext) == Ok(data)
  }

  /** The export of the request gave these bytes, after this encryption and with this signature. */
  ghost predicate Sent(
    w: World, q: Request, clock: int, recipients: seq<ManifestRecipient>, data: bytes, x: Encrypted, s: Signature)
  {
    && ExportSpec(w, q, clock, recipients) == Ok(data) && Encryption(w, q) == Ok(x)
    && SortedRecipients(q.recipients, x.recipients, recipients)
    && var m := ManifestOf(w, q, clock, x, recipients, |w.z.gzip(Plaintext(w, q).value)|);
       w.engine.sign(CanonicalManifest(w.x, m), q.signer) == Some(s)
  }

  lemma SentIsExported(
    w: World, q: Request, clock: int, recipients: seq<ManifestRecipient>, data: bytes, x: Encrypted, s: Signature)
    requires Sent(w, q, clock, recipients, data, x, s)
    ensures Plaintext(w, q).Ok?
    ensures var plain := Plaintext(w, q).value;
      Exported(w, q, clock, recipients, plain, x, ManifestOf(w, q, clock, x, recipients, |w.z.gzip(plain)|), s, data)
  {
  }

  /** The file parses to the manifest that was signed, its signature and the ciphertext. */
  lemma ExportedParses(
    w: World, q: Request, clock: int, recipients: seq<ManifestRecipient>,
    plain: bytes, x: Encrypted, m: Manifest, s: Signature, data: bytes)
    requires WorldOk(w) && Exported(w, q, clock, recipients, plain, x, m, s, data)
    ensures ParseSpec(w.k, data) == Ok(Parsed(CanonicalManifest(w.x, m), s, x.ciphertext))
    ensures ParseManifest(w.x, CanonicalManifest(w.x, m)) == Ok(m)
  {
    OneTextPerManifest(w.x, CanonicalManifest(w.x, m), m);
    assert CanonicalJson.Print(ManifestJson(w.x, m)) != "";
    assert EncryptsFor(w.engine, w.z.gzip(plain), q.recipients, x);
    AssembledParses(w.k, CanonicalManifest(w.x, m), s, x.ciphertext);
  }

  /** What the receiver's policy has to allow, and whom it has to trust. */
  ghost predicate Receives(w: World, p: ImportPolicy, clock: int, q: Request, x: Encrypted, s: Signature, signer: SignerMetadata) {
    && p.chains.Some?
    && Flagged(p.allowedCiphers, AlgorithmKey(x.provider, x.algorithm))
    && Flagged(p.allowedSignatures, AlgorithmKey(s.provider, s.algorithm))
    && (p.expectedYear == 0 || p.expectedYear == q.reportYear)
    && (p.expectedPeriod == "" || p.expectedPeriod == q.period)
    && (exists chain :: p.chains.value(q.signer.certificateId) == Ok(chain) && ChainSpec(p.signature, clock, chain) == Ok(signer))
    && signer.organizationId == q.organizationId && signer.signerId == q.signer.id
    && exists i :: 0 <= i < |q.recipients| && q.recipients[i].id == p.recipient.id && w.engine.owns(p.recipient, q.recipients[i])
  }

  lemma SortedSize(rs: seq<Recipient>, envelopes: seq<Envelope>, sorted: seq<ManifestRecipient>)
    requires SortedRecipients(rs, envelopes, sorted)
    ensures |sorted| == |envelopes|
  {
    assert |multiset(sorted)| == |multiset(Addressed(rs, envelopes))|;
  }

  /** The manifest lists the same envelopes, in another order. */
  lemma SameEnvelopesListed(rs: seq<Recipient>, envelopes: seq<Envelope>, sorted: seq<ManifestRecipient>)
    requires SortedRecipients(rs, envelopes, sorted)
    ensures SameEnvelopes(Envelopes(sorted), envelopes)
  {
    var all := Addressed(rs, envelopes);
    forall y
      ensures y in Envelopes(sorted) <==> y in envelopes
    {
      if y in Envelopes(sorted) {
        var i :| 0 <= i < |sorted| && Envelopes(sorted)[i] == y;
        assert sorted[i] in multiset(all);
        var j :| 0 <= j < |all| && all[j] == sorted[i];
        assert envelopes[j] == y;
      }
      if y in envelopes {
        var j :| 0 <= j < |envelopes| && envelopes[j] == y;
        assert all[j] in multiset(sorted);
        var i :| 0 <= i < |sorted| && sorted[i] == all[j];
        assert Envelopes(sorted)[i] == y;
      }
    }
  }

  lemma ListedIsAddressed(m: Manifest, envelopes: seq<Envelope>, id: string)
    requires SameEnvelopes(Envelopes(Elements(m.recipients)), envelopes) && HasEnvelope(envelopes, id)
    ensures AddressedTo(m, id)
  {
    var rs := Elements(m.recipients);
    var j :| 0 <= j < |envelopes| && envelopes[j].recipientId == id;
    assert envelopes[j] in Envelopes(rs);
    var i :| 0 <= i < |rs| && Envelopes(rs)[i] == envelopes[j];
    assert rs[i].id == id;
  }

  lemma ExportedScreened(
    w: World, p: ImportPolicy, clock2: int, q: Request, clock: int, recipients: seq<ManifestRecipient>,
    plain: bytes, x: Encrypted, m: Manifest, s: Signature, data: bytes, signer: SignerMetadata)
    requires WorldOk(w) && Exported(w, q, clock, recipients, plain, x, m, s, data)
    requires Receives(w, p, clock2, q, x, s, signer)
    ensures Screened(w, p, Parsed(CanonicalManifest(w.x, m), s, x.ciphertext), m) == None
  {
    EngineEncrypts(w.engine, w.z.gzip(plain), q.recipients, x);
    SortedSize(q.recipients, x.recipients, recipients);
    assert |recipients| == |q.recipients| && ValidRequest(q);
  }

  lemma ExportedAuthenticated(
    w: World, p: ImportPolicy, clock2: int, q: Request, clock: int, recipients: seq<ManifestRecipient>,
    plain: bytes, x: Encrypted, m: Manifest, s: Signature, data: bytes, signer: SignerMetadata)
    requires WorldOk(w) && Exported(w, q, clock, recipients, plain, x, m, s, data)
    requires Receives(w, p, clock2, q, x, s, signer)
    ensures var c := Parsed(CanonicalManifest(w.x, m), s, x.ciphertext);
      Authenticated(w, p, p.chains.value, clock2, c, m) == Ok(signer)
  {
    SignatureHolds(w.engine, CanonicalManifest(w.x, m), q.signer, s);
    var chain :| p.chains.value(q.signer.certificateId) == Ok(chain) && ChainSpec(p.signature, clock2, chain) == Ok(signer);
  }

  lemma SignatureHolds(engine: Engine, data: bytes, signer: SignerRef, s: Signature)
    requires EngineOk(engine) && engine.sign(data, signer) == Some(s)
    ensures engine.verify(data, s) && s.signerId == signer.id && s.certificateId == signer.certificateId
  {
  }

  lemma EngineEncrypts(engine: Engine, plain: bytes, rs: seq<Recipient>, x: Encrypted)
    requires EngineOk(engine) && engine.encrypt(plain, rs) == Some(x)
    ensures EncryptsFor(engine, plain, rs, x)
  {
  }

  /** The engine decrypts for an addressed recipient, from the envelopes as the manifest lists them. */
  lemma DecryptsListed(
    engine: Engine, plain: bytes, rs: seq<Recipient>, x: Encrypted, listed: seq<ManifestRecipient>, secret: SecretRef, i: nat)
    requires EncryptsFor(engine, plain, rs, x) && SortedRecipients(rs, x.recipients, listed)
    requires i < |rs| && secret.id == rs[i].id && engine.owns(secret, rs[i])
    ensures engine.decrypt(Encrypted(x.provider, x.algorithm, x.payloadHash, x.ciphertext, Envelopes(listed)), secret) == Some(plain)
    ensures HasEnvelope(x.recipients, secret.id) && SameEnvelopes(Envelopes(listed), x.recipients)
  {
    SameEnvelopesListed(rs, x.recipients, listed);
    assert Encrypted(x.provider, x.algorithm, x.payloadHash, x.ciphertext, Envelopes(listed)) == x.(recipients := Envelopes(listed));
  }

  lemma ExportedDecrypts(
    w: World, p: ImportPolicy, clock2: int, q: Request, clock: int, recipients: seq<ManifestRecipient>,
    plain: bytes, x: Encrypted, m: Manifest, s: Signature, data: bytes, signer: SignerMetadata)
    requires WorldOk(w) && Exported(w, q, clock, recipients, plain, x, m, s, data)
    requires Receives(w, p, clock2, q, x, s, signer)
    ensures Decrypted(w, p, Parsed(CanonicalManifest(w.x, m), s, x.ciphertext), m) == Ok(plain)
  {
    var compressed := w.z.gzip(plain);
    assert w.z.inflate(compressed) == (plain, true) && |plain| <= MAX_PLAINTEXT;
    EngineEncrypts(w.engine, compressed, q.recipients, x);
    var i :| 0 <= i < |q.recipients| && q.recipients[i].id == p.recipient.id && w.engine.owns(p.recipient, q.recipients[i]);
    DecryptsListed(w.engine, compressed, q.recipients, x, recipients, p.recipient, i);
    ListedIsAddressed(m, x.recipients, p.recipient.id);
    assert w.unhex(w.hex(x.payloadHash)) == Some(x.payloadHash);
  }

  /**
   Export, then Open: an addressed recipient whose policy allows it gets exactly the records that
   were exported, sorted by key, as they come back from JSON; it fails only if one of them has lost its key.
   */
  lemma OpensAsExported(
    w: World, q: Request, clock: int, recipients: seq<ManifestRecipient>, data: bytes,
    p: ImportPolicy, clock2: int, x: Encrypted, s: Signature, signer: SignerMetadata)
    requires WorldOk(w) && Sent(w, q, clock, recipients, data, x, s) && Receives(w, p, clock2, q, x, s, signer)
    ensures Plaintext(w, q).Ok?
    ensures var m := ManifestOf(w, q, clock, x, recipients, |w.z.gzip(Plaintext(w, q).value)|);
      var records := BackAll(w, InKeyOrder(w.e, q.records));
      OpenSpec(w, p, clock2, data)
        == if Classification.Keyed(w.e, records) then Ok(Imported(m, signer, records)) else Err(PackageFormat)
  {
    SentIsExported(w, q, clock, recipients, data, x, s);
    var plain := Plaintext(w, q).value;
    var m := ManifestOf(w, q, clock, x, recipients, |w.z.gzip(plain)|);
    ExportedParses(w, q, clock, recipients, plain, x, m, s, data);
    ExportedScreened(w, p, clock2, q, clock, recipients, plain, x, m, s, data, signer);
    ExportedAuthenticated(w, p, clock2, q, clock, recipients, plain, x, m, s, data, signer);
    ExportedDecrypts(w, p, clock2, q, clock, recipients, plain, x, m, s, data, signer);
    ExportedRecords(w, q, plain);
  }

  lemma ExportedRecords(w: World, q: Request, plain: bytes)
    requires WorldOk(w) && Plaintext(w, q) == Ok(plain)
    ensures var records := BackAll(w, InKeyOrder(w.e, q.records));
      Records(w, plain, |q.records|) == if Classification.Keyed(w.e, records) then Ok(records) else Err(PackageFormat)
  {
    SortedKeepsCount(w.e, q.records);
    var sorted := InKeyOrder(w.e, q.records);
    assert w.z.unmarshal(w.z.marshal(sorted).value) == Some(BackAll(w, sorted));
  }

  // ----- reconciling the originals with what came back -----

  ghost predicate AllExact(w: World, rs: seq<Record>) {
    forall i :: 0 <= i < |rs| ==> Exact(w, rs[i])
  }

  ghost predicate KeysKept(w: World, rs: seq<Record>) {
    forall i :: 0 <= i < |rs| ==> KeyOf(w.e, BackRecord(w, rs[i])) == KeyOf(w.e, rs[i])
  }

  /** The records come back under their own keys, each once. */
  lemma BackAt(w: World, rs: seq<Record>, k: nat)
    requires Distinct(w.e, rs) && KeysKept(w, rs) && k < |SortedKeys(w.e, rs)|
    ensures var id := SortedKeys(w.e, rs)[k];
      var r := Classification.First(w.e, rs, id);
      && BackAll(w, InKeyOrder(w.e, rs))[k] == BackRecord(w, r) && r in rs
      && Classification.Has(w.e, BackRecord(w, r), id) && KeyOf(w.e, BackRecord(w, r)).Ok?
  {
    var r := Classification.First(w.e, rs, SortedKeys(w.e, rs)[k]);
    var i :| 0 <= i < |rs| && rs[i] == r;
  }

  lemma BackDistinct(w: World, rs: seq<Record>)
    requires Distinct(w.e, rs) && KeysKept(w, rs)
    ensures Distinct(w.e, BackAll(w, InKeyOrder(w.e, rs)))
  {
    RankingChars();
    var ids, back := SortedKeys(w.e, rs), BackAll(w, InKeyOrder(w.e, rs));
    SortedIncreases(CharRank, Classification.Ids(w.e, rs));
    forall k | 0 <= k < |back|
      ensures Classification.Has(w.e, back[k], ids[k])
    {
      BackAt(w, rs, k);
    }
    forall j, k | 0 <= j < k < |back|
      ensures IdOf(w.e, back[j]) != IdOf(w.e, back[k])
    {
      assert Less(CharRank, ids[j], ids[k]);
    }
  }

  /** Both sides hold the same keys, and the records under a key are a record and itself come back. */
  lemma BackOnce(w: World, rs: seq<Record>, id: string)
    requires Distinct(w.e, rs) && KeysKept(w, rs)
    ensures var back := BackAll(w, InKeyOrder(w.e, rs));
      && Classification.Count(w.e, rs, id) <= 1
      && Classification.Count(w.e, back, id) == Classification.Count(w.e, rs, id)
      && (Classification.Count(w.e, rs, id) > 0 ==>
            Classification.First(w.e, back, id) == BackRecord(w, Classification.First(w.e, rs, id)))
  {
    var ids, back := SortedKeys(w.e, rs), BackAll(w, InKeyOrder(w.e, rs));
    BackDistinct(w, rs);
    CountsOne(w.e, rs, id);
    CountsOne(w.e, back, id);
    if Classification.Count(w.e, rs, id) > 0 {
      var k :| 0 <= k < |ids| && ids[k] == id;
      BackAt(w, rs, k);
      TheRecord(w.e, back, back[k], id);
    }
    if Classification.Count(w.e, back, id) > 0 {
      var r := Classification.First(w.e, back, id);
      var k :| 0 <= k < |back| && back[k] == r;
      BackAt(w, rs, k);
      assert ids[k] in ids;
    }
  }

  lemma BackPayloadsOk(w: World, rs: seq<Record>)
    requires NumbersOk(w) && Distinct(w.e, rs) && KeysKept(w, rs) && DiffTheorems.PayloadsOk(rs)
    ensures DiffTheorems.PayloadsOk(BackAll(w, InKeyOrder(w.e, rs)))
  {
    var back := BackAll(w, InKeyOrder(w.e, rs));
    forall k | 0 <= k < |back|
      ensures Compare.PayloadOk(back[k].payload)
    {
      BackAt(w, rs, k);
      BackPayloadOk(w, Classification.First(w.e, rs, SortedKeys(w.e, rs)[k]).payload);
    }
  }

  /** The item of a key of the originals is identical exactly when its record is exact. */
  lemma ItemIdentical(w: World, rs: seq<Record>, r: Record, id: string)
    requires NumbersOk(w) && Distinct(w.e, rs) && KeysKept(w, rs) && DiffTheorems.PayloadsOk(rs)
    requires r in rs && Classification.Has(w.e, r, id)
    ensures var back := BackAll(w, InKeyOrder(w.e, rs));
      && Classification.OnSide(w.e, rs, back, id)
      && (Classification.ItemFor(w.e, rs, back, id).status == Classification.Identical <==> Exact(w, r))
  {
    var back := BackAll(w, InKeyOrder(w.e, rs));
    TheRecord(w.e, rs, r, id);
    BackOnce(w, rs, id);
    BackPayloadsOk(w, rs);
    DiffTheorems.StatusMeans(w.e, rs, back, id);
    IdenticalAfter(w, r);
  }

  ghost predicate Clean(items: seq<Classification.Item>) {
    forall k :: 0 <= k < |items| ==> items[k].status == Classification.Identical
  }

  /** While the keys are kept, reconciling is clean exactly when every compared float is worth its decimal text. */
  lemma CleanWhenKept(w: World, rs: seq<Record>)
    requires NumbersOk(w) && Distinct(w.e, rs) && KeysKept(w, rs) && DiffTheorems.PayloadsOk(rs)
    ensures var back := BackAll(w, InKeyOrder(w.e, rs));
      Clean(Classification.DiffItems(w.e, rs, back)) <==> AllExact(w, rs)
  {
    var back := BackAll(w, InKeyOrder(w.e, rs));
    var items := Classification.DiffItems(w.e, rs, back);
    if Clean(items) {
      forall i | 0 <= i < |rs|
        ensures Exact(w, rs[i])
      {
        var id := IdOf(w.e, rs[i]);
        ItemIdentical(w, rs, rs[i], id);
        DiffTheorems.EachKeyOnce(w.e, rs, back, id);
      }
    }
    if AllExact(w, rs) {
      forall k | 0 <= k < |items|
        ensures items[k].status == Classification.Identical
      {
        ItemOfOriginal(w, rs, k);
      }
    }
  }

  lemma ItemOfOriginal(w: World, rs: seq<Record>, k: nat)
    requires NumbersOk(w) && Distinct(w.e, rs) && KeysKept(w, rs) && DiffTheorems.PayloadsOk(rs) && AllExact(w, rs)
    requires k < |Classification.DiffItems(w.e, rs, BackAll(w, InKeyOrder(w.e, rs)))|
    ensures Classification.DiffItems(w.e, rs, BackAll(w, InKeyOrder(w.e, rs)))[k].status == Classification.Identical
  {
    var back := BackAll(w, InKeyOrder(w.e, rs));
    var id := Classification.SortedIds(w.e, rs, back)[k];
    BackOnce(w, rs, id);
    var r := Classification.First(w.e, rs, id);
    var i :| 0 <= i < |rs| && rs[i] == r;
    ItemIdentical(w, rs, r, id);
  }

  lemma ExactKeepsKeys(w: World, rs: seq<Record>)
    requires NumbersOk(w) && KeysCompared(w.e.k) && AllExact(w, rs)
    ensures KeysKept(w, rs)
  {
    forall i | 0 <= i < |rs|
      ensures KeyOf(w.e, BackRecord(w, rs[i])) == KeyOf(w.e, rs[i])
    {
      KeyKept(w, rs[i]);
    }
  }

  /** Exact records all come back, each under its key, and reconciling them with the originals is clean. */
  lemma ExactIsClean(w: World, rs: seq<Record>)
    requires NumbersOk(w) && KeysCompared(w.e.k) && Distinct(w.e, rs) && DiffTheorems.PayloadsOk(rs) && AllExact(w, rs)
    ensures var back := BackAll(w, InKeyOrder(w.e, rs));
      && |back| == |rs| && Classification.Keyed(w.e, back) && Clean(Classification.DiffItems(w.e, rs, back))
  {
    ExactKeepsKeys(w, rs);
    BackDistinct(w, rs);
    SortedLength(w.e, rs);
    CleanWhenKept(w, rs);
  }

  /**
   Export, Open, Diff: when every compared float is worth its decimal text, every addressed recipient
   opens the package, and the originals against what was opened are identical, item by item.
   */
  lemma ExportOpenDiffIsClean(
    w: World, q: Request, clock: int, recipients: seq<ManifestRecipient>, data: bytes,
    p: ImportPolicy, clock2: int, x: Encrypted, s: Signature, signer: SignerMetadata)
    requires WorldOk(w) && Sent(w, q, clock, recipients, data, x, s) && Receives(w, p, clock2, q, x, s, signer)
    requires DiffTheorems.PayloadsOk(q.records) && AllExact(w, q.records)
    ensures var opens := OpenSpec(w, p, clock2, data);
      && opens.Ok? && |opens.value.records| == |q.records|
      && Clean(Classification.DiffItems(w.e, q.records, opens.value.records))
  {
    FitExact(w.e, q.records, {});
    OpensAsExported(w, q, clock, recipients, data, p, clock2, x, s, signer);
    ExactIsClean(w, q.records);
  }

  // ----- what is opened -----

  /** The stages an accepted package has passed. */
  lemma OpenStages(w: World, p: ImportPolicy, clock: int, data: bytes, i: Imported) returns (c: Parsed)
    requires OpenSpec(w, p, clock, data) == Ok(i)
    ensures p.chains.Some? && ParseSpec(w.k, data) == Ok(c) && ParseManifest(w.x, c.manifest) == Ok(i.manifest)
    ensures Screened(w, p, c, i.manifest) == None
    ensures Authenticated(w, p, p.chains.value, clock, c, i.manifest) == Ok(i.signer)
    ensures Content(w, p, c, i.manifest) == Ok(i.records)
  {
    c := ParseSpec(w.k, data).value;
  }

  /** The sender of a manifest is the owner of the certificate that its signature verifies with. */
  ghost predicate FromSender(w: World, p: ImportPolicy, clock: int, m: Manifest, s: Signature, signer: SignerMetadata) {
    && w.engine.verify(CanonicalManifest(w.x, m), s)
    && s.signerId == m.sender.signerId == signer.signerId && s.certificateId == m.sender.certificateId
    && signer.organizationId == m.sender.organizationId
    && p.chains.Some?
    && var chain := p.chains.value(m.sender.certificateId);
       chain.Ok? && ChainSpec(p.signature, clock, chain.value) == Ok(signer)
  }

  /**
   Whatever is opened stands as it was signed: the bytes are the canonical manifest, the signature and
   the ciphertext and nothing else; the signature verifies over that manifest; the signer's chain is
   accepted and is the sender's; and the ciphertext is the one whose hash was signed.
   */
  lemma OpenedIsSigned(w: World, p: ImportPolicy, clock: int, data: bytes, i: Imported)
    requires TextsOk(w.x) && OpenSpec(w, p, clock, data) == Ok(i)
    ensures exists d, s, ciphertext ::
      && BlocksOk(CanonicalManifest(w.x, i.manifest), d, ciphertext) && w.k.unmarshal(d) == Some(s)
      && data == Framed(CanonicalManifest(w.x, i.manifest), d, ciphertext)
      && FromSender(w, p, clock, i.manifest, s, i.signer)
      && w.hex(w.sha(ciphertext)) == i.manifest.cipher.ciphertextSha
    ensures AddressedTo(i.manifest, p.recipient.id) && |i.records| == i.manifest.recordCount && Classification.Keyed(w.e, i.records)
  {
    var c := OpenStages(w, p, clock, data, i);
    ParseIsExact(w.k, data, c);
    OneTextPerManifest(w.x, c.manifest, i.manifest);
    var d :| BlocksOk(c.manifest, d, c.ciphertext) && w.k.unmarshal(d) == Some(c.signature)
      && data == Framed(c.manifest, d, c.ciphertext);
    SenderOfAuthenticated(w, p, clock, c, i.manifest, i.signer);
  }

  lemma SenderOfAuthenticated(w: World, p: ImportPolicy, clock: int, c: Parsed, m: Manifest, signer: SignerMetadata)
    requires p.chains.Some? && Authenticated(w, p, p.chains.value, clock, c, m) == Ok(signer)
    requires c.manifest == CanonicalManifest(w.x, m)
    ensures FromSender(w, p, clock, m, c.signature, signer)
  {
  }
}
