/**
 When a package is opened, told without the steps that open it: everything it has to be, and everything
 the policy has to allow. And that nothing secret is used before the sender is trusted.
 */
module OpenedPackages {
  import opened Bytes
  import opened Wrappers
  import opened Container
  import opened Manifests
  import opened Trust
  import opened MatchKey
  import opened Packages
  import opened PackageTheorems

  /** The list has the algorithm, and allows it. */
  predicate Allows(list: map<string, bool>, provider: string, algorithm: string) {
    var key := provider + "/" + algorithm;
    key in list && list[key]
  }

  /** What anyone can see of a package: its fixed parts, its limits, its algorithms and what it reports on. */
  predicate Visible(p: ImportPolicy, m: Manifest, s: Signature) {
    && m.format == "cybercalc.pkg" && m.version == 1 && m.schema == "exchange.records.v1" && m.cipher.compression == "gzip"
    && m.recipients != Nil && 1 <= |m.recipients.elements| <= 64 && 0 <= m.recordCount <= 200_000
    && Allows(p.allowedCiphers, m.cipher.provider, m.cipher.algorithm)
    && Allows(p.allowedSignatures, s.provider, s.algorithm)
    && (p.expectedYear == 0 || m.reportYear == p.expectedYear)
    && (p.expectedPeriod == "" || m.period == p.expectedPeriod)
  }

  /** Whose package it is: the owner of a certificate whose chain is accepted, and no one else. */
  ghost predicate SignedBy(w: World, p: ImportPolicy, clock: int, m: Manifest, s: Signature, signer: SignerMetadata) {
    && p.chains.Some? && w.engine.verify(CanonicalManifest(w.x, m), s)
    && s.signerId == m.sender.signerId == signer.signerId && s.certificateId == m.sender.certificateId
    && m.sender.organizationId == signer.organizationId
    && exists chain :: p.chains.value(m.sender.certificateId) == Ok(chain) && SpeaksFor(p.signature, clock, chain, signer)
  }

  /** Everything before the recipient's key comes into play. */
  ghost predicate Trustworthy(
    w: World, p: ImportPolicy, clock: int, data: bytes, m: Manifest, s: Signature, ciphertext: bytes, signer: SignerMetadata)
  {
    && (exists d :: BlocksOk(CanonicalManifest(w.x, m), d, ciphertext) && w.k.unmarshal(d) == Some(s)
                    && data == Framed(CanonicalManifest(w.x, m), d, ciphertext))
    && |data| <= MAX_PACKAGE_BYTES
    && Visible(p, m, s) && w.hex(w.sha(ciphertext)) == m.cipher.ciphertextSha
    && SignedBy(w, p, clock, m, s, signer)
  }

  /** The envelopes as the manifest lists them. */
  ghost predicate Lists(m: Manifest, envelopes: seq<Envelope>) {
    && |envelopes| == |Elements(m.recipients)|
    && forall k :: 0 <= k < |envelopes| ==>
         envelopes[k] == Envelope(Elements(m.recipients)[k].id, Elements(m.recipients)[k].wrappedKey)
  }

  /** The ciphertext decrypts, for one of the recipients, to the compressed text of these records. */
  ghost predicate Holds(w: World, p: ImportPolicy, m: Manifest, ciphertext: bytes, records: seq<Record>) {
    && (exists k :: 0 <= k < |Elements(m.recipients)| && Elements(m.recipients)[k].id == p.recipient.id)
    && |records| == m.recordCount && (forall k :: 0 <= k < |records| ==> KeyOf(w.e, records[k]).Ok?)
    && exists hash, envelopes, compressed, plain ::
         && w.unhex(m.cipher.payloadSha) == Some(hash) && Lists(m, envelopes)
         && w.engine.decrypt(Encrypted(m.cipher.provider, m.cipher.algorithm, hash, ciphertext, envelopes), p.recipient)
            == Some(compressed)
         && w.z.inflate(compressed) == (plain, true) && |plain| <= 268_435_456
         && w.z.unmarshal(plain) == Some(records)
  }

  ghost predicate Accepted(w: World, p: ImportPolicy, clock: int, data: bytes, i: Imported) {
    exists s, ciphertext ::
      Trustworthy(w, p, clock, data, i.manifest, s, ciphertext, i.signer) && Holds(w, p, i.manifest, ciphertext, i.records)
  }

  // ----- stage by stage -----

  lemma VisibleExact(w: World, p: ImportPolicy, c: Parsed, m: Manifest)
    ensures Screened(w, p, c, m) == None <==>
      Visible(p, m, c.signature) && w.hex(w.sha(c.ciphertext)) == m.cipher.ciphertextSha
  {
  }

  lemma SignedByExact(w: World, p: ImportPolicy, clock: int, c: Parsed, m: Manifest, signer: SignerMetadata)
    requires p.chains.Some? && c.manifest == CanonicalManifest(w.x, m)
    ensures Authenticated(w, p, p.chains.value, clock, c, m) == Ok(signer) <==> SignedBy(w, p, clock, m, c.signature, signer)
  {
    forall chain
      ensures ChainSpec(p.signature, clock, chain) == Ok(signer) <==> SpeaksFor(p.signature, clock, chain, signer)
    {
      AcceptedSpeaks(p.signature, clock, chain, signer);
    }
  }

  lemma ListsOnce(m: Manifest, envelopes: seq<Envelope>)
    ensures Lists(m, envelopes) <==> envelopes == Envelopes(Elements(m.recipients))
  {
  }

  lemma HoldsExact(w: World, p: ImportPolicy, c: Parsed, m: Manifest, rs: seq<Record>)
    ensures Content(w, p, c, m) == Ok(rs) <==> Holds(w, p, m, c.ciphertext, rs)
  {
    forall envelopes
      ensures Lists(m, envelopes) <==> envelopes == Envelopes(Elements(m.recipients))
    {
      ListsOnce(m, envelopes);
    }
  }

  lemma TrustworthyExact(
    w: World, p: ImportPolicy, clock: int, data: bytes, m: Manifest, s: Signature, ciphertext: bytes, signer: SignerMetadata)
    requires TextsOk(w.x)
    ensures Trustworthy(w, p, clock, data, m, s, ciphertext, signer) <==>
      var c := Parsed(CanonicalManifest(w.x, m), s, ciphertext);
      && p.chains.Some? && ParseSpec(w.k, data) == Ok(c) && ParseManifest(w.x, c.manifest) == Ok(m)
      && Screened(w, p, c, m) == None && Authenticated(w, p, p.chains.value, clock, c, m) == Ok(signer)
  {
    var c := Parsed(CanonicalManifest(w.x, m), s, ciphertext);
    ParseIsExact(w.k, data, c);
    OneTextPerManifest(w.x, c.manifest, m);
    VisibleExact(w, p, c, m);
    if p.chains.Some? {
      SignedByExact(w, p, clock, c, m, signer);
    }
  }

  /**
   A package is opened to a manifest, a signer and records if and only if its bytes are that manifest, a
   signature and a ciphertext, what can be seen of it is allowed, it is signed by that signer through an accepted
   chain, and its ciphertext decrypts for the recipient to those records.
   */
  lemma OpensExactly(w: World, p: ImportPolicy, clock: int, data: bytes, i: Imported)
    requires TextsOk(w.x)
    ensures OpenSpec(w, p, clock, data) == Ok(i) <==> Accepted(w, p, clock, data, i)
  {
    if OpenSpec(w, p, clock, data) == Ok(i) {
      var c := OpenStages(w, p, clock, data, i);
      OneTextPerManifest(w.x, c.manifest, i.manifest);
      TrustworthyExact(w, p, clock, data, i.manifest, c.signature, c.ciphertext, i.signer);
      HoldsExact(w, p, c, i.manifest, i.records);
    }
    if Accepted(w, p, clock, data, i) {
      var s, ciphertext :| Trustworthy(w, p, clock, data, i.manifest, s, ciphertext, i.signer)
        && Holds(w, p, i.manifest, ciphertext, i.records);
      TrustworthyExact(w, p, clock, data, i.manifest, s, ciphertext, i.signer);
      HoldsExact(w, p, Parsed(CanonicalManifest(w.x, i.manifest), s, ciphertext), i.manifest, i.records);
    }
  }

  // ----- nothing secret before trust -----

  /** Two worlds that differ only in what opens a ciphertext and reads what was in it. */
  ghost predicate SamePublicly(w: World, v: World) {
    && v.x == w.x && v.k == w.k && v.sha == w.sha && v.hex == w.hex && v.engine.verify == w.engine.verify
  }

  /** All the steps before the ciphertext is opened. */
  function ToTrust(w: World, p: ImportPolicy, clock: int, data: bytes): Result<(Parsed, Manifest, SignerMetadata), Error> {
    if p.chains.None? then Err(UntrustedChain)
    else match ParseSpec(w.k, data)
      case Err(x) => Err(x)
      case Ok(c) =>
        match ParseManifest(w.x, c.manifest)
        case Err(x) => Err(x)
        case Ok(m) =>
          match Screened(w, p, c, m)
          case Some(x) => Err(x)
          case None =>
            match Authenticated(w, p, p.chains.value, clock, c, m)
            case Err(x) => Err(x)
            case Ok(signer) => Ok((c, m, signer))
  }

  lemma TrustFirst(w: World, p: ImportPolicy, clock: int, data: bytes)
    ensures ToTrust(w, p, clock, data).Err? ==> OpenSpec(w, p, clock, data) == Err(ToTrust(w, p, clock, data).error)
  {
  }

  lemma ToTrustIsTrustworthy(w: World, p: ImportPolicy, clock: int, data: bytes)
    requires TextsOk(w.x) && ToTrust(w, p, clock, data).Ok?
    ensures var (c, m, signer) := ToTrust(w, p, clock, data).value;
      Trustworthy(w, p, clock, data, m, c.signature, c.ciphertext, signer)
  {
    var (c, m, signer) := ToTrust(w, p, clock, data).value;
    OneTextPerManifest(w.x, c.manifest, m);
    TrustworthyExact(w, p, clock, data, m, c.signature, c.ciphertext, signer);
  }

  lemma ScreeningNeedsNoSecret(w: World, v: World, p: ImportPolicy, recipient: SecretRef, c: Parsed, m: Manifest)
    requires SamePublicly(w, v)
    ensures Screened(v, p.(recipient := recipient), c, m) == Screened(w, p, c, m)
  {
  }

  lemma SigningNeedsNoSecret(
    w: World, v: World, p: ImportPolicy, recipient: SecretRef, clock: int, c: Parsed, m: Manifest)
    requires SamePublicly(w, v) && p.chains.Some?
    ensures Authenticated(v, p.(recipient := recipient), p.chains.value, clock, c, m)
         == Authenticated(w, p, p.chains.value, clock, c, m)
  {
  }

  lemma TrustNeedsNoSecret(w: World, v: World, p: ImportPolicy, recipient: SecretRef, clock: int, data: bytes)
    requires SamePublicly(w, v)
    ensures ToTrust(v, p.(recipient := recipient), clock, data) == ToTrust(w, p, clock, data)
  {
    if p.chains.Some? && ParseSpec(w.k, data).Ok? {
      var c := ParseSpec(w.k, data).value;
      if ParseManifest(w.x, c.manifest).Ok? {
        var m := ParseManifest(w.x, c.manifest).value;
        ScreeningNeedsNoSecret(w, v, p, recipient, c, m);
        SigningNeedsNoSecret(w, v, p, recipient, clock, c, m);
      }
    }
  }

  lemma RefusalNeedsNoSecret(w: World, v: World, p: ImportPolicy, recipient: SecretRef, clock: int, data: bytes)
    requires SamePublicly(w, v) && ToTrust(w, p, clock, data).Err?
    ensures OpenSpec(v, p.(recipient := recipient), clock, data) == Err(ToTrust(w, p, clock, data).error)
  {
    TrustNeedsNoSecret(w, v, p, recipient, clock, data);
    TrustFirst(v, p.(recipient := recipient), clock, data);
  }

  /**
   Whose key it is, what it decrypts to and what that says can matter only for a package that is trustworthy
   without them: any other is refused, in the same way whatever they are.
   */
  lemma NothingSecretBeforeTrust(w: World, v: World, p: ImportPolicy, recipient: SecretRef, clock: int, data: bytes)
    requires TextsOk(w.x) && SamePublicly(w, v)
    requires forall m, s, ciphertext, signer :: !Trustworthy(w, p, clock, data, m, s, ciphertext, signer)
    ensures exists x ::
      OpenSpec(w, p, clock, data) == Err(x) && OpenSpec(v, p.(recipient := recipient), clock, data) == Err(x)
  {
    if ToTrust(w, p, clock, data).Ok? {
      ToTrustIsTrustworthy(w, p, clock, data);
    } else {
      RefusalNeedsNoSecret(w, w, p, p.recipient, clock, data);
      RefusalNeedsNoSecret(w, v, p, recipient, clock, data);
      assert p.(recipient := p.recipient) == p;
    }
  }

  // ----- what the sender asked for -----

  /** The manifest tells the request: sender, year, period, time, number of records, and what was encrypted. */
  predicate TellsRequest(w: World, q: Request, clock: int, x: Encrypted, m: Manifest) {
    && m.sender.organizationId == q.organizationId && m.sender.signerId == q.signer.id
    && m.sender.certificateId == q.signer.certificateId
    && m.reportYear == q.reportYear && m.period == q.period && m.recordCount == |q.records|
    && m.createdAt == (if q.now.Some? then q.now.value else clock)
    && m.cipher.provider == x.provider && m.cipher.algorithm == x.algorithm
    && w.unhex(m.cipher.payloadSha) == Some(x.payloadHash) && m.cipher.ciphertextSha == w.hex(w.sha(x.ciphertext))
  }

  /** The recipients of the manifest: one line for each envelope, with the certificate that was asked for, sorted. */
  ghost predicate ListsRecipients(q: Request, x: Encrypted, m: Manifest) {
    var rs := Elements(m.recipients);
    && |rs| == |x.recipients|
    && (forall y :: y in x.recipients <==> exists k :: 0 <= k < |rs| && Envelope(rs[k].id, rs[k].wrappedKey) == y)
    && (forall k, j :: 0 <= k < |rs| && 0 <= j < |q.recipients| && q.recipients[j].id == rs[k].id ==>
          rs[k].certificateId == q.recipients[j].certificateId)
  }

  lemma {:induction false} CertificateFound(rs: seq<Recipient>, j: nat)
    requires DistinctRecipients(rs) && j < |rs|
    ensures CertificateOf(rs, rs[j].id) == rs[j].certificateId
  {
    var last := |rs| - 1;
    if j < last {
      CertificateFound(rs[..last], j);
    }
  }

  lemma RecipientsListed(q: Request, x: Encrypted, sorted: seq<ManifestRecipient>, m: Manifest)
    requires DistinctRecipients(q.recipients) && SortedRecipients(q.recipients, x.recipients, sorted) && m.recipients == Of(sorted)
    ensures ListsRecipients(q, x, m)
  {
    SortedSize(q.recipients, x.recipients, sorted);
    SameEnvelopesListed(q.recipients, x.recipients, sorted);
    forall y
      ensures y in x.recipients <==> exists k :: 0 <= k < |sorted| && Envelope(sorted[k].id, sorted[k].wrappedKey) == y
    {
      assert y in Envelopes(sorted) <==> y in x.recipients;
    }
    forall k, j | 0 <= k < |sorted| && 0 <= j < |q.recipients| && q.recipients[j].id == sorted[k].id
      ensures sorted[k].certificateId == q.recipients[j].certificateId
    {
      CertificateFound(q.recipients, j);
      assert sorted[k] in multiset(Addressed(q.recipients, x.recipients));
    }
  }

  /** What a recipient opens tells what the sender asked for. */
  lemma OpenedTellsRequest(
    w: World, q: Request, clock: int, recipients: seq<ManifestRecipient>, data: bytes,
    p: ImportPolicy, clock2: int, x: Encrypted, s: Signature, signer: SignerMetadata)
    requires WorldOk(w) && Sent(w, q, clock, recipients, data, x, s) && Receives(w, p, clock2, q, x, s, signer)
    requires OpenSpec(w, p, clock2, data).Ok?
    ensures var m := OpenSpec(w, p, clock2, data).value.manifest;
      TellsRequest(w, q, clock, x, m) && ListsRecipients(q, x, m)
  {
    OpensAsExported(w, q, clock, recipients, data, p, clock2, x, s, signer);
    var m := OpenSpec(w, p, clock2, data).value.manifest;
    assert ValidRequest(q);
    RecipientsListed(q, x, recipients, m);
  }
}
