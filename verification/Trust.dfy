/** Certificate chains of signers: a walk from the signer to the root that stops at the first fault. */
module Trust {
  import opened Wrappers
  import opened Container

  /** Public metadata of a certificate; a time that is not set is none. */
  datatype Certificate = Certificate(
    id: string,
    organizationId: string,
    representativeId: string,
    publicKeyId: string,
    certificateId: string,
    issuerId: string,
    status: string,
    validFrom: Option<int>,
    validUntil: Option<int>,
    hasRevokedAt: bool,
    usages: seq<string>)

  datatype SignerMetadata = SignerMetadata(
    signerId: string, organizationId: string, representativeId: string, certificateId: string, publicKeyId: string)

  datatype SignaturePolicy = SignaturePolicy(
    now: Option<int>, requiredUsage: string, trustedRoots: map<string, bool>, revoked: map<string, bool>)

  predicate Flagged(m: map<string, bool>, id: string) {
    id in m && m[id]
  }

  function MetadataOf(c: Certificate): SignerMetadata {
    SignerMetadata(c.id, c.organizationId, c.representativeId, c.certificateId, c.publicKeyId)
  }

  predicate KnownUsage(u: string) {
    u == "encrypt" || u == "sign" || u == "verify"
  }

  /** ValidatePublicModel. */
  predicate PublicModelOk(c: Certificate) {
    && c.id != "" && c.organizationId != "" && c.certificateId != "" && c.publicKeyId != ""
    && c.validFrom.Some? && c.validUntil.Some? && c.validFrom.value <= c.validUntil.value
    && (c.status == "active" || c.status == "suspended" || c.status == "revoked" || c.status == "expired")
    && (c.status == "revoked" ==> c.hasRevokedAt)
    && c.usages != [] && forall i :: 0 <= i < |c.usages| ==> KnownUsage(c.usages[i])
  }

  function Now(p: SignaturePolicy, clock: int): int {
    if p.now.Some? then p.now.value else clock
  }

  function Required(p: SignaturePolicy): string {
    if p.requiredUsage == "" then "verify" else p.requiredUsage
  }

  /** The first fault of one certificate of the chain, in the order of the checks. */
  function Fault(p: SignaturePolicy, clock: int, chain: seq<Certificate>, i: nat): Option<Error>
    requires i < |chain|
  {
    var c := chain[i];
    if !PublicModelOk(c) then Some(CertificateInvalid)
    else if c.status == "revoked" || Flagged(p.revoked, c.id) then Some(CertificateRevoked)
    else if c.status != "active" then Some(CertificateInvalid)
    else if Now(p, clock) < c.validFrom.value || Now(p, clock) > c.validUntil.value then Some(CertificateExpired)
    else if i == 0 && Required(p) !in c.usages then Some(KeyUsageDenied)
    else if i + 1 < |chain| && c.issuerId != chain[i + 1].id then Some(UntrustedChain)
    else None
  }

  function FirstFault(p: SignaturePolicy, clock: int, chain: seq<Certificate>, i: nat): Option<Error>
    requires i <= |chain|
    decreases |chain| - i
  {
    if i == |chain| then None
    else if Fault(p, clock, chain, i).Some? then Fault(p, clock, chain, i)
    else FirstFault(p, clock, chain, i + 1)
  }

  function ChainSpec(p: SignaturePolicy, clock: int, chain: seq<Certificate>): Result<SignerMetadata, Error> {
    if chain == [] then Err(UntrustedChain)
    else match FirstFault(p, clock, chain, 0)
      case Some(x) => Err(x)
      case None =>
        if |p.trustedRoots| > 0 && !Flagged(p.trustedRoots, chain[|chain| - 1].id) then Err(UntrustedChain)
        else Ok(MetadataOf(chain[0]))
  }

  method ValidateCertificateChain(p: SignaturePolicy, clock: int, chain: seq<Certificate>)
    returns (r: Result<SignerMetadata, Error>)
    ensures r == ChainSpec(p, clock, chain)
  {
    if chain == [] {
      return Err(UntrustedChain);
    }
    var now := if p.now.Some? then p.now.value else clock;
    var required := if p.requiredUsage == "" then "verify" else p.requiredUsage;
    var index := 0;
    while index < |chain|
      invariant index <= |chain| && FirstFault(p, clock, chain, 0) == FirstFault(p, clock, chain, index)
    {
      var cert := chain[index];
      if !PublicModelOk(cert) {
        return Err(CertificateInvalid);
      }
      if cert.status == "revoked" || Flagged(p.revoked, cert.id) {
        return Err(CertificateRevoked);
      }
      if cert.status != "active" {
        return Err(CertificateInvalid);
      }
      if now < cert.validFrom.value || now > cert.validUntil.value {
        return Err(CertificateExpired);
      }
      if index == 0 && required !in cert.usages {
        return Err(KeyUsageDenied);
      }
      if index + 1 < |chain| && cert.issuerId != chain[index + 1].id {
        return Err(UntrustedChain);
      }
      index := index + 1;
    }
    var root := chain[|chain| - 1];
    if |p.trustedRoots| > 0 && !Flagged(p.trustedRoots, root.id) {
      return Err(UntrustedChain);
    }
    r := Ok(MetadataOf(chain[0]));
  }

  // ----- what an accepted chain is -----

  /** Active at this moment, well formed and not revoked. */
  predicate InForce(p: SignaturePolicy, clock: int, c: Certificate) {
    && PublicModelOk(c) && c.status == "active" && !Flagged(p.revoked, c.id)
    && c.validFrom.value <= Now(p, clock) <= c.validUntil.value
  }

  lemma {:induction false} FirstFaultExact(p: SignaturePolicy, clock: int, chain: seq<Certificate>, i: nat)
    requires i <= |chain|
    ensures FirstFault(p, clock, chain, i) == None <==> forall j :: i <= j < |chain| ==> Fault(p, clock, chain, j) == None
    decreases |chain| - i
  {
    if i < |chain| {
      FirstFaultExact(p, clock, chain, i + 1);
    }
  }

  /** The certificate is issued by the next one of the chain, and the signer's may be used as required. */
  predicate InPlace(p: SignaturePolicy, chain: seq<Certificate>, i: nat)
    requires i < |chain|
  {
    (i == 0 ==> Required(p) in chain[i].usages) && (i + 1 < |chain| ==> chain[i].issuerId == chain[i + 1].id)
  }

  lemma FaultExact(p: SignaturePolicy, clock: int, chain: seq<Certificate>, i: nat)
    requires i < |chain|
    ensures Fault(p, clock, chain, i) == None <==> InForce(p, clock, chain[i]) && InPlace(p, chain, i)
  {
  }

  /**
   A chain is accepted exactly when it is not empty, every certificate is in force, each is issued by
   the next, the signer's may be used as required and the root is trusted; then it is the signer's that counts.
   */
  lemma ChainExact(p: SignaturePolicy, clock: int, chain: seq<Certificate>, m: SignerMetadata)
    ensures ChainSpec(p, clock, chain) == Ok(m) <==>
      && chain != [] && m == MetadataOf(chain[0])
      && (forall i :: 0 <= i < |chain| ==> InForce(p, clock, chain[i]) && InPlace(p, chain, i))
      && (|p.trustedRoots| > 0 ==> Flagged(p.trustedRoots, chain[|chain| - 1].id))
  {
    FirstFaultExact(p, clock, chain, 0);
    forall i | 0 <= i < |chain|
      ensures Fault(p, clock, chain, i) == None <==> InForce(p, clock, chain[i]) && InPlace(p, chain, i)
    {
      FaultExact(p, clock, chain, i);
    }
  }

  /** A certificate that may be used at a time: complete, dated, active, with known usages, and not revoked. */
  ghost predicate Usable(c: Certificate, now: int, revoked: map<string, bool>) {
    && c.id != "" && c.organizationId != "" && c.certificateId != "" && c.publicKeyId != ""
    && c.status == "active" && !(c.id in revoked && revoked[c.id])
    && c.validFrom.Some? && c.validUntil.Some? && c.validFrom.value <= now <= c.validUntil.value
    && c.usages != [] && forall i :: 0 <= i < |c.usages| ==> c.usages[i] in ["encrypt", "sign", "verify"]
  }

  /** Whom a chain speaks for: every certificate usable and issued by the next, the first for the usage asked, the last trusted. */
  ghost predicate SpeaksFor(p: SignaturePolicy, clock: int, chain: seq<Certificate>, m: SignerMetadata) {
    && chain != []
    && (forall i :: 0 <= i < |chain| ==> Usable(chain[i], if p.now.Some? then p.now.value else clock, p.revoked))
    && (forall i :: 0 <= i < |chain| - 1 ==> chain[i].issuerId == chain[i + 1].id)
    && (if p.requiredUsage == "" then "verify" in chain[0].usages else p.requiredUsage in chain[0].usages)
    && (|p.trustedRoots| > 0 ==>
          var root := chain[|chain| - 1].id;
          root in p.trustedRoots && p.trustedRoots[root])
    && m.signerId == chain[0].id && m.organizationId == chain[0].organizationId
    && m.representativeId == chain[0].representativeId && m.certificateId == chain[0].certificateId
    && m.publicKeyId == chain[0].publicKeyId
  }

  lemma UsableExact(p: SignaturePolicy, clock: int, c: Certificate)
    ensures InForce(p, clock, c) <==> Usable(c, if p.now.Some? then p.now.value else clock, p.revoked)
  {
    assert forall u :: KnownUsage(u) <==> u in ["encrypt", "sign", "verify"];
  }

  /** A chain is accepted for a signer if and only if it speaks for that signer. */
  lemma AcceptedSpeaks(p: SignaturePolicy, clock: int, chain: seq<Certificate>, m: SignerMetadata)
    ensures ChainSpec(p, clock, chain) == Ok(m) <==> SpeaksFor(p, clock, chain, m)
  {
    ChainExact(p, clock, chain, m);
    forall c
      ensures InForce(p, clock, c) <==> Usable(c, if p.now.Some? then p.now.value else clock, p.revoked)
    {
      UsableExact(p, clock, c);
    }
  }
}
