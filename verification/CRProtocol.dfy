/** The CertificateRequest controller as a thread: where a reconcile stands between two calls, which
    call it makes next, and where the reply takes it. A Go panic ends the reconcile like an error. */
module CRProtocol {
  import opened GoStrings
  import opened Certificates
  import opened Renewal
  import opened Kube

  /** What a finalizing reconcile has established before it releases the object. */
  datatype Evidence = SecretAbsent | CertificateRevoked(certificate: Certificate)

  datatype Pc =
    | Idle
    | Getting
    | AddingFinalizer(cr: CR)
    | ListingDeployments(cr: CR)
    | GettingOwner(cr: CR, cdName: string)
    | PatchingOwner(cr: CR, cdName: string)
    | CheckingRelocation(cr: CR, cdName: string)
    | MarkingRelocation(cr: CR)
    | BuildingAcme(cr: CR, cdName: string)
    | GettingSecret(cr: CR, cdName: string)
    | CheckingReissue(cr: CR, cdName: string, found: Secret)
    | RecheckingRelocation(cr: CR, cdName: string, found: Secret, reissue: bool)
    | Issuing(cr: CR, existing: Option<Secret>)
    | CreatingSecret(cr: CR, secret: Secret)
    | OverwritingSecret(cr: CR, secret: Secret)
    | UpdatingSecret(cr: CR, secret: Secret, readAt: nat)
    | ReadingIssued(cr: CR)
    | WritingStatus(cr: CR)
    | FinCheckingSecret(cr: CR)
    | FinBuildingDns(cr: CR)
    | FinBuildingAcme(cr: CR)
    | FinReading(cr: CR)
    | FinRevoking(cr: CR, certificate: Certificate)
    | FinCleaning(cr: CR, certificate: Certificate)
    | FinRemoving(cr: CR, evidence: Evidence)

  /** The reconcile read its object as terminating and works toward releasing it. */
  predicate Finalizing(pc: Pc) {
    pc.FinCheckingSecret? || pc.FinBuildingDns? || pc.FinBuildingAcme? || pc.FinReading?
    || pc.FinRevoking? || pc.FinCleaning? || pc.FinRemoving?
  }

  function OwnerRefs(cdName: string): seq<OwnerRef> {
    [OwnerRef(CLUSTER_DEPLOYMENT, cdName)]
  }

  function Pending(k: Key, pc: Pc): Call
    requires pc != Idle
  {
    match pc
    case Getting => GetCR(k)
    case AddingFinalizer(cr) => PatchCRFinalizers(k, cr.meta.finalizers + [FINALIZER])
    case ListingDeployments(_) => ListCDs
    case GettingOwner(_, n) => GetCD(Key(k.ns, n))
    case PatchingOwner(_, n) => PatchCROwners(k, OwnerRefs(n))
    case CheckingRelocation(_, n) => GetCD(Key(k.ns, n))
    case MarkingRelocation(cr) => UpdateCR(k, cr)
    case BuildingAcme(_, _) => BuildAcmeClient
    case GettingSecret(cr, _) => GetSecret(SecretKey(k, cr.spec))
    case CheckingReissue(cr, _, _) => GetSecret(SecretKey(k, cr.spec))
    case RecheckingRelocation(_, n, _, _) => GetCD(Key(k.ns, n))
    case Issuing(cr, _) => IssueCertificate(cr.spec)
    case CreatingSecret(cr, secret) => CreateSecret(SecretKey(k, cr.spec), secret)
    case OverwritingSecret(cr, secret) => UpdateSecret(SecretKey(k, cr.spec), secret, None)
    case UpdatingSecret(cr, secret, rv) => UpdateSecret(SecretKey(k, cr.spec), secret, Some(rv))
    case ReadingIssued(cr) => GetSecret(SecretKey(k, cr.spec))
    case WritingStatus(cr) => UpdateCRStatus(k, cr)
    case FinCheckingSecret(cr) => GetSecret(SecretKey(k, cr.spec))
    case FinBuildingDns(_) => BuildDnsClient
    case FinBuildingAcme(_) => BuildAcmeClient
    case FinReading(cr) => GetSecret(SecretKey(k, cr.spec))
    case FinRevoking(_, c) => Revoke(c)
    case FinCleaning(_, _) => CleanUpDns
    case FinRemoving(cr, _) => PatchCRFinalizers(k, Without(cr.meta.finalizers, FINALIZER))
  }

  /** The name of the last owner reference of kind ClusterDeployment, "" without one. */
  function OwnerName(owners: seq<OwnerRef>): string {
    if owners == [] then ""
    else if owners[|owners| - 1].kind == CLUSTER_DEPLOYMENT then owners[|owners| - 1].name
    else OwnerName(owners[..|owners| - 1])
  }

  /** By index: the last reference of that kind names the owner; without one, or with an empty name, nothing does. */
  lemma {:induction false} OwnerNameExactly(owners: seq<OwnerRef>)
    ensures (forall i :: 0 <= i < |owners| ==> owners[i].kind != "ClusterDeployment") ==> OwnerName(owners) == ""
    ensures forall i :: 0 <= i < |owners| && owners[i].kind == "ClusterDeployment"
                        && (forall j :: i < j < |owners| ==> owners[j].kind != "ClusterDeployment") ==>
              OwnerName(owners) == owners[i].name
  {
    if owners != [] && owners[|owners| - 1].kind != CLUSTER_DEPLOYMENT {
      var front := owners[..|owners| - 1];
      OwnerNameExactly(front);
      assert forall i :: 0 <= i < |front| ==> front[i] == owners[i];
    }
  }

  function AfterGet(cr: CR): Pc {
    if cr.meta.terminating then
      if HasFinalizer(cr.meta) then FinCheckingSecret(cr) else Idle
    else if !HasFinalizer(cr.meta) then AddingFinalizer(cr)
    else FindOwner(cr)
  }

  function FindOwner(cr: CR): Pc {
    if OwnerName(cr.owners) == "" then ListingDeployments(cr) else GettingOwner(cr, OwnerName(cr.owners))
  }

  const RELOCATING := "Not reconciling: ClusterDeployment is relocating"

  function Marked(cr: CR): CR {
    cr.(status := cr.status.(status := RELOCATING))
  }

  // ----- status -----

  predicate StatusAgrees(st: CRStatus, c: Certificate) {
    && st.issued
    && st.issuerName == c.issuerCommonName
    && st.notBefore == Some(c.notBefore)
    && st.notAfter == Some(c.notAfter)
    && st.serialNumber == Some(c.serialNumber)
  }

  function StatusFor(st: CRStatus, c: Certificate): CRStatus {
    st.(issued := true, issuerName := c.issuerCommonName, notBefore := Some(c.notBefore),
        notAfter := Some(c.notAfter), serialNumber := Some(c.serialNumber), status := "Success")
  }

  /** updateStatus once it has read the secret. */
  function AfterIssuedRead(cr: CR, r: Reply): Pc {
    if !r.GotSecret? then Idle
    else
      match CertificateOf(r.secret)
      case Ok(c) => if StatusAgrees(cr.status, c) then Idle else WritingStatus(cr.(status := StatusFor(cr.status, c)))
      case _ => Idle
  }

  const ACME_ERROR := "acme error"

  predicate HasAcmeError(st: CRStatus) {
    exists i :: 0 <= i < |st.conditions| && st.conditions[i].ctype == ACME_ERROR
  }

  /** updateStatusError: an "acme" error is recorded as a condition, once. */
  function ErrorStatus(st: CRStatus, message: string): CRStatus {
    st.(issued := false, status := "Error",
        conditions := if Contains(message, "acme") && !HasAcmeError(st)
                      then st.conditions + [Condition(ACME_ERROR, "Error", message)] else st.conditions)
  }

  function Advance(k: Key, message: string, pc: Pc, r: Reply): Pc
    requires pc != Idle
  {
    match pc
    case Getting => if r.GotCR? then AfterGet(r.cr) else Idle
    case AddingFinalizer(_) => if r.GotCR? then FindOwner(r.cr) else Idle
    case ListingDeployments(cr) => if r.Keys? && r.keys != [] then GettingOwner(cr, r.keys[0].name) else Idle
    case GettingOwner(cr, n) =>
      if !r.GotCD? then Idle
      else if cr.owners == [] then PatchingOwner(cr, n)
      else CheckingRelocation(cr, n)
    case PatchingOwner(_, n) => if r.GotCR? then CheckingRelocation(r.cr, n) else Idle
    case CheckingRelocation(cr, n) =>
      if r == NotFound then BuildingAcme(cr, n)
      else if !r.GotCD? then Idle
      else
        (match RelocationOf(r.cd)
         case Malformed => Idle
         case Outgoing => MarkingRelocation(Marked(cr))
         case Staying => BuildingAcme(cr, n))
    case MarkingRelocation(_) => Idle
    case BuildingAcme(cr, n) => if r == Done then GettingSecret(cr, n) else Idle
    case GettingSecret(cr, n) =>
      if r == NotFound then Issuing(cr, None)
      else if r.GotSecret? then CheckingReissue(cr, n, r.secret)
      else Idle
    case CheckingReissue(cr, n, found) =>
      if !r.GotSecret? then Idle
      else
        (match Reissue(r.secret, cr.spec.dnsNames, cr.spec.reissueBeforeDays, r.now)
         case Ok(yes) => RecheckingRelocation(cr, n, found, yes)
         case _ => Idle)
    case RecheckingRelocation(cr, n, found, reissue) =>
      if !r.GotCD? then Idle
      else
        (match RelocationOf(r.cd)
         case Malformed => Idle
         case Outgoing => MarkingRelocation(Marked(cr))
         case Staying => if reissue then Issuing(cr, Some(found)) else ReadingIssued(cr))
    case Issuing(cr, found) =>
      if r.Issued? then
        (if found.Some? then UpdatingSecret(cr, r.secret, found.value.rv) else CreatingSecret(cr, r.secret))
      else if found.None? && r == Refused then WritingStatus(cr.(status := ErrorStatus(cr.status, message)))
      else Idle
    case CreatingSecret(cr, secret) =>
      if r == Done then ReadingIssued(cr)
      else if r == AlreadyExists then OverwritingSecret(cr, secret)
      else Idle
    case OverwritingSecret(cr, _) => if r == Done then ReadingIssued(cr) else Idle
    case UpdatingSecret(cr, _, _) => if r == Done then ReadingIssued(cr) else Idle
    case ReadingIssued(cr) => AfterIssuedRead(cr, r)
    case WritingStatus(_) => Idle
    case FinCheckingSecret(cr) =>
      if r == NotFound then FinRemoving(cr, SecretAbsent)
      else if r.GotSecret? then FinBuildingDns(cr)
      else Idle
    case FinBuildingDns(cr) => if r == Done then FinBuildingAcme(cr) else Idle
    case FinBuildingAcme(cr) => if r == Done then FinReading(cr) else Idle
    case FinReading(cr) =>
      if !r.GotSecret? then Idle
      else
        (match CertificateOf(r.secret)
         case Ok(c) => if IssuedByLetsEncrypt(c) then FinRevoking(cr, c) else Idle
         case _ => Idle)
    case FinRevoking(cr, c) => if r == Done || r == AlreadyRevoked then FinCleaning(cr, c) else Idle
    case FinCleaning(cr, c) => FinRemoving(cr, CertificateRevoked(c))
    case FinRemoving(_, _) => Idle
  }

  // ----- one reconcile as a sequence of replies -----

  /** The reply sequences of one reconcile of a fixed key and where they leave it. */
  function RunOn(k: Key, message: string, pc: Pc, replies: seq<Reply>): Pc
    decreases |replies|
  {
    if replies == [] then pc
    else
      var before := RunOn(k, message, pc, replies[..|replies| - 1]);
      if before == Idle then Idle else Advance(k, message, before, replies[|replies| - 1])
  }

  function After(k: Key, message: string, replies: seq<Reply>): Pc {
    RunOn(k, message, Getting, replies)
  }

  /** The call answered by reply i of a reconcile. */
  function CallAt(k: Key, message: string, replies: seq<Reply>, i: nat): Option<Call>
    requires i < |replies|
  {
    var pc := After(k, message, replies[..i]);
    if pc == Idle then None else Some(Pending(k, pc))
  }

  predicate IssuesAt(k: Key, message: string, replies: seq<Reply>, i: nat)
    requires i < |replies|
  {
    var c := CallAt(k, message, replies, i);
    c.Some? && c.value.IssueCertificate?
  }
}
