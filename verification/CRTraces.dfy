/** What every single reconcile of a CertificateRequest does, whatever the server answers: all
    statements are over arbitrary reply sequences, so over arbitrary concurrent writers and failures. */
module CRTraces {
  import opened GoStrings
  import opened Certificates
  import opened Renewal
  import opened Kube
  import opened CRProtocol

  /** How far a reconcile has come. */
  function Rank(pc: Pc): nat {
    match pc
    case Getting => 0
    case AddingFinalizer(_) => 1
    case ListingDeployments(_) => 2
    case GettingOwner(_, _) => 3
    case PatchingOwner(_, _) => 4
    case CheckingRelocation(_, _) => 5
    case BuildingAcme(_, _) => 6
    case GettingSecret(_, _) => 7
    case CheckingReissue(_, _, _) => 8
    case RecheckingRelocation(_, _, _, _) => 9
    case Issuing(_, _) => 10
    case CreatingSecret(_, _) => 11
    case OverwritingSecret(_, _) => 12
    case UpdatingSecret(_, _, _) => 12
    case ReadingIssued(_) => 13
    case WritingStatus(_) => 14
    case MarkingRelocation(_) => 14
    case FinCheckingSecret(_) => 1
    case FinBuildingDns(_) => 2
    case FinBuildingAcme(_) => 3
    case FinReading(_) => 4
    case FinRevoking(_, _) => 5
    case FinCleaning(_, _) => 6
    case FinRemoving(_, _) => 7
    case Idle => 15
  }

  lemma AdvanceClimbs(k: Key, m: string, pc: Pc, r: Reply)
    requires pc != Idle
    ensures Rank(Advance(k, m, pc, r)) > Rank(pc)
  {
    hide CertificateOf, Reissue, ErrorStatus, StatusAgrees, RelocationOf;
  }

  lemma AfterStep(k: Key, m: string, replies: seq<Reply>, i: nat)
    requires i < |replies|
    ensures After(k, m, replies[..i + 1])
            == var before := After(k, m, replies[..i]);
               if before == Idle then Idle else Advance(k, m, before, replies[i])
  {
    assert replies[..i + 1][..i] == replies[..i];
  }

  lemma {:induction false} RankGrows(k: Key, m: string, replies: seq<Reply>, i: nat, j: nat)
    requires i < j <= |replies| && After(k, m, replies[..j]) != Idle
    ensures Rank(After(k, m, replies[..i])) < Rank(After(k, m, replies[..j]))
    decreases j - i
  {
    hide Rank, Advance;
    AfterStep(k, m, replies, j - 1);
    AdvanceClimbs(k, m, After(k, m, replies[..j - 1]), replies[j - 1]);
    if i < j - 1 {
      RankGrows(k, m, replies, i, j - 1);
    }
  }

  /** A reconcile creates at most one ACME order. */
  lemma AtMostOneOrder(k: Key, m: string, replies: seq<Reply>, i: nat, j: nat)
    requires i < j < |replies| && IssuesAt(k, m, replies, i)
    ensures !IssuesAt(k, m, replies, j)
  {
    if IssuesAt(k, m, replies, j) {
      IssuingThere(k, m, replies, i);
      IssuingThere(k, m, replies, j);
      RankGrows(k, m, replies, i, j);
    }
    hide After, Advance, Pending;
  }

  lemma IssuingThere(k: Key, m: string, replies: seq<Reply>, i: nat)
    requires i < |replies| && IssuesAt(k, m, replies, i)
    ensures After(k, m, replies[..i]).Issuing?
  {
    hide After, Without;
  }

  lemma {:induction false} RankBoundsLength(k: Key, m: string, replies: seq<Reply>, i: nat)
    requires i <= |replies| && After(k, m, replies[..i]) != Idle
    ensures i <= Rank(After(k, m, replies[..i]))
  {
    if i > 0 {
      AfterStep(k, m, replies, i - 1);
      RankBoundsLength(k, m, replies, i - 1);
      RankGrows(k, m, replies, i - 1, i);
    }
  }

  /** A reconcile is over after at most 15 calls. */
  lemma ReconcileEnds(k: Key, m: string, replies: seq<Reply>)
    requires |replies| >= 15
    ensures After(k, m, replies) == Idle
  {
    if After(k, m, replies) != Idle {
      assert replies[..|replies|] == replies;
      RankBoundsLength(k, m, replies, |replies|);
    }
  }

  // ----- why an order was created -----

  predicate Live(pc: Pc) {
    !(pc.Idle? || pc.Getting? || Finalizing(pc))
  }

  predicate ReadsSecret(k: Key, m: string, replies: seq<Reply>, i: nat, key: Key)
    requires i < |replies|
  {
    CallAt(k, m, replies, i) == Some(GetSecret(key))
  }

  /** Reply i says that a certificate is to be issued for this spec. */
  predicate Reason(k: Key, m: string, replies: seq<Reply>, i: nat, spec: CRSpec) {
    && i < |replies|
    && ReadsSecret(k, m, replies, i, SecretKey(k, spec))
    && (|| replies[i] == NotFound
        || (replies[i].GotSecret? && Reissue(replies[i].secret, spec.dnsNames, spec.reissueBeforeDays, replies[i].now) == Ok(true)))
  }

  ghost predicate History(k: Key, m: string, replies: seq<Reply>) {
    var pc := After(k, m, replies);
    && (Live(pc) ==> replies != [] && replies[0].GotCR? && !replies[0].cr.meta.terminating)
    && (Finalizing(pc) ==> replies != [] && replies[0].GotCR? && replies[0].cr == pc.cr && pc.cr.meta.terminating && HasFinalizer(pc.cr.meta))
    && (pc.RecheckingRelocation? && pc.reissue ==> exists i :: Reason(k, m, replies, i, pc.cr.spec))
    && (pc.Issuing? ==> exists i :: Reason(k, m, replies, i, pc.cr.spec))
  }

  lemma ReasonExtends(k: Key, m: string, replies: seq<Reply>, r: Reply, i: nat, spec: CRSpec)
    requires Reason(k, m, replies, i, spec)
    ensures Reason(k, m, replies + [r], i, spec)
  {
    hide Reissue, Advance, Pending;
    assert (replies + [r])[..i] == replies[..i];
  }

  lemma ReasonNow(k: Key, m: string, replies: seq<Reply>, r: Reply, spec: CRSpec)
    requires var pc := After(k, m, replies); pc != Idle && Pending(k, pc) == GetSecret(SecretKey(k, spec))
    requires r == NotFound || (r.GotSecret? && Reissue(r.secret, spec.dnsNames, spec.reissueBeforeDays, r.now) == Ok(true))
    ensures Reason(k, m, replies + [r], |replies|, spec)
  {
    hide Reissue, Advance;
    assert (replies + [r])[..|replies|] == replies;
  }

  /** Which steps lead into the live branch, into finalization, and to an order. */
  lemma AdvanceBranches(k: Key, m: string, pc: Pc, r: Reply)
    requires pc != Idle
    ensures var next := Advance(k, m, pc, r);
            && (Live(next) ==> Live(pc) || (pc.Getting? && r.GotCR? && !r.cr.meta.terminating))
            && (Finalizing(next) ==>
                  || (Finalizing(pc) && next.cr == pc.cr)
                  || (pc.Getting? && r.GotCR? && r.cr == next.cr && next.cr.meta.terminating && HasFinalizer(next.cr.meta)))
            && (next.RecheckingRelocation? && next.reissue ==>
                  && pc.CheckingReissue? && next.cr == pc.cr && r.GotSecret?
                  && Reissue(r.secret, pc.cr.spec.dnsNames, pc.cr.spec.reissueBeforeDays, r.now) == Ok(true))
            && (next.Issuing? ==> next.cr == pc.cr && ((pc.GettingSecret? && r == NotFound) || (pc.RecheckingRelocation? && pc.reissue)))
  {
    hide Reissue, CertificateOf, ErrorStatus, StatusAgrees, StatusFor, RelocationOf, Without, OwnerName;
  }

  lemma HistoryStep(k: Key, m: string, replies: seq<Reply>, r: Reply)
    requires History(k, m, replies) && After(k, m, replies) != Idle
    ensures History(k, m, replies + [r])
  {
    var pc, all := After(k, m, replies), replies + [r];
    assert all[..|replies|] == replies;
    assert replies != [] ==> all[0] == replies[0];
    var next := After(k, m, all);
    assert next == Advance(k, m, pc, r);
    AdvanceBranches(k, m, pc, r);
    assert pc.Getting? ==> replies == [] by {
      if pc.Getting? {
        assert replies[..|replies|] == replies;
        RankBoundsLength(k, m, replies, |replies|);
      }
    }
    hide Reissue, Reason, Advance, After, Live, Finalizing;
    if (next.RecheckingRelocation? && next.reissue) || (next.Issuing? && pc.GettingSecret?) {
      ReasonNow(k, m, replies, r, pc.cr.spec);
    } else if next.Issuing? {
      var i :| Reason(k, m, replies, i, pc.cr.spec);
      ReasonExtends(k, m, replies, r, i, pc.cr.spec);
    }
  }

  lemma {:induction false} HistoryHolds(k: Key, m: string, replies: seq<Reply>)
    ensures History(k, m, replies)
  {
    hide Advance, Reason;
    if replies != [] {
      var front, last := replies[..|replies| - 1], replies[|replies| - 1];
      HistoryHolds(k, m, front);
      assert replies == front + [last];
      if After(k, m, front) != Idle {
        HistoryStep(k, m, front, last);
      }
    }
  }

  /** An order is created only by a reconcile that read the object as not terminating and then read the
      named secret as absent or as due: without certificate data, with less than n+1 days left, or
      missing a name. */
  lemma OrderHasReason(k: Key, m: string, replies: seq<Reply>, i: nat) returns (j: nat)
    requires i < |replies| && IssuesAt(k, m, replies, i)
    ensures replies[0].GotCR? && !replies[0].cr.meta.terminating
    ensures j < i
    ensures var spec := CallAt(k, m, replies, i).value.spec;
            && ReadsSecret(k, m, replies, j, SecretKey(k, spec))
            && (|| replies[j] == NotFound
                || (replies[j].GotSecret? && Due(replies[j].secret, spec, replies[j].now)))
  {
    hide Reissue, Advance;
    var front := replies[..i];
    HistoryHolds(k, m, front);
    var pc := After(k, m, front);
    j :| Reason(k, m, front, j, pc.cr.spec);
    assert front[..j] == replies[..j];
    if replies[j].GotSecret? {
      DueIsReissue(replies[j].secret, pc.cr.spec, replies[j].now);
    }
  }

  /** The grounds for renewal in the terms of the certificate itself: no data, less than n+1 days left, where n
      is the configured days or 45, or a missing name; days are in nanoseconds, and no certificate lives longer
      than the 106751 days a time.Duration holds. */
  predicate Due(secret: Secret, spec: CRSpec, now: int) {
    || secret.tlsCert == None
    || (&& secret.tlsCert.value != [] && secret.tlsCert.value[0].CertBlock?
        && var c := secret.tlsCert.value[0].certificate;
           var n := if spec.reissueBeforeDays <= 0 then 45 else spec.reissueBeforeDays;
           || n >= 106_751
           || c.notAfter - now < (n + 1) * 86_400_000_000_000
           || exists d :: d in spec.dnsNames && d !in c.dnsNames)
  }

  lemma DueIsReissue(secret: Secret, spec: CRSpec, now: int)
    ensures Reissue(secret, spec.dnsNames, spec.reissueBeforeDays, now) == Ok(true) <==> Due(secret, spec, now)
  {
    if secret.tlsCert.Some? && secret.tlsCert.value != [] && secret.tlsCert.value[0].CertBlock? {
      ReissueExactly(secret, spec.dnsNames, spec.reissueBeforeDays, now);
    }
  }

  /** The secret holds a certificate that is not due. */
  predicate FreshFor(secret: Secret, spec: CRSpec, now: int) {
    CertificateOf(secret).Ok? && !Due(secret, spec, now)
  }

  lemma FreshIsKept(secret: Secret, spec: CRSpec, now: int)
    requires FreshFor(secret, spec, now)
    ensures Reissue(secret, spec.dnsNames, spec.reissueBeforeDays, now) == Ok(false)
  {
    DueIsReissue(secret, spec, now);
  }

  /** While every read of the secret shows a certificate that covers the names and is at least n+1
      days from its end, no reconcile orders again. */
  lemma FreshSecretIsQuiet(k: Key, m: string, replies: seq<Reply>, i: nat)
    requires i < |replies|
    requires forall j, key :: 0 <= j < i && ReadsSecret(k, m, replies, j, key) ==> replies[j] != NotFound
    requires forall j :: 0 <= j < i && replies[j].GotSecret? && IssuesAt(k, m, replies, i) ==>
               FreshFor(replies[j].secret, CallAt(k, m, replies, i).value.spec, replies[j].now)
    ensures !IssuesAt(k, m, replies, i)
  {
    if IssuesAt(k, m, replies, i) {
      var j := OrderHasReason(k, m, replies, i);
      assert false;
    }
  }

  // ----- relocation -----

  /** Every answered read of a ClusterDeployment shows a well-formed outgoing relocation. */
  ghost predicate AlwaysOutgoing(k: Key, m: string, replies: seq<Reply>) {
    forall i :: 0 <= i < |replies| && CallAt(k, m, replies, i).Some? && CallAt(k, m, replies, i).value.GetCD? ==>
      replies[i] == Failed || (replies[i].GotCD? && RelocationOf(replies[i].cd) == Outgoing)
  }

  /** The steps before the first relocation check, and the status mark after it. */
  predicate BeforeRelocation(pc: Pc) {
    Rank(pc) <= 5 || pc.MarkingRelocation? || pc.Idle?
  }

  lemma OutgoingStep(k: Key, m: string, pc: Pc, r: Reply)
    requires pc != Idle && (Finalizing(pc) || BeforeRelocation(pc))
    requires pc.CheckingRelocation? ==> r == Failed || (r.GotCD? && RelocationOf(r.cd) == Outgoing)
    ensures var next := Advance(k, m, pc, r); Finalizing(next) || BeforeRelocation(next)
  {
    hide Reissue, CertificateOf, ErrorStatus, StatusAgrees, StatusFor, RelocationOf, Without, OwnerName;
  }

  lemma {:induction false} OutgoingStops(k: Key, m: string, replies: seq<Reply>)
    requires AlwaysOutgoing(k, m, replies)
    ensures var pc := After(k, m, replies); Finalizing(pc) || BeforeRelocation(pc)
  {
    hide Advance, RelocationOf, CallAt;
    if replies != [] {
      var front, last := replies[..|replies| - 1], replies[|replies| - 1];
      assert replies == front + [last];
      CallsPersist(k, m, front, last);
      OutgoingStops(k, m, front);
      var pc := After(k, m, front);
      if pc != Idle {
        assert CallAt(k, m, replies, |front|) == Some(Pending(k, pc));
        OutgoingStep(k, m, pc, last);
      }
    }
  }

  predicate ActsOutside(c: Call) {
    c.IssueCertificate? || c.CreateSecret? || c.UpdateSecret? || c.CleanUpDns? || c.Revoke? || c.BuildDnsClient?
    || c.BuildAcmeClient? || c.UpdateCRStatus?
  }

  /** While its ClusterDeployment relocates, no reconcile of a CertificateRequest that is not
      terminating orders, writes a secret or touches DNS. */
  lemma RelocatingRequestRests(k: Key, m: string, replies: seq<Reply>, i: nat)
    requires i < |replies| && AlwaysOutgoing(k, m, replies[..i])
    requires replies[0].GotCR? && !replies[0].cr.meta.terminating
    ensures CallAt(k, m, replies, i).Some? ==> !ActsOutside(CallAt(k, m, replies, i).value)
  {
    HistoryHolds(k, m, replies[..i]);
    OutgoingStops(k, m, replies[..i]);
    var pc := After(k, m, replies[..i]);
    hide After;
    if i > 0 {
      assert replies[..i][0] == replies[0];
    }
    if pc != Idle && !Finalizing(pc) {
      CalmCalls(k, pc);
    }
  }

  lemma CalmCalls(k: Key, pc: Pc)
    requires pc != Idle && BeforeRelocation(pc) && !Finalizing(pc)
    ensures !ActsOutside(Pending(k, pc))
  {
    hide Without;
  }

  // ----- finalization -----

  ghost predicate ReleaseHistory(k: Key, m: string, replies: seq<Reply>) {
    var pc := After(k, m, replies);
    && ((pc.FinRevoking? || pc.FinCleaning?) ==>
          exists j :: ReadCertificate(k, m, replies, j, pc.cr, pc.certificate))
    && (pc.FinCleaning? ==> exists j :: WasRevoked(k, m, replies, j, pc.certificate))
    && (pc.FinRemoving? ==> Justified(k, m, replies, pc.cr, pc.evidence))
  }

  predicate ReadCertificate(k: Key, m: string, replies: seq<Reply>, j: nat, cr: CR, c: Certificate) {
    && j < |replies|
    && ReadsSecret(k, m, replies, j, SecretKey(k, cr.spec))
    && replies[j].GotSecret?
    && CertificateOf(replies[j].secret) == Ok(c)
    && IssuedByLetsEncrypt(c)
  }

  predicate WasRevoked(k: Key, m: string, replies: seq<Reply>, j: nat, c: Certificate) {
    && j < |replies|
    && CallAt(k, m, replies, j) == Some(Revoke(c))
    && (replies[j] == Done || replies[j] == AlreadyRevoked)
  }

  ghost predicate Justified(k: Key, m: string, replies: seq<Reply>, cr: CR, e: Evidence) {
    match e
    case SecretAbsent =>
      exists j :: 0 <= j < |replies| && ReadsSecret(k, m, replies, j, SecretKey(k, cr.spec)) && replies[j] == NotFound
    case CertificateRevoked(c) =>
      && (exists j :: ReadCertificate(k, m, replies, j, cr, c))
      && (exists j :: WasRevoked(k, m, replies, j, c))
  }

  lemma CallsPersist(k: Key, m: string, replies: seq<Reply>, r: Reply)
    ensures forall j :: 0 <= j < |replies| ==> CallAt(k, m, replies + [r], j) == CallAt(k, m, replies, j)
    ensures CallAt(k, m, replies + [r], |replies|) == var pc := After(k, m, replies); if pc == Idle then None else Some(Pending(k, pc))
  {
    hide Advance, Pending;
    forall j | 0 <= j < |replies|
      ensures CallAt(k, m, replies + [r], j) == CallAt(k, m, replies, j)
    {
      assert (replies + [r])[..j] == replies[..j];
    }
    assert (replies + [r])[..|replies|] == replies;
  }

  lemma ReleaseStep(k: Key, m: string, replies: seq<Reply>, r: Reply)
    requires ReleaseHistory(k, m, replies) && After(k, m, replies) != Idle
    ensures ReleaseHistory(k, m, replies + [r])
  {
    var pc, all, n := After(k, m, replies), replies + [r], |replies|;
    CallsPersist(k, m, replies, r);
    assert all[..n] == replies;
    var next := After(k, m, all);
    assert next == Advance(k, m, pc, r);
    hide Reissue, CertificateOf, ErrorStatus, StatusAgrees, StatusFor, RelocationOf, Without, OwnerName, After, CallAt, IssuedByLetsEncrypt;
    if next.FinRevoking? {
      assert pc.FinReading?;
      assert ReadCertificate(k, m, all, n, next.cr, next.certificate);
    } else if next.FinCleaning? {
      var j :| ReadCertificate(k, m, replies, j, pc.cr, pc.certificate);
      assert ReadCertificate(k, m, all, j, pc.cr, pc.certificate);
      assert WasRevoked(k, m, all, n, pc.certificate);
    } else if next.FinRemoving? && pc.FinCleaning? {
      var j :| ReadCertificate(k, m, replies, j, pc.cr, pc.certificate);
      var j' :| WasRevoked(k, m, replies, j', pc.certificate);
      assert ReadCertificate(k, m, all, j, pc.cr, pc.certificate) && WasRevoked(k, m, all, j', pc.certificate);
    } else if next.FinRemoving? {
      assert pc.FinCheckingSecret? && all[n] == NotFound;
    }
  }

  lemma {:induction false} ReleaseHistoryHolds(k: Key, m: string, replies: seq<Reply>)
    ensures ReleaseHistory(k, m, replies)
  {
    hide Advance, ReadCertificate, WasRevoked;
    if replies != [] {
      var front, last := replies[..|replies| - 1], replies[|replies| - 1];
      ReleaseHistoryHolds(k, m, front);
      assert replies == front + [last];
      if After(k, m, front) != Idle {
        ReleaseStep(k, m, front, last);
      }
    }
  }

  /** A reconcile asks for the certman finalizer to be taken away only after it has itself read the named
      secret as absent, or read a Let's Encrypt certificate from it and had that very certificate revoked. */
  lemma ReleaseIsJustified(k: Key, m: string, replies: seq<Reply>, i: nat)
    requires i < |replies|
    requires var c := CallAt(k, m, replies, i); c.Some? && c.value.PatchCRFinalizers? && FINALIZER !in c.value.finalizers
    ensures replies[0].GotCR? && replies[0].cr.meta.terminating
    ensures exists e :: Justified(k, m, replies[..i], replies[0].cr, e)
  {
    var front := replies[..i];
    HistoryHolds(k, m, front);
    ReleaseHistoryHolds(k, m, front);
    hide Justified, History, ReleaseHistory;
    var pc := After(k, m, front);
    hide After;
    assert pc.FinRemoving?;
    assert Finalizing(pc);
  }
}
