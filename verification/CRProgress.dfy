/** What a reconcile of a CertificateRequest goes on to do: the calls that follow from the replies, whatever
    the server answers. CRTraces says why a call was made, this module that it is made. */
module CRProgress {
  import opened GoStrings
  import opened Certificates
  import opened Kube
  import opened CRProtocol
  import opened CRTraces

  /** The object as the server last sent it. */
  function Object(replies: seq<Reply>): Option<CR> {
    if replies == [] then None
    else if replies[|replies| - 1].GotCR? then Some(replies[|replies| - 1].cr)
    else Object(replies[..|replies| - 1])
  }

  /** The copy a thread holds, until it releases the object, comes from a reply with the object, except for a
      status it is about to write. */
  lemma AdvanceObject(k: Key, m: string, pc: Pc, r: Reply)
    requires pc != Idle
    ensures var next := Advance(k, m, pc, r);
            next != Idle && !next.FinRemoving? ==>
              && next != Getting && !pc.FinRemoving? && (pc == Getting ==> r.GotCR?)
              && var cr := if r.GotCR? then r.cr else pc.cr;
                 next.cr.meta == cr.meta && next.cr.owners == cr.owners && next.cr.spec == cr.spec
  {
    hide CertificateOf, Renewal.Reissue, ErrorStatus, StatusAgrees, StatusFor, RelocationOf, OwnerName, HasFinalizer,
         IssuedByLetsEncrypt;
  }

  lemma {:induction false} HoldsObject(k: Key, m: string, replies: seq<Reply>)
    ensures var pc := After(k, m, replies);
            pc != Idle && pc != Getting && !pc.FinRemoving? ==>
              && Object(replies).Some?
              && pc.cr.spec == Object(replies).value.spec && pc.cr.meta == Object(replies).value.meta && pc.cr.owners == Object(replies).value.owners
  {
    hide Advance;
    if replies != [] {
      var front, last := replies[..|replies| - 1], replies[|replies| - 1];
      HoldsObject(k, m, front);
      if After(k, m, front) != Idle {
        AdvanceObject(k, m, After(k, m, front), last);
      }
    }
  }

  /** The thread at call i, in terms of the calls. */
  lemma At(k: Key, m: string, replies: seq<Reply>, i: nat)
    requires i + 1 < |replies| && CallAt(k, m, replies, i).Some?
    ensures var pc := After(k, m, replies[..i]);
            && pc != Idle && CallAt(k, m, replies, i) == Some(Pending(k, pc))
            && After(k, m, replies[..i + 1]) == Advance(k, m, pc, replies[i])
            && CallAt(k, m, replies, i + 1)
               == (var next := Advance(k, m, pc, replies[i]); if next == Idle then None else Some(Pending(k, next)))
  {
    hide Advance, Pending;
    AfterStep(k, m, replies, i);
  }

  /** Only the decision to renew reads the secret twice in a row. */
  lemma TwoReads(k: Key, m: string, pc: Pc, r: Reply)
    requires pc != Idle && Pending(k, pc).GetSecret?
    requires var next := Advance(k, m, pc, r); next != Idle && Pending(k, next).GetSecret?
    ensures pc.GettingSecret? && r.GotSecret? && Advance(k, m, pc, r) == CheckingReissue(pc.cr, pc.cdName, r.secret)
  {
    hide CertificateOf, Renewal.Reissue, StatusAgrees, StatusFor, IssuedByLetsEncrypt, Without;
  }

  // ----- ordering -----

  /** A due certificate is renewed: if the named secret is read twice in a row, the second time as due for the
      object as the server last sent it, and the deployment is then read as staying, the next call orders. */
  lemma DueIsOrdered(k: Key, m: string, replies: seq<Reply>, i: nat, key: Key)
    requires i + 3 < |replies|
    requires ReadsSecret(k, m, replies, i, key) && ReadsSecret(k, m, replies, i + 1, key)
    requires Object(replies[..i]).Some? && replies[i + 1].GotSecret?
    requires Due(replies[i + 1].secret, Object(replies[..i]).value.spec, replies[i + 1].now)
    requires replies[i + 2].GotCD? && RelocationOf(replies[i + 2].cd) == Staying
    ensures CallAt(k, m, replies, i + 3) == Some(IssueCertificate(Object(replies[..i]).value.spec))
  {
    hide After, CallAt, Without, CertificateOf, Renewal.Reissue, ErrorStatus, StatusAgrees, StatusFor, RelocationOf,
         OwnerName, HasFinalizer, IssuedByLetsEncrypt, Object, Due, FreshFor, Reason, Contains;
    var pc := After(k, m, replies[..i]);
    At(k, m, replies, i);
    HoldsObject(k, m, replies[..i]);
    TwoReads(k, m, pc, replies[i]);
    DueIsReissue(replies[i + 1].secret, pc.cr.spec, replies[i + 1].now);
    At(k, m, replies, i + 1);
    At(k, m, replies, i + 2);
  }

  /** One that is not due is kept: no order follows, but the status update. */
  lemma NotDueIsKept(k: Key, m: string, replies: seq<Reply>, i: nat, key: Key)
    requires i + 3 < |replies|
    requires ReadsSecret(k, m, replies, i, key) && ReadsSecret(k, m, replies, i + 1, key)
    requires Object(replies[..i]).Some? && replies[i + 1].GotSecret?
    requires FreshFor(replies[i + 1].secret, Object(replies[..i]).value.spec, replies[i + 1].now)
    requires replies[i + 2].GotCD? && RelocationOf(replies[i + 2].cd) == Staying
    ensures CallAt(k, m, replies, i + 3) == Some(GetSecret(key))
  {
    hide After, CallAt, Without, CertificateOf, Renewal.Reissue, ErrorStatus, StatusAgrees, StatusFor, RelocationOf,
         OwnerName, HasFinalizer, IssuedByLetsEncrypt, Object, Due, FreshFor, Reason, Contains;
    var pc := After(k, m, replies[..i]);
    At(k, m, replies, i);
    HoldsObject(k, m, replies[..i]);
    TwoReads(k, m, pc, replies[i]);
    FreshIsKept(replies[i + 1].secret, pc.cr.spec, replies[i + 1].now);
    At(k, m, replies, i + 1);
    At(k, m, replies, i + 2);
  }

  /** A missing secret is issued: after the ACME client is built, a live reconcile reads the named secret, and
      if there is none it orders. */
  lemma AbsentIsOrdered(k: Key, m: string, replies: seq<Reply>, i: nat)
    requires i + 2 < |replies| && replies[0].GotCR? && !replies[0].cr.meta.terminating
    requires CallAt(k, m, replies, i) == Some(BuildAcmeClient) && replies[i] == Done && Object(replies[..i]).Some?
    ensures var spec := Object(replies[..i]).value.spec;
            && CallAt(k, m, replies, i + 1) == Some(GetSecret(SecretKey(k, spec)))
            && (replies[i + 1] == NotFound ==> CallAt(k, m, replies, i + 2) == Some(IssueCertificate(spec)))
  {
    hide After, CallAt, Without, CertificateOf, Renewal.Reissue, ErrorStatus, StatusAgrees, StatusFor, RelocationOf,
         OwnerName, HasFinalizer, IssuedByLetsEncrypt, Object, Due, FreshFor, Reason, Contains;
    HistoryHolds(k, m, replies[..i]);
    HoldsObject(k, m, replies[..i]);
    At(k, m, replies, i);
    var pc := After(k, m, replies[..i]);
    assert i > 0 ==> replies[..i][0] == replies[0];
    assert pc.BuildingAcme?;
    At(k, m, replies, i + 1);
  }

  /** What was issued is stored: in a new secret if none was found, else in the one that was found, at the
      version it was found at. */
  lemma IssuedIsStored(k: Key, m: string, replies: seq<Reply>, i: nat)
    requires 0 < i && i + 1 < |replies| && IssuesAt(k, m, replies, i) && replies[i].Issued?
    ensures var key := SecretKey(k, CallAt(k, m, replies, i).value.spec);
            if replies[i - 1] == NotFound then CallAt(k, m, replies, i + 1) == Some(CreateSecret(key, replies[i].secret))
            else i >= 3 && replies[i - 3].GotSecret?
                 && CallAt(k, m, replies, i + 1) == Some(UpdateSecret(key, replies[i].secret, Some(replies[i - 3].secret.rv)))
  {
    hide After, CallAt, Without, CertificateOf, Renewal.Reissue, ErrorStatus, StatusAgrees, StatusFor, RelocationOf,
         OwnerName, HasFinalizer, IssuedByLetsEncrypt, Object, Due, FreshFor, Reason, Contains;
    At(k, m, replies, i);
    IssuingThere(k, m, replies, i);
    var pc := After(k, m, replies[..i]);
    AfterStep(k, m, replies, i - 1);
    assert replies[..0] == [];
    var p1 := After(k, m, replies[..i - 1]);
    ComesFrom(k, m, p1, replies[i - 1]);
    if pc.existing.Some? {
      StepBefore(k, m, replies, i - 1);
      ComesFrom(k, m, After(k, m, replies[..i - 2]), replies[i - 2]);
      StepBefore(k, m, replies, i - 2);
      ComesFrom(k, m, After(k, m, replies[..i - 3]), replies[i - 3]);
    }
  }

  lemma AtStart(k: Key, m: string, replies: seq<Reply>)
    requires replies != []
    ensures After(k, m, replies[..0]) == Getting && CallAt(k, m, replies, 0) == Some(GetCR(k))
  {
    assert replies[..0] == [];
  }

  /** A thread that has come past its first call came there by its last reply. */
  lemma StepBefore(k: Key, m: string, replies: seq<Reply>, i: nat)
    requires i <= |replies| && After(k, m, replies[..i]) != Idle && After(k, m, replies[..i]) != Getting
    ensures i > 0 && After(k, m, replies[..i - 1]) != Idle
    ensures After(k, m, replies[..i]) == Advance(k, m, After(k, m, replies[..i - 1]), replies[i - 1])
    ensures CallAt(k, m, replies, i - 1) == Some(Pending(k, After(k, m, replies[..i - 1])))
  {
    hide Advance;
    assert replies[..0] == [];
    if i > 0 {
      AfterStep(k, m, replies, i - 1);
    }
  }

  /** Where the threads on the way to an order come from. */
  lemma ComesFrom(k: Key, m: string, pc: Pc, r: Reply)
    requires pc != Idle
    ensures var next := Advance(k, m, pc, r);
            && (next.Issuing? ==> if next.existing.None? then pc.GettingSecret? && r == NotFound
                                  else pc.RecheckingRelocation? && r.GotCD? && pc.found == next.existing.value)
            && (next.RecheckingRelocation? ==> pc.CheckingReissue? && pc.found == next.found)
            && (next.CheckingReissue? ==> pc.GettingSecret? && r.GotSecret? && r.secret == next.found)
  {
    hide CertificateOf, Renewal.Reissue, ErrorStatus, StatusAgrees, StatusFor, RelocationOf, OwnerName, HasFinalizer,
         IssuedByLetsEncrypt;
  }

  /** A secret that has appeared meanwhile is overwritten, and what is stored is read back for the status. */
  lemma StoredIsReadBack(k: Key, m: string, replies: seq<Reply>, i: nat)
    requires i + 1 < |replies| && CallAt(k, m, replies, i).Some?
    ensures var c := CallAt(k, m, replies, i).value;
            && (c.CreateSecret? && replies[i] == AlreadyExists ==> CallAt(k, m, replies, i + 1) == Some(UpdateSecret(c.key, c.secret, None)))
            && ((c.CreateSecret? || c.UpdateSecret?) && replies[i] == Done ==> CallAt(k, m, replies, i + 1) == Some(GetSecret(c.key)))
  {
    hide After, CallAt, Without, CertificateOf, Renewal.Reissue, ErrorStatus, StatusAgrees, StatusFor, RelocationOf,
         OwnerName, HasFinalizer, IssuedByLetsEncrypt, Object, Due, FreshFor, Reason, Contains;
    At(k, m, replies, i);
  }

  /** A failed first issuance is recorded as an error in the status, a failed renewal ends the reconcile. */
  lemma RefusalIsRecorded(k: Key, m: string, replies: seq<Reply>, i: nat)
    requires 0 < i && i + 1 < |replies| && IssuesAt(k, m, replies, i) && replies[i] == Refused
    ensures var c := CallAt(k, m, replies, i + 1);
            if replies[i - 1] == NotFound
            then c.Some? && c.value.UpdateCRStatus? && c.value.key == k && !c.value.copy.status.issued && c.value.copy.status.status == "Error"
            else c == None
  {
    hide After, CallAt, Without, CertificateOf, Renewal.Reissue, StatusAgrees, StatusFor, RelocationOf, OwnerName,
         HasFinalizer, IssuedByLetsEncrypt, Object, Due, FreshFor, Reason, Contains;
    At(k, m, replies, i);
    IssuingThere(k, m, replies, i);
    AfterStep(k, m, replies, i - 1);
    ComesFrom(k, m, After(k, m, replies[..i - 1]), replies[i - 1]);
  }

  // ----- finalizers, owner, relocation -----

  /** A live object without the finalizer gets it before anything else; with it, nothing comes before the owner. */
  lemma FinalizerComesFirst(k: Key, m: string, replies: seq<Reply>)
    requires |replies| >= 2 && replies[0].GotCR? && !replies[0].cr.meta.terminating
    ensures CallAt(k, m, replies, 0) == Some(GetCR(k))
    ensures FINALIZER !in replies[0].cr.meta.finalizers ==>
              CallAt(k, m, replies, 1)
              == Some(PatchCRFinalizers(k, replies[0].cr.meta.finalizers + ["certificaterequests.certman.managed.openshift.io"]))
    ensures FINALIZER in replies[0].cr.meta.finalizers ==>
              var c := CallAt(k, m, replies, 1); c == Some(ListCDs) || (c.Some? && c.value.GetCD? && c.value.key.ns == k.ns)
  {
    hide After, CallAt, Without, CertificateOf, Renewal.Reissue, ErrorStatus, StatusAgrees, StatusFor, RelocationOf,
         OwnerName, IssuedByLetsEncrypt, Object, Due, FreshFor, Reason, Contains;
    AtStart(k, m, replies);
    At(k, m, replies, 0);
  }

  /** The owner is looked up by its reference, or by the first ClusterDeployment listed, in the object's own
      namespace; without it the reconcile stops. */
  lemma OwnerIsLookedUp(k: Key, m: string, replies: seq<Reply>, i: nat)
    requires i + 1 < |replies| && CallAt(k, m, replies, i) == Some(ListCDs)
    ensures CallAt(k, m, replies, i + 1)
            == if replies[i].Keys? && replies[i].keys != [] then Some(GetCD(Key(k.ns, replies[i].keys[0].name))) else None
  {
    hide After, CallAt, Without, CertificateOf, Renewal.Reissue, ErrorStatus, StatusAgrees, StatusFor, RelocationOf,
         OwnerName, HasFinalizer, IssuedByLetsEncrypt;
    At(k, m, replies, i);
  }

  lemma OwnerByReference(k: Key, m: string, replies: seq<Reply>, i: nat)
    requires i + 1 < |replies| && CallAt(k, m, replies, i).Some?
    requires (CallAt(k, m, replies, i).value.GetCR? && FINALIZER in (if replies[i].GotCR? then replies[i].cr.meta.finalizers else []))
             || (CallAt(k, m, replies, i).value.PatchCRFinalizers? && FINALIZER in CallAt(k, m, replies, i).value.finalizers)
    requires replies[i].GotCR? && !replies[i].cr.meta.terminating
    ensures var name := OwnerName(replies[i].cr.owners);
            CallAt(k, m, replies, i + 1) == Some(if name == "" then ListCDs else GetCD(Key(k.ns, name)))
  {
    hide After, CallAt, CertificateOf, Renewal.Reissue, ErrorStatus, StatusAgrees, StatusFor, RelocationOf, OwnerName, IssuedByLetsEncrypt;
    At(k, m, replies, i);
  }

  lemma NoOwnerStops(k: Key, m: string, replies: seq<Reply>, i: nat)
    requires 0 < i && i + 1 < |replies| && CallAt(k, m, replies, i).Some? && CallAt(k, m, replies, i).value.GetCD? && !replies[i].GotCD?
    requires var before := CallAt(k, m, replies, i - 1);
             before.Some? && (before.value.GetCR? || before.value.PatchCRFinalizers? || before.value.ListCDs?)
    ensures CallAt(k, m, replies, i + 1) == None
  {
    hide After, CallAt, Without, CertificateOf, Renewal.Reissue, ErrorStatus, StatusAgrees, StatusFor, RelocationOf,
         OwnerName, HasFinalizer, IssuedByLetsEncrypt;
    At(k, m, replies, i);
    StepBefore(k, m, replies, i);
  }

  /** The second relocation check, after the secret was read: there a missing deployment stops the reconcile. */
  lemma SecondCheckStops(k: Key, m: string, replies: seq<Reply>, i: nat)
    requires 0 < i && i + 1 < |replies| && CallAt(k, m, replies, i).Some? && CallAt(k, m, replies, i).value.GetCD?
    requires CallAt(k, m, replies, i - 1).Some? && CallAt(k, m, replies, i - 1).value.GetSecret?
    ensures !replies[i].GotCD? || RelocationOf(replies[i].cd) == Malformed ==> CallAt(k, m, replies, i + 1) == None
    ensures replies[i].GotCD? && RelocationOf(replies[i].cd) == Outgoing ==>
              var c := CallAt(k, m, replies, i + 1);
              c.Some? && c.value.UpdateCR? && c.value.key == k
              && c.value.copy.status.status == "Not reconciling: ClusterDeployment is relocating"
  {
    hide After, CallAt, Without, CertificateOf, Renewal.Reissue, ErrorStatus, StatusAgrees, StatusFor, RelocationOf,
         OwnerName, HasFinalizer, IssuedByLetsEncrypt;
    At(k, m, replies, i);
    StepBefore(k, m, replies, i);
  }

  /** An object without owners is given the deployment that was found. */
  lemma OrphanIsAdopted(k: Key, m: string, replies: seq<Reply>, i: nat)
    requires i + 1 < |replies| && CallAt(k, m, replies, i).Some? && CallAt(k, m, replies, i).value.PatchCROwners?
    ensures 0 < i && CallAt(k, m, replies, i - 1).Some? && CallAt(k, m, replies, i - 1).value.GetCD? && replies[i - 1].GotCD?
    ensures CallAt(k, m, replies, i).value.owners == [OwnerRef("ClusterDeployment", CallAt(k, m, replies, i - 1).value.key.name)]
  {
    hide After, CallAt, Without, CertificateOf, Renewal.Reissue, ErrorStatus, StatusAgrees, StatusFor, RelocationOf,
         OwnerName, HasFinalizer, IssuedByLetsEncrypt, Object, Due, FreshFor, Reason, Contains;
    At(k, m, replies, i);
    StepBefore(k, m, replies, i);
  }

  /** The deployment that is found first is made the owner of an object without owners; with one the relocation
      check comes next. */
  lemma FoundIsAdopted(k: Key, m: string, replies: seq<Reply>, i: nat)
    requires 0 < i && i + 1 < |replies| && CallAt(k, m, replies, i).Some? && CallAt(k, m, replies, i).value.GetCD? && replies[i].GotCD?
    requires var before := CallAt(k, m, replies, i - 1);
             before.Some? && (before.value.GetCR? || before.value.PatchCRFinalizers? || before.value.ListCDs?)
    requires Object(replies[..i]).Some?
    ensures var key := CallAt(k, m, replies, i).value.key;
            CallAt(k, m, replies, i + 1)
            == Some(if Object(replies[..i]).value.owners == [] then PatchCROwners(k, [OwnerRef("ClusterDeployment", key.name)]) else GetCD(key))
  {
    hide After, CallAt, Without, CertificateOf, Renewal.Reissue, ErrorStatus, StatusAgrees, StatusFor, RelocationOf,
         OwnerName, HasFinalizer, IssuedByLetsEncrypt, Object, Due, FreshFor, Reason, Contains;
    At(k, m, replies, i);
    StepBefore(k, m, replies, i);
    HoldsObject(k, m, replies[..i]);
  }

  /** The second read of the deployment that a missing one does not stop, and a staying one does not either. */
  lemma FirstCheckPasses(k: Key, m: string, replies: seq<Reply>, i: nat)
    requires 0 < i && i + 1 < |replies|
    requires CallAt(k, m, replies, i - 1).Some? && CallAt(k, m, replies, i).Some?
    requires CallAt(k, m, replies, i - 1).value.GetCD? && CallAt(k, m, replies, i).value.GetCD?
    ensures (replies[i] == NotFound || (replies[i].GotCD? && RelocationOf(replies[i].cd) == Staying)) ==>
              CallAt(k, m, replies, i + 1) == Some(BuildAcmeClient)
    ensures replies[i].GotCD? && RelocationOf(replies[i].cd) == Outgoing ==>
              var c := CallAt(k, m, replies, i + 1);
              c.Some? && c.value.UpdateCR? && c.value.key == k
              && c.value.copy.status.status == "Not reconciling: ClusterDeployment is relocating"
  {
    hide After, CallAt, Without, CertificateOf, Renewal.Reissue, ErrorStatus, StatusAgrees, StatusFor, RelocationOf,
         OwnerName, HasFinalizer, IssuedByLetsEncrypt, Object, Due, FreshFor, Reason, Contains;
    At(k, m, replies, i);
    StepBefore(k, m, replies, i);
  }

  // ----- releasing -----

  /** Every other finalizer in its place, the certman one gone. */
  ghost predicate ReleaseCall(k: Key, cr: CR, c: Option<Call>) {
    c.Some? && c.value.PatchCRFinalizers? && c.value.key == k && FinalizerGone(cr.meta.(finalizers := c.value.finalizers), cr.meta)
  }

  /** A terminating object whose secret is absent is released at once, for one that is there clients are built. */
  lemma AbsentIsReleased(k: Key, m: string, replies: seq<Reply>)
    requires |replies| >= 3 && replies[0].GotCR? && replies[0].cr.meta.terminating && FINALIZER in replies[0].cr.meta.finalizers
    ensures CallAt(k, m, replies, 1) == Some(GetSecret(SecretKey(k, replies[0].cr.spec)))
    ensures replies[1] == NotFound ==> ReleaseCall(k, replies[0].cr, CallAt(k, m, replies, 2))
    ensures replies[1].GotSecret? ==> CallAt(k, m, replies, 2) == Some(BuildDnsClient)
    ensures replies[1] != NotFound && !replies[1].GotSecret? ==> CallAt(k, m, replies, 2) == None
  {
    hide After, CallAt, CertificateOf, Renewal.Reissue, ErrorStatus, StatusAgrees, StatusFor, RelocationOf,
         OwnerName, IssuedByLetsEncrypt, Object, Due, FreshFor, Reason, Contains;
    AtStart(k, m, replies);
    At(k, m, replies, 0);
    At(k, m, replies, 1);
  }

  /** No client, no further: the DNS client comes before the ACME client, and that one before the secret. */
  lemma ClientsComeFirst(k: Key, m: string, replies: seq<Reply>, i: nat)
    requires i + 1 < |replies| && (CallAt(k, m, replies, i) == Some(BuildDnsClient) || CallAt(k, m, replies, i) == Some(BuildAcmeClient))
    ensures var next := CallAt(k, m, replies, i + 1);
            if replies[i] != Done then next == None
            else if CallAt(k, m, replies, i) == Some(BuildDnsClient) then next == Some(BuildAcmeClient)
            else next.Some? && next.value.GetSecret?
  {
    hide After, CallAt, Without, CertificateOf, Renewal.Reissue, ErrorStatus, StatusAgrees, StatusFor, RelocationOf,
         OwnerName, HasFinalizer, IssuedByLetsEncrypt, Object, Due, FreshFor, Reason, Contains;
    At(k, m, replies, i);
  }

  /** A Let's Encrypt certificate that is read while finalizing is revoked; revoked or already revoked, the DNS
      records are cleaned up, and whatever comes of that the object is released. */
  lemma RevokedIsReleased(k: Key, m: string, replies: seq<Reply>, i: nat, c: Certificate)
    requires i + 2 < |replies| && CallAt(k, m, replies, i) == Some(Revoke(c)) && (replies[i] == Done || replies[i] == AlreadyRevoked)
    ensures CallAt(k, m, replies, i + 1) == Some(CleanUpDns)
    ensures Object(replies[..i]).Some? && ReleaseCall(k, Object(replies[..i]).value, CallAt(k, m, replies, i + 2))
  {
    hide After, CallAt, Without, CertificateOf, Renewal.Reissue, ErrorStatus, StatusAgrees, StatusFor, RelocationOf,
         OwnerName, HasFinalizer, IssuedByLetsEncrypt, Object, Due, FreshFor, Reason, Contains;
    HoldsObject(k, m, replies[..i]);
    At(k, m, replies, i);
    At(k, m, replies, i + 1);
  }

  /** The way to the revocation: both clients, the secret, and then exactly a Let's Encrypt certificate is revoked. */
  lemma LetsEncryptIsRevoked(k: Key, m: string, replies: seq<Reply>, i: nat)
    requires 0 < i && i + 1 < |replies| && CallAt(k, m, replies, i - 1) == Some(BuildAcmeClient)
    requires replies[0].GotCR? && replies[0].cr.meta.terminating
    requires CallAt(k, m, replies, i).Some? && CallAt(k, m, replies, i).value.GetSecret? && replies[i].GotSecret?
    ensures match CertificateOf(replies[i].secret)
            case Ok(c) => CallAt(k, m, replies, i + 1) == if IssuedByLetsEncrypt(c) then Some(Revoke(c)) else None
            case _ => CallAt(k, m, replies, i + 1) == None
  {
    hide After, CallAt, Without, CertificateOf, Renewal.Reissue, ErrorStatus, StatusAgrees, StatusFor, RelocationOf,
         OwnerName, HasFinalizer, IssuedByLetsEncrypt, Object, Due, FreshFor, Reason, Contains;
    HistoryHolds(k, m, replies[..i]);
    At(k, m, replies, i);
    StepBefore(k, m, replies, i);
    assert replies[..i][0] == replies[0];
  }
}
