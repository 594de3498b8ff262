/** Renewal over whole runs: a fresh certificate is left alone until its time comes. */
module RenewalRuns {
  import opened GoStrings
  import opened Certificates
  import opened Renewal
  import opened Kube
  import opened Protocol
  import opened Runs
  import CR = CRProtocol
  import CRTraces

  /** Between worlds `from` and `to`, nobody but the reconcile of k touches the named secret, and the
      object, as long as it is there, keeps its spec. */
  ghost predicate Undisturbed(ws: seq<World>, mvs: seq<Move>, k: Key, spec: CRSpec, from: nat, to: nat) {
    && to < |ws| == |mvs| + 1
    && (forall t :: from <= t <= to ==> SpecIs(ws[t].store, k, spec))
    && (forall t :: from <= t < to ==>
          (mvs[t].StepCR? && mvs[t].key == k) || SameSecret(ws[t].store, ws[t + 1].store, SecretKey(k, spec)))
  }

  ghost predicate SpecIs(s: Store, k: Key, spec: CRSpec) {
    k in s.crs ==> s.crs[k].spec == spec
  }

  ghost predicate SameSecret(s: Store, s': Store, key: Key) {
    key in s.secrets ==> key in s'.secrets && s'.secrets[key] == s.secrets[key]
  }

  /** The reconcile has not decided to issue. */
  predicate Keeps(pc: CR.Pc, spec: CRSpec) {
    || pc.Idle? || pc.Getting?
    || (&& pc.cr.spec == spec
        && !pc.Issuing? && !pc.CreatingSecret? && !pc.OverwritingSecret? && !pc.UpdatingSecret?
        && (pc.RecheckingRelocation? ==> !pc.reissue))
  }

  predicate SecretIsFresh(s: Store, k: Key, spec: CRSpec) {
    SecretKey(k, spec) in s.secrets && CRTraces.FreshFor(s.secrets[SecretKey(k, spec)], spec, s.now)
  }

  /** A reconcile that has not decided to issue makes no call that writes a secret. */
  lemma KeepingCalls(k: Key, pc: CR.Pc, spec: CRSpec)
    requires Keeps(pc, spec) && pc != CR.Idle
    ensures var c := CR.Pending(k, pc);
            && !c.IssueCertificate? && !c.CreateSecret? && !c.UpdateSecret?
            && (c.GetSecret? ==> c.key == SecretKey(k, spec))
            && ((c.GetCR? || c.PatchCRFinalizers? || c.PatchCROwners?) ==> c.key == k)
  {
    hide Without;
  }

  lemma OnlySecretCallsWriteSecrets(s: Store, c: Call, r: Reply, s': Store)
    requires Exec(s, c, r, s') && !c.CreateSecret? && !c.UpdateSecret?
    ensures s'.secrets == s.secrets
  {
    hide Answers, HasFinalizer, FinalizersAllowed, UpdateAllowed;
  }

  /** What the replies that matter say about this store. */
  lemma KeepingReplies(s: Store, k: Key, spec: CRSpec, c: Call, r: Reply, s': Store)
    requires Exec(s, c, r, s') && SpecIs(s, k, spec)
    ensures c == GetSecret(SecretKey(k, spec)) && r != Failed ==>
              r == if SecretKey(k, spec) in s.secrets then GotSecret(s.secrets[SecretKey(k, spec)], s.now) else NotFound
    ensures (c.GetCR? || c.PatchCRFinalizers? || c.PatchCROwners?) && c.key == k && r.GotCR? ==> r.cr.spec == spec
  {
    hide Apply, HasFinalizer, FinalizersAllowed, UpdateAllowed;
  }

  lemma KeepingStep(s: Store, k: Key, spec: CRSpec, m: string, pc: CR.Pc, r: Reply, s': Store)
    requires SpecIs(s, k, spec) && SecretIsFresh(s, k, spec)
    requires pc != CR.Idle && Keeps(pc, spec) && Exec(s, CR.Pending(k, pc), r, s')
    ensures Keeps(CR.Advance(k, m, pc, r), spec) && s'.secrets == s.secrets
  {
    CRTraces.FreshIsKept(s.secrets[SecretKey(k, spec)], spec, s.now);
    hide Exec, Reissue, Without, CR.Advance, CRTraces.FreshFor, SpecIs;
    KeepingCalls(k, pc, spec);
    OnlySecretCallsWriteSecrets(s, CR.Pending(k, pc), r, s');
    KeepingReplies(s, k, spec, CR.Pending(k, pc), r, s');
    KeepingAdvance(k, spec, m, pc, r);
  }

  lemma KeepingAdvance(k: Key, spec: CRSpec, m: string, pc: CR.Pc, r: Reply)
    requires pc != CR.Idle && Keeps(pc, spec)
    requires pc.Getting? || pc.AddingFinalizer? || pc.PatchingOwner? ==> r.GotCR? ==> r.cr.spec == spec
    requires pc.GettingSecret? || pc.CheckingReissue? ==>
               r == Failed || (r.GotSecret? && Reissue(r.secret, spec.dnsNames, spec.reissueBeforeDays, r.now) == Ok(false))
    ensures Keeps(CR.Advance(k, m, pc, r), spec)
  {
    hide CertificateOf, CR.ErrorStatus, CR.StatusAgrees, CR.StatusFor, RelocationOf, CR.OwnerName, IssuedByLetsEncrypt, HasFinalizer, Reissue;
  }

  /** A certificate that covers the names is never reordered: while the clock stays at or before
      notAfter - (n+1) days, through any number of reconciles, restarts and failures, the secret stays as it
      is and the next call of the reconcile is not IssueCertificate. */
  lemma {:induction false} RenewalRests(ws: seq<World>, mvs: seq<Move>, k: Key, spec: CRSpec, c: Certificate, from: nat, i: nat)
    requires IsRun(ws, mvs) && from <= i && Undisturbed(ws, mvs, k, spec, from, i)
    requires CRPc(ws[from], k).Idle?
    requires SecretKey(k, spec) in ws[from].store.secrets
    requires CertificateOf(ws[from].store.secrets[SecretKey(k, spec)]) == Ok(c)
    requires Covers(c, spec.dnsNames) && ReissueBefore(spec.reissueBeforeDays) < MAX_DAYS
    requires forall t :: from <= t <= i ==> ws[t].store.now <= c.notAfter - (ReissueBefore(spec.reissueBeforeDays) + 1) * DAY
    ensures SameSecret(ws[from].store, ws[i].store, SecretKey(k, spec))
    ensures Keeps(CRPc(ws[i], k), spec)
    ensures CRPc(ws[i], k) != CR.Idle ==> !CR.Pending(k, CRPc(ws[i], k)).IssueCertificate?
  {
    hide CR.Advance, Exec, Keeps, UserStep, Covers, Init;
    if from == i {
      assert Keeps(CR.Idle, spec) by { IdleKeeps(spec); }
      return;
    }
    RenewalRests(ws, mvs, k, spec, c, from, i - 1);
    assert Next(ws[i - 1], mvs[i - 1], ws[i]);
    FreshByTheClock(ws[i - 1].store.secrets[SecretKey(k, spec)], spec, c, ws[i - 1].store.now);
    hide IsRun, SameSecret, Next;
    RestsStep(ws[i - 1], mvs[i - 1], ws[i], k, spec);
    SameSecretTrans(ws[from].store, ws[i - 1].store, ws[i].store, SecretKey(k, spec));
    if CRPc(ws[i], k) != CR.Idle {
      KeepingCalls(k, CRPc(ws[i], k), spec);
    }
  }

  lemma FreshByTheClock(secret: Secret, spec: CRSpec, c: Certificate, now: int)
    requires CertificateOf(secret) == Ok(c) && Covers(c, spec.dnsNames) && ReissueBefore(spec.reissueBeforeDays) < MAX_DAYS
    requires now <= c.notAfter - (ReissueBefore(spec.reissueBeforeDays) + 1) * DAY
    ensures CRTraces.FreshFor(secret, spec, now)
  {
  }

  lemma RestsStep(w: World, mv: Move, w': World, k: Key, spec: CRSpec)
    requires Next(w, mv, w') && SpecIs(w.store, k, spec) && SecretIsFresh(w.store, k, spec) && Keeps(CRPc(w, k), spec)
    requires (mv.StepCR? && mv.key == k) || SameSecret(w.store, w'.store, SecretKey(k, spec))
    ensures Keeps(CRPc(w', k), spec) && SameSecret(w.store, w'.store, SecretKey(k, spec))
  {
    hide CR.Advance, Exec, Keeps, UserStep, CRTraces.FreshFor;
    IdleKeeps(spec);
    if mv.StepCR? && mv.key == k {
      KeepingStep(w.store, k, spec, mv.message, CRPc(w, k), mv.reply, w'.store);
    }
  }

  lemma SameSecretTrans(s0: Store, s1: Store, s2: Store, key: Key)
    requires SameSecret(s0, s1, key) && SameSecret(s1, s2, key)
    ensures SameSecret(s0, s2, key)
  {
  }

  lemma IdleKeeps(spec: CRSpec)
    ensures Keeps(CR.Idle, spec) && Keeps(CR.Getting, spec)
  {
  }
}
