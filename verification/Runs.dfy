/** What holds over every run of the two controllers and their environment. */
module Runs {
  import opened GoStrings
  import opened Certificates
  import opened Kube
  import opened Protocol
  import CD = CDProtocol
  import CR = CRProtocol
  import CRTraces

  /** A run: worlds connected by moves, from a start without reconciles under way. */
  ghost predicate IsRun(ws: seq<World>, mvs: seq<Move>) {
    && |ws| == |mvs| + 1
    && Init(ws[0])
    && forall i :: 0 <= i < |mvs| ==> Next(ws[i], mvs[i], ws[i + 1])
  }

  lemma {:induction false} RunKeepsInv(ws: seq<World>, mvs: seq<Move>, i: nat)
    requires IsRun(ws, mvs) && i < |ws|
    ensures Inv(ws[i])
  {
    hide Init, Next, Inv;
    if i == 0 {
      InitInv(ws[0]);
    } else {
      RunKeepsInv(ws, mvs, i - 1);
      NextKeepsInv(ws[i - 1], mvs[i - 1], ws[i]);
    }
  }

  /** Once a ClusterDeployment is gone from a namespace, every CertificateRequest there is absent or
      terminating, in every state of every run. */
  lemma NoOrphans(ws: seq<World>, mvs: seq<Move>, i: nat, c: Key)
    requires IsRun(ws, mvs) && i < |ws|
    requires !NamespaceHasCD(ws[i].store, c.ns) && c in ws[i].store.crs
    ensures ws[i].store.crs[c].meta.terminating
  {
    RunKeepsInv(ws, mvs, i);
  }

  /** The gauge, in every state: the objects with the finalizer and the patches under way, plus the drift
      of failed additions, lost replies and finalizations of objects that lack the finalizer. */
  lemma GaugeInRuns(ws: seq<World>, mvs: seq<Move>, i: nat)
    requires IsRun(ws, mvs) && i < |ws|
    ensures ws[i].gauge == ws[i].base + |WithFinalizer(ws[i].store)| + |Adding(ws[i].crPcs)|
                           + ws[i].unappliedAdds + ws[i].lostRemovals - ws[i].lackingFinals
  {
    RunKeepsInv(ws, mvs, i);
  }

  /** At a reconcile boundary, when the initial listing succeeded and no removal's reply got lost. */
  lemma GaugeAtBoundary(ws: seq<World>, mvs: seq<Move>, i: nat)
    requires IsRun(ws, mvs) && i < |ws|
    requires forall k :: k in ws[i].crPcs ==> ws[i].crPcs[k].Idle?
    requires ws[i].base == 0
    ensures ws[i].gauge == |WithFinalizer(ws[i].store)| + ws[i].unappliedAdds + ws[i].lostRemovals - ws[i].lackingFinals
  {
    GaugeInRuns(ws, mvs, i);
    assert Adding(ws[i].crPcs) == {};
  }

  // ----- release of the finalizer -----

  ghost predicate Releases(w: World, w': World, k: Key) {
    && k in w.store.crs && HasFinalizer(w.store.crs[k].meta)
    && (k in w'.store.crs ==> !HasFinalizer(w'.store.crs[k].meta))
  }

  /** Only the removal step of that object's own reconcile takes the finalizer away. */
  lemma ReleaseIsOwnStep(w: World, mv: Move, w': World, k: Key)
    requires Inv(w) && Next(w, mv, w') && Releases(w, w', k)
    ensures mv.StepCR? && mv.key == k && CRPc(w, k).FinRemoving?
  {
    assert k in WithFinalizer(w.store) && k !in WithFinalizer(w'.store);
    hide Inv, WithFinalizer, HasFinalizer, UserStep;
    match mv
    case StepCD(kd, x, r) => CDKeepsFinalizers(w, kd, x, r, w');
    case StepCR(kr, m, r) => ReleaseByStep(w, kr, m, r, w', k);
    case StartCD(_) =>
    case StartCR(_) =>
    case OperatorRestarts(_) =>
    case _ => UserKeepsFinalizers(w, mv, w');
  }

  lemma CDKeepsFinalizers(w: World, kd: Key, x: string, r: Reply, w': World)
    requires Inv(w) && CDStep(w, kd, x, r, w')
    ensures WithFinalizer(w'.store) == WithFinalizer(w.store)
  {
    ThreadOf(w, kd);
    CDCallChanges(w.store, kd, CDPc(w, kd));
    hide CD.Advance, CD.Pending, Apply, Answers, WithFinalizer, GaugeInv, CDThread, CRThread;
  }

  lemma UserKeepsFinalizers(w: World, mv: Move, w': World)
    requires Inv(w) && UserStep(w.store, mv, w'.store)
    ensures WithFinalizer(w'.store) == WithFinalizer(w.store)
  {
    hide UserStep, WithFinalizer, GaugeInv, CDThread, CRThread;
    UserStepUnnoticed(w.store, mv, w'.store);
  }

  lemma ReleaseByStep(w: World, kr: Key, m: string, r: Reply, w': World, k: Key)
    requires Inv(w) && CRStep(w, kr, m, r, w') && k in WithFinalizer(w.store) && k !in WithFinalizer(w'.store)
    ensures k == kr && CRPc(w, kr).FinRemoving?
  {
    hide CR.Advance, CR.Pending, Exec, WithFinalizer, CDThread, CRThread;
    ThreadOf(w, kr);
    ReleaseByThread(w.store, kr, CRPc(w, kr), r, w'.store, k);
  }

  lemma ReleaseByThread(s: Store, kr: Key, pc: CR.Pc, r: Reply, s': Store, k: Key)
    requires StoreInv(s) && CRThread(s, kr, pc) && pc != CR.Idle && Exec(s, CR.Pending(kr, pc), r, s')
    requires k in WithFinalizer(s) && k !in WithFinalizer(s')
    ensures k == kr && pc.FinRemoving?
  {
    CRCallOnFinalizers(s, kr, pc);
    hide Apply, CR.Pending, Answers, WithFinalizer, CRThread, StoreInv;
  }

  /** The reconcile of k has been going on since step j. */
  ghost predicate SameReconcile(ws: seq<World>, k: Key, j: nat, i: nat) {
    && j < i < |ws|
    && forall t :: j < t <= i ==> !CRPc(ws[t], k).Idle? && !CRPc(ws[t], k).Getting?
  }

  /** In step j the reconcile of k found no secret where the object's spec points. */
  ghost predicate SawNoSecret(ws: seq<World>, mvs: seq<Move>, k: Key, j: nat, cr: Kube.CR) {
    && j < |mvs| < |ws|
    && mvs[j].StepCR? && mvs[j].key == k
    && Key(k.ns, cr.spec.secretName) !in ws[j].store.secrets
  }

  /** In step j the reconcile of k read this Let's Encrypt certificate from the named secret. */
  ghost predicate SawCertificate(ws: seq<World>, mvs: seq<Move>, k: Key, j: nat, cr: Kube.CR, c: Certificate) {
    && j < |mvs| < |ws|
    && mvs[j].StepCR? && mvs[j].key == k
    && Key(k.ns, cr.spec.secretName) in ws[j].store.secrets
    && CertificateOf(ws[j].store.secrets[Key(k.ns, cr.spec.secretName)]) == Ok(c)
    && IssuedByLetsEncrypt(c)
  }

  /** What the reconcile of k has seen by world i. */
  ghost predicate Seen(ws: seq<World>, mvs: seq<Move>, k: Key, i: nat, pc: CR.Pc) {
    && (pc.FinRevoking? || pc.FinCleaning? ==>
          exists j :: SawCertificate(ws, mvs, k, j, pc.cr, pc.certificate) && SameReconcile(ws, k, j, i))
    && (pc.FinRemoving? && pc.evidence.CertificateRevoked? ==>
          exists j :: SawCertificate(ws, mvs, k, j, pc.cr, pc.evidence.certificate) && SameReconcile(ws, k, j, i))
    && (pc.FinRemoving? && pc.evidence.SecretAbsent? ==>
          exists j :: SawNoSecret(ws, mvs, k, j, pc.cr) && SameReconcile(ws, k, j, i))
  }

  /** How a finalizing thread's knowledge arises from one step. */
  lemma FinalizeSteps(s: Store, k: Key, m: string, pc: CR.Pc, r: Reply, s': Store)
    requires pc != CR.Idle && Exec(s, CR.Pending(k, pc), r, s')
    ensures var next := CR.Advance(k, m, pc, r);
            && (next.FinRevoking? ==>
                  && pc.FinReading? && next.cr == pc.cr && SecretKey(k, pc.cr.spec) in s.secrets
                  && CertificateOf(s.secrets[SecretKey(k, pc.cr.spec)]) == Ok(next.certificate) && IssuedByLetsEncrypt(next.certificate))
            && (next.FinCleaning? ==> pc.FinRevoking? && next.cr == pc.cr && next.certificate == pc.certificate)
            && (next.FinRemoving? && next.evidence.CertificateRevoked? ==>
                  pc.FinCleaning? && next.cr == pc.cr && next.evidence.certificate == pc.certificate)
            && (next.FinRemoving? && next.evidence.SecretAbsent? ==>
                  pc.FinCheckingSecret? && next.cr == pc.cr && SecretKey(k, pc.cr.spec) !in s.secrets)
            && !next.Getting?
  {
    hide CertificateOf, CR.ErrorStatus, CR.StatusAgrees, CR.StatusFor, RelocationOf, Without, CR.OwnerName, IssuedByLetsEncrypt, HasFinalizer;
  }

  lemma {:induction false} SeenInRuns(ws: seq<World>, mvs: seq<Move>, i: nat, k: Key)
    requires IsRun(ws, mvs) && i < |ws|
    ensures Seen(ws, mvs, k, i, CRPc(ws[i], k))
  {
    hide SawCertificate, SawNoSecret, Exec, CR.Advance, CR.Pending;
    if i == 0 {
      return;
    }
    SeenInRuns(ws, mvs, i - 1, k);
    var w, mv, w' := ws[i - 1], mvs[i - 1], ws[i];
    assert Next(w, mv, w');
    var pc, next := CRPc(w, k), CRPc(w', k);
    if mv.StepCR? && mv.key == k {
      FinalizeSteps(w.store, k, mv.message, pc, mv.reply, w'.store);
      assert next == CR.Advance(k, mv.message, pc, mv.reply);
      SeenStep(ws, mvs, i, k);
    } else if next == pc {
      SeenStays(ws, mvs, i, k, pc);
    }
  }

  lemma SameReconcileGrows(ws: seq<World>, k: Key, j: nat, i: nat)
    requires 0 < i < |ws| && SameReconcile(ws, k, j, i - 1)
    requires !CRPc(ws[i], k).Idle? && !CRPc(ws[i], k).Getting?
    ensures SameReconcile(ws, k, j, i)
  {
  }

  lemma SeenStays(ws: seq<World>, mvs: seq<Move>, i: nat, k: Key, pc: CR.Pc)
    requires 0 < i < |ws| && Seen(ws, mvs, k, i - 1, pc) && CRPc(ws[i], k) == pc
    ensures Seen(ws, mvs, k, i, pc)
  {
    hide SawCertificate, SawNoSecret, SameReconcile;
    if pc.FinRevoking? || pc.FinCleaning? {
      var j :| SawCertificate(ws, mvs, k, j, pc.cr, pc.certificate) && SameReconcile(ws, k, j, i - 1);
      SameReconcileGrows(ws, k, j, i);
    } else if pc.FinRemoving? && pc.evidence.CertificateRevoked? {
      var j :| SawCertificate(ws, mvs, k, j, pc.cr, pc.evidence.certificate) && SameReconcile(ws, k, j, i - 1);
      SameReconcileGrows(ws, k, j, i);
    } else if pc.FinRemoving? {
      var j :| SawNoSecret(ws, mvs, k, j, pc.cr) && SameReconcile(ws, k, j, i - 1);
      SameReconcileGrows(ws, k, j, i);
    }
  }

  lemma SeenStep(ws: seq<World>, mvs: seq<Move>, i: nat, k: Key)
    requires |ws| == |mvs| + 1 && 0 < i < |ws|
    requires Seen(ws, mvs, k, i - 1, CRPc(ws[i - 1], k))
    requires mvs[i - 1].StepCR? && mvs[i - 1].key == k && CRPc(ws[i - 1], k) != CR.Idle
    requires Exec(ws[i - 1].store, CR.Pending(k, CRPc(ws[i - 1], k)), mvs[i - 1].reply, ws[i].store)
    requires CRPc(ws[i], k) == CR.Advance(k, mvs[i - 1].message, CRPc(ws[i - 1], k), mvs[i - 1].reply)
    ensures Seen(ws, mvs, k, i, CRPc(ws[i], k))
  {
    var pc, next := CRPc(ws[i - 1], k), CRPc(ws[i], k);
    FinalizeSteps(ws[i - 1].store, k, mvs[i - 1].message, pc, mvs[i - 1].reply, ws[i].store);
    hide Exec, CR.Advance, CR.Pending;
    if next.FinRevoking? {
      assert SawCertificate(ws, mvs, k, i - 1, next.cr, next.certificate) && SameReconcile(ws, k, i - 1, i);
    } else if next.FinCleaning? {
      var j :| SawCertificate(ws, mvs, k, j, pc.cr, pc.certificate) && SameReconcile(ws, k, j, i - 1);
      SameReconcileGrows(ws, k, j, i);
    } else if next.FinRemoving? && next.evidence.CertificateRevoked? {
      var j :| SawCertificate(ws, mvs, k, j, pc.cr, pc.certificate) && SameReconcile(ws, k, j, i - 1);
      SameReconcileGrows(ws, k, j, i);
    } else if next.FinRemoving? {
      assert SawNoSecret(ws, mvs, k, i - 1, next.cr) && SameReconcile(ws, k, i - 1, i);
    }
  }

  /** In every run the certman finalizer leaves a CertificateRequest only in a step of its own
      reconcile, which earlier found the named secret absent, or read a Let's Encrypt certificate
      from it that is by then in the CA's revoked set. */
  lemma ReleaseInRuns(ws: seq<World>, mvs: seq<Move>, i: nat, k: Key)
    requires IsRun(ws, mvs) && i < |mvs| && Releases(ws[i], ws[i + 1], k)
    ensures mvs[i].StepCR? && mvs[i].key == k && CRPc(ws[i], k).FinRemoving?
    ensures exists j :: && SameReconcile(ws, k, j, i)
                        && var cr := CRPc(ws[i], k).cr;
                           (SawNoSecret(ws, mvs, k, j, cr)
                            || exists c :: SawCertificate(ws, mvs, k, j, cr, c) && c in ws[i].store.revoked)
  {
    RunKeepsInv(ws, mvs, i);
    ReleaseIsOwnStep(ws[i], mvs[i], ws[i + 1], k);
    SeenInRuns(ws, mvs, i, k);
    ThreadOf(ws[i], k);
    hide IsRun, Inv, SawCertificate, SawNoSecret, SameReconcile, Releases;
  }

  // ----- relocation -----

  /** The ClusterDeployment kd is there, well-formed and relocating, in all worlds up to i. */
  ghost predicate RelocatesUpTo(ws: seq<World>, kd: Key, i: nat) {
    i < |ws| && forall t :: 0 <= t <= i ==> kd in ws[t].store.cds && RelocationOf(ws[t].store.cds[kd]) == Outgoing
  }

  /** A CertificateRequest thread of the namespace stops at the relocation check, and it has only ever
      found the one ClusterDeployment there is. */
  predicate AtRest(kd: Key, pc: CR.Pc) {
    && (CR.Finalizing(pc) || CRTraces.BeforeRelocation(pc))
    && (pc.PatchingOwner? || pc.CheckingRelocation? ==> pc.cdName == kd.name)
  }

  /** A read of a ClusterDeployment in this namespace shows the one there is, or misses it by name. */
  lemma OnlyDeploymentAnswers(s: Store, kd: Key, n: string, r: Reply, s': Store)
    requires OneCDPerNamespace(s) && kd in s.cds && Exec(s, GetCD(Key(kd.ns, n)), r, s')
    ensures r.GotCD? ==> n == kd.name && r.cd == s.cds[kd]
    ensures r.GotCD? || r == Failed || n != kd.name
  {
    assert Key(kd.ns, kd.name) == kd;
  }

  lemma RestingStep(s: Store, kd: Key, k: Key, m: string, pc: CR.Pc, r: Reply, s': Store)
    requires OneCDPerNamespace(s) && kd in s.cds && RelocationOf(s.cds[kd]) == Outgoing && kd.ns == k.ns
    requires pc != CR.Idle && AtRest(kd, pc) && Exec(s, CR.Pending(k, pc), r, s')
    ensures AtRest(kd, CR.Advance(k, m, pc, r))
  {
    if pc.GettingOwner? || pc.CheckingRelocation? {
      assert CR.Pending(k, pc) == GetCD(Key(kd.ns, pc.cdName));
      OnlyDeploymentAnswers(s, kd, pc.cdName, r, s');
    }
    hide *;
    RestingAdvance(kd, k, m, pc, r);
  }

  lemma RestingAdvance(kd: Key, k: Key, m: string, pc: CR.Pc, r: Reply)
    requires pc != CR.Idle && AtRest(kd, pc)
    requires (pc.GettingOwner? || pc.CheckingRelocation?) && r.GotCD? ==> pc.cdName == kd.name && RelocationOf(r.cd) == Outgoing
    requires pc.CheckingRelocation? ==> r.GotCD? || r == Failed
    ensures AtRest(kd, CR.Advance(k, m, pc, r))
  {
    hide CertificateOf, CR.ErrorStatus, CR.StatusAgrees, CR.StatusFor, RelocationOf, CR.OwnerName, IssuedByLetsEncrypt, HasFinalizer;
  }

  lemma RelocatingCDIdles(s: Store, kd: Key, x: string, pc: CD.Pc, r: Reply, s': Store)
    requires kd in s.cds && RelocationOf(s.cds[kd]) == Outgoing
    requires pc.Getting? && Exec(s, CD.Pending(kd, pc), r, s')
    ensures CD.Advance(kd, x, pc, r) == CD.Idle && s' == s
  {
  }

  lemma {:induction false} RelocatingRests(ws: seq<World>, mvs: seq<Move>, kd: Key, i: nat)
    requires IsRun(ws, mvs) && RelocatesUpTo(ws, kd, i)
    ensures CDPc(ws[i], kd).Idle? || CDPc(ws[i], kd).Getting?
    ensures forall k: Key :: k.ns == kd.ns ==> AtRest(kd, CRPc(ws[i], k))
  {
    hide AtRest, RelocationOf, Inv, Init, Next;
    if i == 0 {
      InitRests(ws[0], kd);
    } else {
      assert Next(ws[i - 1], mvs[i - 1], ws[i]);
      RelocatingRests(ws, mvs, kd, i - 1);
      RunKeepsInv(ws, mvs, i - 1);
      hide IsRun;
      RestStep(ws[i - 1], mvs[i - 1], ws[i], kd);
    }
  }

  lemma InitRests(w: World, kd: Key)
    requires Init(w)
    ensures CDPc(w, kd).Idle? && forall k :: AtRest(kd, CRPc(w, k))
  {
    hide AtRest;
    IdleRests(kd);
  }

  lemma RestStep(w: World, mv: Move, w': World, kd: Key)
    requires Inv(w) && Next(w, mv, w') && kd in w.store.cds && RelocationOf(w.store.cds[kd]) == Outgoing
    requires CDPc(w, kd).Idle? || CDPc(w, kd).Getting?
    requires forall k: Key :: k.ns == kd.ns ==> AtRest(kd, CRPc(w, k))
    ensures CDPc(w', kd).Idle? || CDPc(w', kd).Getting?
    ensures forall k: Key :: k.ns == kd.ns ==> AtRest(kd, CRPc(w', k))
  {
    hide RelocationOf, CR.Advance, CR.Pending, CD.Advance, CD.Pending, Exec, AtRest, UserStep, GaugeInv, CDThread, CRThread, Settled, LiveAreGuarded, HasFinalizer, WithFinalizer, Adding, GaugeDelta;
    IdleRests(kd);
    if mv.StepCD? && mv.key == kd {
      RelocatingCDIdles(w.store, kd, mv.extraRecord, CDPc(w, kd), mv.reply, w'.store);
    } else if mv.StepCR? && mv.key.ns == kd.ns {
      RestingStep(w.store, kd, mv.key, mv.message, CRPc(w, mv.key), mv.reply, w'.store);
    }
  }

  lemma IdleRests(kd: Key)
    ensures AtRest(kd, CR.Idle) && AtRest(kd, CR.Getting)
  {
  }

  /** While a ClusterDeployment relocates, its reconciler's steps write nothing, and a reconcile of a
      CertificateRequest of its namespace that is not finalizing makes no call that orders, writes a
      secret or touches DNS. */
  lemma RelocationInRuns(ws: seq<World>, mvs: seq<Move>, kd: Key, i: nat)
    requires IsRun(ws, mvs) && RelocatesUpTo(ws, kd, i) && i < |mvs|
    ensures mvs[i].StepCD? && mvs[i].key == kd ==> ws[i + 1].store == ws[i].store
    ensures mvs[i].StepCR? && mvs[i].key.ns == kd.ns && CRPc(ws[i], mvs[i].key) != CR.Idle && !CR.Finalizing(CRPc(ws[i], mvs[i].key)) ==>
              !CRTraces.ActsOutside(CR.Pending(mvs[i].key, CRPc(ws[i], mvs[i].key)))
  {
    RelocatingRests(ws, mvs, kd, i);
    var w, mv, w' := ws[i], mvs[i], ws[i + 1];
    assert Next(w, mv, w');
    hide IsRun;
    if mv.StepCD? && mv.key == kd {
      RelocatingCDIdles(w.store, kd, mv.extraRecord, CDPc(w, kd), mv.reply, w'.store);
    } else if mv.StepCR? && mv.key.ns == kd.ns && !CR.Finalizing(CRPc(w, mv.key)) {
      RestingCalls(kd, mv.key, CRPc(w, mv.key));
    }
  }

  lemma RestingCalls(kd: Key, k: Key, pc: CR.Pc)
    requires AtRest(kd, pc) && pc != CR.Idle && !CR.Finalizing(pc)
    ensures !CRTraces.ActsOutside(CR.Pending(k, pc))
  {
    hide Without;
  }
}
