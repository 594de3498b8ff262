/** Both controllers, the shared store and the rest of the world as one state machine. Reconciles of
    one key are serialised; everything else interleaves between any two calls. */
module Protocol {
  import opened GoStrings
  import opened Certificates
  import opened Kube
  import opened Desired
  import CD = CDProtocol
  import CR = CRProtocol

  datatype World = World(
    store: Store,
    cdPcs: map<Key, CD.Pc>,
    crPcs: map<Key, CR.Pc>,
    gauge: int,
    base: int,
    unappliedAdds: nat,
    lostRemovals: nat,
    lackingFinals: nat)

  function CDPc(w: World, k: Key): CD.Pc {
    if k in w.cdPcs then w.cdPcs[k] else CD.Idle
  }

  function CRPc(w: World, k: Key): CR.Pc {
    if k in w.crPcs then w.crPcs[k] else CR.Idle
  }

  datatype Move =
    | StartCD(key: Key)
    | StepCD(key: Key, extraRecord: string, reply: Reply)
    | StartCR(key: Key)
    | StepCR(key: Key, message: string, reply: Reply)
    | UserCreatesCD(key: Key, cd: Kube.CD)
    | UserEditsCD(key: Key, cd: Kube.CD)
    | UserDeletesCD(key: Key)
    | UserEditsCR(key: Key, cr: Kube.CR)
    | UserDeletesCR(key: Key)
    | SecretsChange(secrets: map<Key, Secret>, email: string)
    | ClockAdvances(now: int)
    | OperatorRestarts(base: int)

  /** Others may do anything to an object's metadata except touch the certman finalizer, take a
      deletion mark back, or add a finalizer to a terminating object. */
  predicate UserMayWrite(was: Meta, now: Meta) {
    && (HasFinalizer(now) <==> HasFinalizer(was))
    && now.terminating == was.terminating
    && FinalizersAllowed(was, now.finalizers)
  }

  predicate NamespaceHasCD(s: Store, ns: string) {
    exists k :: k in s.cds && k.ns == ns
  }

  function WithFinalizer(s: Store): set<Key> {
    set k | k in s.crs && HasFinalizer(s.crs[k].meta)
  }

  function Adding(pcs: map<Key, CR.Pc>): set<Key> {
    set k | k in pcs && pcs[k].AddingFinalizer?
  }

  /** What the gauge gains between this reply and the next call: it is raised before the finalizer
      patch, lowered after the removal, and lowered on a terminating object without the finalizer. */
  function GaugeDelta(pc: CR.Pc, r: Reply): int {
    if pc.Getting? && r.GotCR? then
      if r.cr.meta.terminating then (if HasFinalizer(r.cr.meta) then 0 else -1)
      else if HasFinalizer(r.cr.meta) then 0 else 1
    else if pc.FinRemoving? && r.GotCR? then -1
    else 0
  }

  predicate LacksFinalizer(pc: CR.Pc, r: Reply) {
    pc.Getting? && r.GotCR? && r.cr.meta.terminating && !HasFinalizer(r.cr.meta)
  }

  ghost predicate CDStep(w: World, k: Key, x: string, r: Reply, w': World) {
    var pc := CDPc(w, k);
    && pc != CD.Idle && CD.WellFormed(pc)
    && Exec(w.store, CD.Pending(k, pc), r, w'.store)
    && w' == w.(store := w'.store, cdPcs := w.cdPcs[k := CD.Advance(k, x, pc, r)])
  }

  ghost predicate CRStep(w: World, k: Key, m: string, r: Reply, w': World) {
    var pc := CRPc(w, k);
    && pc != CR.Idle
    && Exec(w.store, CR.Pending(k, pc), r, w'.store)
    && w' == w.(store := w'.store,
                crPcs := w.crPcs[k := CR.Advance(k, m, pc, r)],
                gauge := w.gauge + GaugeDelta(pc, r),
                unappliedAdds := w.unappliedAdds + (if pc.AddingFinalizer? && w'.store == w.store then 1 else 0),
                lostRemovals := w.lostRemovals + (if pc.FinRemoving? && !r.GotCR? && w'.store != w.store then 1 else 0),
                lackingFinals := w.lackingFinals + (if LacksFinalizer(pc, r) then 1 else 0))
  }

  /** The moves of everyone else on the store. */
  predicate UserStep(s: Store, mv: Move, s': Store) {
    match mv
    case UserCreatesCD(k, cd) =>
      !NamespaceHasCD(s, k.ns) && !HasFinalizer(cd.meta) && !cd.meta.terminating && s' == PutCD(s, k, cd)
    case UserEditsCD(k, cd) => k in s.cds && UserMayWrite(s.cds[k].meta, cd.meta) && s' == PutCD(s, k, cd)
    case UserDeletesCD(k) =>
      k in s.cds && s' == PutCD(s, k, s.cds[k].(meta := s.cds[k].meta.(terminating := true)))
    case UserEditsCR(k, cr) => k in s.crs && UserMayWrite(s.crs[k].meta, cr.meta) && s' == PutCR(s, k, cr)
    case UserDeletesCR(k) => s' == Apply(s, DeleteCR(k))
    case SecretsChange(secrets, email) => s' == s.(secrets := secrets, email := email)
    case ClockAdvances(now) => s.now <= now && s' == s.(now := now)
    case _ => false
  }

  ghost predicate Next(w: World, mv: Move, w': World) {
    match mv
    case StartCD(k) => CDPc(w, k) == CD.Idle && w' == w.(cdPcs := w.cdPcs[k := CD.Getting])
    case StepCD(k, x, r) => CDStep(w, k, x, r, w')
    case StartCR(k) => CRPc(w, k) == CR.Idle && w' == w.(crPcs := w.crPcs[k := CR.Getting])
    case StepCR(k, m, r) => CRStep(w, k, m, r, w')
    case OperatorRestarts(b) => w' == Restarted(w, b)
    case _ => UserStep(w.store, mv, w'.store) && w' == w.(store := w'.store)
  }

  /** A restart forgets every reconcile; the gauge is counted anew, off by `base` where the initial
      listing failed. */
  function Restarted(w: World, base: int): World {
    World(w.store, map[], map[], base + |WithFinalizer(w.store)|, base, 0, 0, 0)
  }

  // ----- invariants of the ClusterDeployment side -----

  ghost predicate OneCDPerNamespace(s: Store) {
    forall k1, k2 :: k1 in s.cds && k2 in s.cds && k1.ns == k2.ns ==> k1 == k2
  }

  predicate Guarded(s: Store, ns: string) {
    exists k :: k in s.cds && k.ns == ns && HasFinalizer(s.cds[k].meta)
  }

  /** A CertificateRequest that is not terminating has a ClusterDeployment that cannot go away. */
  ghost predicate LiveAreGuarded(s: Store) {
    forall c :: c in s.crs && !s.crs[c].meta.terminating ==> Guarded(s, c.ns)
  }

  /** What a thread in this state knows about the store. */
  ghost predicate CDThread(s: Store, k: Key, pc: CD.Pc) {
    && CD.Proper(k, pc)
    && (CD.Syncing(pc) ==> k in s.cds && HasFinalizer(s.cds[k].meta))
    && (CD.Finalizing(pc) ==> k in s.cds && HasFinalizer(s.cds[k].meta) && s.cds[k].meta.terminating)
    && (pc.Deleting? ==> forall c :: c in s.crs && c.ns == k.ns && !s.crs[c].meta.terminating ==> c in pc.todo)
    && (pc.RemovingFinalizer? ==> forall c :: c in s.crs && c.ns == k.ns ==> s.crs[c].meta.terminating)
    && (pc.SyncUpdating? ==> SameVersion(s, pc.left[0].key, pc.copy))
  }

  /** A copy whose version is still the stored one has the stored finalizers. */
  ghost predicate SameVersion(s: Store, k: Key, copy: Kube.CR) {
    && copy.meta.rv <= s.rv
    && (k in s.crs && s.crs[k].meta.rv == copy.meta.rv ==> s.crs[k].meta.finalizers == copy.meta.finalizers)
  }

  ghost predicate StoreInv(s: Store) {
    && Settled(s)
    && OneCDPerNamespace(s)
    && LiveAreGuarded(s)
    && VersionsBelow(s)
  }

  // ----- invariants of the CertificateRequest side -----

  ghost predicate CRThread(s: Store, k: Key, pc: CR.Pc) {
    && (!(pc.Idle? || pc.Getting?) ==> SameVersion(s, k, pc.cr))
    && (pc.AddingFinalizer? ==> !HasFinalizer(pc.cr.meta) && (k in s.crs ==> !HasFinalizer(s.crs[k].meta)))
    && (CR.Finalizing(pc) ==> HasFinalizer(pc.cr.meta) && k in s.crs && HasFinalizer(s.crs[k].meta) && s.crs[k].meta.terminating)
    && (pc.FinRevoking? || pc.FinCleaning? ==> IssuedByLetsEncrypt(pc.certificate))
    && (pc.FinCleaning? ==> pc.certificate in s.revoked)
    && (pc.FinRemoving? && pc.evidence.CertificateRevoked? ==>
          IssuedByLetsEncrypt(pc.evidence.certificate) && pc.evidence.certificate in s.revoked)
  }

  ghost predicate GaugeInv(w: World) {
    w.gauge == w.base + |WithFinalizer(w.store)| + |Adding(w.crPcs)| + w.unappliedAdds + w.lostRemovals - w.lackingFinals
  }

  ghost predicate Inv(w: World) {
    && StoreInv(w.store)
    && (forall k :: k in w.cdPcs ==> CDThread(w.store, k, w.cdPcs[k]))
    && (forall k :: k in w.crPcs ==> CRThread(w.store, k, w.crPcs[k]))
    && GaugeInv(w)
  }

  /** Start of a run: no reconcile is going on, the store is a possible one, and the gauge has been
      initialised. */
  ghost predicate Init(w: World) {
    && w.cdPcs == map[] && w.crPcs == map[]
    && StoreInv(w.store)
    && w == Restarted(w, w.base)
  }

  // ----- how the store may change, seen from a thread that does not move -----

  /** Every change that is not by thread k itself, seen by the ClusterDeployment thread of key k. */
  ghost predicate QuietForCD(s: Store, s': Store, k: Key) {
    && s.rv <= s'.rv
    && (k in s.cds && HasFinalizer(s.cds[k].meta) ==>
          k in s'.cds && HasFinalizer(s'.cds[k].meta) && (s.cds[k].meta.terminating ==> s'.cds[k].meta.terminating))
    && (forall c :: c in s'.crs && !s'.crs[c].meta.terminating ==> (c in s.crs && !s.crs[c].meta.terminating) || c.ns != k.ns)
    && NewVersions(s, s')
  }

  /** A stored object keeps its finalizers unless it gets a new version. */
  ghost predicate NewVersions(s: Store, s': Store) {
    && s.rv <= s'.rv
    && forall c :: c in s'.crs && s'.crs[c].meta.rv <= s.rv ==>
         c in s.crs && s.crs[c].meta.rv == s'.crs[c].meta.rv && s.crs[c].meta.finalizers == s'.crs[c].meta.finalizers
  }

  lemma CDThreadStays(s: Store, s': Store, k: Key, pc: CD.Pc)
    requires CDThread(s, k, pc) && (QuietForCD(s, s', k) || !(CD.Finalizing(pc)))
    requires NewVersions(s, s')
    requires k in s.cds && HasFinalizer(s.cds[k].meta) ==> k in s'.cds && HasFinalizer(s'.cds[k].meta)
    ensures CDThread(s', k, pc)
  {
    hide CD.Proper;
  }

  /** Seen by the CertificateRequest thread of key k. */
  ghost predicate QuietForCR(s: Store, s': Store, k: Key) {
    && NewVersions(s, s')
    && s.revoked <= s'.revoked
    && (k in s'.crs && HasFinalizer(s'.crs[k].meta) ==> k in s.crs && HasFinalizer(s.crs[k].meta))
    && (k in s.crs && HasFinalizer(s.crs[k].meta) ==>
          k in s'.crs && HasFinalizer(s'.crs[k].meta) && (s.crs[k].meta.terminating ==> s'.crs[k].meta.terminating))
  }

  lemma CRThreadStays(s: Store, s': Store, k: Key, pc: CR.Pc)
    requires CRThread(s, k, pc) && QuietForCR(s, s', k)
    ensures CRThread(s', k, pc)
  {
    hide IssuedByLetsEncrypt;
  }

  // ----- steps of a CertificateRequest thread -----

  predicate CRCall(k: Key, c: Call) {
    && !c.CreateCR? && !c.DeleteCR? && !c.PatchCDFinalizers?
    && ((c.PatchCRFinalizers? || c.PatchCROwners? || c.UpdateCR? || c.UpdateCRStatus?) ==> c.key == k)
  }

  lemma CRThreadCalls(k: Key, pc: CR.Pc)
    requires pc != CR.Idle
    ensures CRCall(k, CR.Pending(k, pc))
  {
    hide Without;
  }

  /** A call rewrites at most one CertificateRequest. */
  lemma ApplyShape(s: Store, c: Call)
    ensures (Apply(s, c).crs == s.crs && s.rv <= Apply(s, c).rv) || exists k, cr :: Apply(s, c) == PutCR(s, k, cr)
  {
    hide HasFinalizer, FinalizersAllowed, SecretUpdateAllowed, PutCR;
    match c
    case PatchCRFinalizers(k, fs) =>
      assert k in s.crs ==> Apply(s, c) in {s, PutCR(s, k, s.crs[k].(meta := s.crs[k].meta.(finalizers := fs)))};
    case PatchCROwners(k, owners) =>
      assert k in s.crs ==> Apply(s, c) == PutCR(s, k, s.crs[k].(owners := owners));
    case CreateCR(k, owners, spec) =>
      assert k !in s.crs ==> Apply(s, c) == PutCR(s, k, Kube.CR(Meta(0, [], false), owners, spec, NEW_STATUS));
    case UpdateCR(k, copy) =>
      if UpdateAllowed(s, k, copy) {
        assert Apply(s, c) == PutCR(s, k, Kube.CR(s.crs[k].meta.(finalizers := copy.meta.finalizers), copy.owners, copy.spec, s.crs[k].status));
      }
    case UpdateCRStatus(k, copy) =>
      assert k in s.crs ==> Apply(s, c) in {s, PutCR(s, k, s.crs[k].(status := copy.status))};
    case DeleteCR(k) =>
      assert k in s.crs ==> Apply(s, c) in {s, PutCR(s, k, s.crs[k].(meta := s.crs[k].meta.(terminating := true)))};
    case _ =>
  }

  ghost predicate VersionsBelow(s: Store) {
    forall k :: k in s.crs ==> s.crs[k].meta.rv <= s.rv
  }

  lemma PutVersions(s: Store, k: Key, cr: Kube.CR)
    ensures NewVersions(s, PutCR(s, k, cr))
    ensures VersionsBelow(s) ==> VersionsBelow(PutCR(s, k, cr))
  {
    hide HasFinalizer;
  }

  lemma ApplyVersions(s: Store, c: Call)
    ensures NewVersions(s, Apply(s, c))
    ensures VersionsBelow(s) ==> VersionsBelow(Apply(s, c))
  {
    ApplyShape(s, c);
    hide Apply;
    if !(Apply(s, c).crs == s.crs && s.rv <= Apply(s, c).rv) {
      var k, cr :| Apply(s, c) == PutCR(s, k, cr);
      PutVersions(s, k, cr);
    }
  }

  /** A call of a CertificateRequest thread rewrites at most its own object, whose deletion mark stays. */
  lemma CRCallShape(s: Store, c: Call, k: Key)
    requires CRCall(k, c)
    ensures var s' := Apply(s, c);
            || (s'.crs == s.crs && s'.cds == s.cds && s.revoked <= s'.revoked)
            || exists cr: Kube.CR :: k in s.crs && cr.meta.terminating == s.crs[k].meta.terminating && s' == PutCR(s, k, cr)
  {
    hide HasFinalizer, FinalizersAllowed, SecretUpdateAllowed, PutCR;
    match c
    case PatchCRFinalizers(_, fs) =>
      assert k in s.crs ==> Apply(s, c) in {s, PutCR(s, k, s.crs[k].(meta := s.crs[k].meta.(finalizers := fs)))};
    case PatchCROwners(_, owners) =>
      assert k in s.crs ==> Apply(s, c) == PutCR(s, k, s.crs[k].(owners := owners));
    case UpdateCR(_, copy) =>
      if UpdateAllowed(s, k, copy) {
        assert Apply(s, c) == PutCR(s, k, Kube.CR(s.crs[k].meta.(finalizers := copy.meta.finalizers), copy.owners, copy.spec, s.crs[k].status));
      }
    case UpdateCRStatus(_, copy) =>
      assert k in s.crs ==> Apply(s, c) in {s, PutCR(s, k, s.crs[k].(status := copy.status))};
    case _ =>
  }

  lemma PutElsewhere(s: Store, k: Key, cr: Kube.CR)
    requires k in s.crs && cr.meta.terminating == s.crs[k].meta.terminating
    ensures var s' := PutCR(s, k, cr);
            && s'.cds == s.cds && s.revoked <= s'.revoked
            && (forall c' :: c' in s'.crs ==> c' in s.crs && (s.crs[c'].meta.terminating <==> s'.crs[c'].meta.terminating))
            && (forall c' :: c' != k ==> (c' in s'.crs <==> c' in s.crs) && (c' in s.crs ==> s'.crs[c'] == s.crs[c']))
  {
  }

  lemma CRCallElsewhere(s: Store, c: Call, k: Key)
    requires Settled(s) && CRCall(k, c)
    ensures var s' := Apply(s, c);
            && s'.cds == s.cds && s.revoked <= s'.revoked
            && (forall c' :: c' in s'.crs ==> c' in s.crs && (s.crs[c'].meta.terminating <==> s'.crs[c'].meta.terminating))
            && (forall c' :: c' != k ==> (c' in s'.crs <==> c' in s.crs) && (c' in s.crs ==> s'.crs[c'] == s.crs[c']))
  {
    CRCallShape(s, c, k);
    hide Apply, CRCall, Settled;
    var s' := Apply(s, c);
    if !(s'.crs == s.crs && s'.cds == s.cds && s.revoked <= s'.revoked) {
      var cr: Kube.CR :| k in s.crs && cr.meta.terminating == s.crs[k].meta.terminating && s' == PutCR(s, k, cr);
      PutElsewhere(s, k, cr);
      hide PutCR;
    }
  }

  /** A CertificateRequest thread's call disturbs no other thread and keeps the store's invariant. */
  lemma CRCallQuiet(s: Store, c: Call, k: Key)
    requires StoreInv(s) && CRCall(k, c)
    ensures StoreInv(Apply(s, c))
    ensures forall k' :: QuietForCD(s, Apply(s, c), k')
    ensures forall k' :: k' != k ==> QuietForCR(s, Apply(s, c), k')
  {
    hide Apply, CRCall, Settled, VersionsBelow, NewVersions, HasFinalizer, LiveAreGuarded;
    CRCallElsewhere(s, c, k);
    ApplyVersions(s, c);
    ApplyKeepsSettled(s, c);
    var s' := Apply(s, c);
    GuardsStay(s, s');
    NewVersionsGrow(s, s');
  }

  lemma NewVersionsGrow(s: Store, s': Store)
    requires NewVersions(s, s')
    ensures s.rv <= s'.rv
  {
  }

  /** What a CertificateRequest thread carries over from its reply. */
  lemma AdvanceCarries(k: Key, m: string, pc: CR.Pc, r: Reply)
    requires pc != CR.Idle
    ensures var next := CR.Advance(k, m, pc, r);
            && !next.Getting?
            && (!next.Idle? ==>
                  || ((pc.Getting? || pc.AddingFinalizer? || pc.PatchingOwner?) && r.GotCR? && next.cr == r.cr)
                  || (!pc.Getting? && !pc.AddingFinalizer? && !pc.PatchingOwner? && next.cr.meta == pc.cr.meta))
            && (next.AddingFinalizer? <==> pc.Getting? && r.GotCR? && !r.cr.meta.terminating && !HasFinalizer(r.cr.meta))
            && (CR.Finalizing(next) ==>
                  || (CR.Finalizing(pc) && !pc.FinRemoving?)
                  || (pc.Getting? && r.GotCR? && HasFinalizer(r.cr.meta) && r.cr.meta.terminating))
            && (next.FinRevoking? ==> IssuedByLetsEncrypt(next.certificate))
            && (next.FinCleaning? ==> pc.FinRevoking? && next.certificate == pc.certificate && r != Failed)
            && (next.FinRemoving? && next.evidence.CertificateRevoked? ==> pc.FinCleaning? && next.evidence.certificate == pc.certificate)
  {
    hide CertificateOf, CR.ErrorStatus, CR.StatusAgrees, CR.StatusFor, RelocationOf, Without, CR.OwnerName, IssuedByLetsEncrypt;
  }

  /** A reply that carries the object carries the version that is now stored. */
  lemma GotStoredCR(s: Store, k: Key, pc: CR.Pc, r: Reply, s': Store)
    requires pc != CR.Idle && Exec(s, CR.Pending(k, pc), r, s') && r.GotCR?
    requires VersionsBelow(s)
    ensures SameVersion(s', k, r.cr)
    ensures pc.Getting? ==> k in s'.crs && s'.crs[k] == r.cr && s' == s
    ensures pc.AddingFinalizer? || pc.PatchingOwner? || pc.FinRemoving? ==> s' != s
  {
    hide HasFinalizer, Without;
  }

  lemma SameVersionStays(s: Store, s': Store, k: Key, copy: Kube.CR, copy': Kube.CR)
    requires NewVersions(s, s') && SameVersion(s, k, copy) && copy'.meta == copy.meta
    ensures SameVersion(s', k, copy')
  {
  }

  lemma ExecVersions(s: Store, c: Call, r: Reply, s': Store)
    requires Exec(s, c, r, s')
    ensures NewVersions(s, s')
  {
    hide Apply, Answers;
    ApplyVersions(s, c);
  }

  /** The copy in hand stays at the version that is stored, or is outdated. */
  lemma VersionCarries(s: Store, k: Key, m: string, pc: CR.Pc, r: Reply, s': Store)
    requires VersionsBelow(s) && CRThread(s, k, pc) && pc != CR.Idle && Exec(s, CR.Pending(k, pc), r, s')
    ensures var next := CR.Advance(k, m, pc, r); !next.Idle? ==> !next.Getting? && SameVersion(s', k, next.cr)
  {
    hide CR.Advance, CR.Pending, Exec, HasFinalizer, IssuedByLetsEncrypt, VersionsBelow, SameVersion, NewVersions;
    AdvanceCarries(k, m, pc, r);
    ExecVersions(s, CR.Pending(k, pc), r, s');
    var next := CR.Advance(k, m, pc, r);
    if !next.Idle? {
      if pc.Getting? || pc.AddingFinalizer? || pc.PatchingOwner? {
        GotStoredCR(s, k, pc, r, s');
      } else {
        SameVersionStays(s, s', k, pc.cr, next.cr);
      }
    }
  }

  lemma CRThreadMoves(w: World, k: Key, m: string, r: Reply, w': World)
    requires Inv(w) && CRStep(w, k, m, r, w')
    ensures CRThread(w'.store, k, CRPc(w', k))
  {
    var pc, s, s' := CRPc(w, k), w.store, w'.store;
    var next := CR.Advance(k, m, pc, r);
    ThreadOf(w, k);
    hide CDThread, GaugeInv, CR.Advance, CR.Pending, Apply, Answers, HasFinalizer, IssuedByLetsEncrypt, LiveAreGuarded, OneCDPerNamespace, Settled, GaugeDelta,
         VersionsBelow, SameVersion;
    VersionCarries(s, k, m, pc, r, s');
    AdvanceCarries(k, m, pc, r);
    if r.GotCR? {
      GotStoredCR(s, k, pc, r, s');
    }
    FinalizeCallsKeepObject(s, k, pc);
    if next.FinCleaning? {
      RevokeIsRecorded(s, k, pc);
    }
  }

  lemma FinalizeCallsKeepObject(s: Store, k: Key, pc: CR.Pc)
    requires pc != CR.Idle
    ensures CR.Finalizing(pc) && !pc.FinRemoving? ==> Apply(s, CR.Pending(k, pc)).crs == s.crs
    ensures s.revoked <= Apply(s, CR.Pending(k, pc)).revoked
  {
    hide HasFinalizer, Without;
  }

  lemma RevokeIsRecorded(s: Store, k: Key, pc: CR.Pc)
    requires pc.FinRevoking?
    ensures pc.certificate in Apply(s, CR.Pending(k, pc)).revoked
  {
  }

  /** The effect of a CertificateRequest thread's call on the set of objects with the finalizer. */
  lemma CRCallOnFinalizers(s: Store, k: Key, pc: CR.Pc)
    requires pc != CR.Idle && StoreInv(s) && CRThread(s, k, pc)
    ensures var s' := Apply(s, CR.Pending(k, pc));
            WithFinalizer(s') == if s' == s then WithFinalizer(s)
                                 else if pc.AddingFinalizer? then WithFinalizer(s) + {k}
                                 else if pc.FinRemoving? then WithFinalizer(s) - {k}
                                 else WithFinalizer(s)
    ensures pc.AddingFinalizer? ==> k !in WithFinalizer(s)
    ensures pc.FinRemoving? ==> k in WithFinalizer(s)
  {
    var c := CR.Pending(k, pc);
    var s' := Apply(s, c);
    CRThreadCalls(k, pc);
    CRCallElsewhere(s, c, k);
    CRCallOnItself(s, k, pc);
    hide Apply, CR.Pending, IssuedByLetsEncrypt, HasFinalizer;
    forall o | o != k
      ensures o in WithFinalizer(s') <==> o in WithFinalizer(s)
    {
    }
  }

  /** What a CertificateRequest thread's call does to the finalizer of its own object. */
  lemma CRCallOnItself(s: Store, k: Key, pc: CR.Pc)
    requires pc != CR.Idle && StoreInv(s) && CRThread(s, k, pc)
    ensures var s' := Apply(s, CR.Pending(k, pc));
            k in WithFinalizer(s') <==> if s' == s then k in WithFinalizer(s)
                                        else if pc.AddingFinalizer? then true
                                        else if pc.FinRemoving? then false
                                        else k in WithFinalizer(s)
    ensures pc.AddingFinalizer? ==> k !in WithFinalizer(s)
    ensures pc.FinRemoving? ==> k in WithFinalizer(s)
  {
    var c := CR.Pending(k, pc);
    CRThreadCalls(k, pc);
    CRCallKinds(k, pc);
    if !c.PatchCRFinalizers? {
      OthersKeepFinalizers(s, c, k);
    }
    hide IssuedByLetsEncrypt, OneCDPerNamespace, LiveAreGuarded, CR.Pending;
  }

  lemma CRCallKinds(k: Key, pc: CR.Pc)
    requires pc != CR.Idle
    ensures var c := CR.Pending(k, pc);
            && (c.PatchCRFinalizers? <==> pc.AddingFinalizer? || pc.FinRemoving?)
            && (pc.AddingFinalizer? ==> FINALIZER in c.finalizers)
            && (pc.FinRemoving? ==> FINALIZER !in c.finalizers)
            && (c.UpdateCR? ==> c.copy == pc.cr)
  {
    hide HasFinalizer;
    assert pc.AddingFinalizer? ==> FINALIZER in pc.cr.meta.finalizers + [FINALIZER];
  }

  lemma OthersKeepFinalizers(s: Store, c: Call, k: Key)
    requires Settled(s) && CRCall(k, c) && !c.PatchCRFinalizers? && (c.UpdateCR? ==> SameVersion(s, k, c.copy))
    ensures k in WithFinalizer(Apply(s, c)) <==> k in WithFinalizer(s)
  {
    hide FinalizersAllowed, SecretUpdateAllowed;
  }

  lemma CRGaugeMoves(w: World, k: Key, m: string, r: Reply, w': World)
    requires Inv(w) && CRStep(w, k, m, r, w')
    ensures GaugeInv(w')
  {
    var pc, s, s' := CRPc(w, k), w.store, w'.store;
    hide CR.Advance, CR.Pending, Apply, Answers, HasFinalizer, IssuedByLetsEncrypt, CRThread, StoreInv, Adding, WithFinalizer;
    ThreadOf(w, k);
    CRCallOnFinalizers(s, k, pc);
    AdvanceCarries(k, m, pc, r);
    AddingMoves(w.crPcs, k, pc, CR.Advance(k, m, pc, r));
    if r.GotCR? {
      VersionsBounded(s);
      GotStoredCR(s, k, pc, r, s');
    }
    RefusedLeavesStore(s, k, pc, r, s');
  }

  lemma VersionsBounded(s: Store)
    requires StoreInv(s)
    ensures VersionsBelow(s)
  {
  }

  lemma ThreadOf(w: World, k: Key)
    requires Inv(w)
    ensures CRThread(w.store, k, CRPc(w, k)) && CDThread(w.store, k, CDPc(w, k))
  {
    hide CRThread, CDThread, StoreInv, GaugeInv;
    if k !in w.crPcs {
      IdleThread(w.store, k);
    }
    if k !in w.cdPcs {
      IdleThread(w.store, k);
    }
  }

  lemma IdleThread(s: Store, k: Key)
    ensures CRThread(s, k, CR.Idle) && CDThread(s, k, CD.Idle)
  {
  }

  lemma AddingMoves(pcs: map<Key, CR.Pc>, k: Key, pc: CR.Pc, next: CR.Pc)
    requires pc == if k in pcs then pcs[k] else CR.Idle
    ensures |Adding(pcs[k := next])| == |Adding(pcs)| + (if next.AddingFinalizer? then 1 else 0) - (if pc.AddingFinalizer? then 1 else 0)
  {
    var was, now := Adding(pcs), Adding(pcs[k := next]);
    assert now == if next.AddingFinalizer? then was + {k} else was - {k};
    assert k in was <==> pc.AddingFinalizer?;
  }

  /** A finalizer patch that was answered without the object changed nothing. */
  lemma RefusedLeavesStore(s: Store, k: Key, pc: CR.Pc, r: Reply, s': Store)
    requires pc != CR.Idle && Exec(s, CR.Pending(k, pc), r, s')
    ensures (pc.AddingFinalizer? || pc.FinRemoving?) && !r.GotCR? && r != Failed ==> s' == s
    ensures pc.Getting? ==> s' == s
  {
    hide HasFinalizer, Without;
  }

  lemma CRStepKeepsInv(w: World, k: Key, m: string, r: Reply, w': World)
    requires Inv(w) && CRStep(w, k, m, r, w')
    ensures Inv(w')
  {
    var pc, s, s' := CRPc(w, k), w.store, w'.store;
    CRThreadMoves(w, k, m, r, w');
    CRGaugeMoves(w, k, m, r, w');
    CRThreadCalls(k, pc);
    CRCallQuiet(s, CR.Pending(k, pc), k);
    hide CR.Advance, CR.Pending, Apply, Answers, CDThread, CRThread, StoreInv, GaugeInv, QuietForCR, CRCall;
    QuietIsReflexive(s);
    forall k' | k' in w'.cdPcs
      ensures CDThread(s', k', w'.cdPcs[k'])
    {
      CDThreadStays(s, s', k', w.cdPcs[k']);
    }
    forall k' | k' in w'.crPcs
      ensures CRThread(s', k', w'.crPcs[k'])
    {
      if k' != k {
        CRThreadStays(s, s', k', w.crPcs[k']);
      }
    }
  }

  lemma QuietIsReflexive(s: Store)
    ensures (forall k :: QuietForCD(s, s, k)) && (forall k :: QuietForCR(s, s, k))
  {
  }

  // ----- steps of a ClusterDeployment thread -----

  /** Nothing is revoked, no finalizer comes or goes, no deletion mark is taken back. */
  ghost predicate Tame(s: Store, s': Store) {
    && s'.revoked == s.revoked
    && (forall c :: c in s.crs && s.crs[c].meta.terminating && c in s'.crs ==> s'.crs[c].meta.terminating)
    && (forall c :: c in s.crs && HasFinalizer(s.crs[c].meta) ==> c in s'.crs && HasFinalizer(s'.crs[c].meta))
    && (forall c :: c in s'.crs && HasFinalizer(s'.crs[c].meta) ==> c in s.crs && HasFinalizer(s.crs[c].meta))
  }

  lemma DeleteIsTame(s: Store, k: Key)
    ensures Tame(s, Apply(s, DeleteCR(k)))
    ensures forall c :: c in Apply(s, DeleteCR(k)).crs ==> c in s.crs
  {
  }

  lemma CreateIsTame(s: Store, k: Key, owners: seq<OwnerRef>, spec: CRSpec)
    ensures Tame(s, Apply(s, CreateCR(k, owners, spec)))
    ensures forall c :: c in Apply(s, CreateCR(k, owners, spec)).crs ==> c in s.crs || c == k
  {
  }

  lemma UpdateIsTame(s: Store, k: Key, copy: Kube.CR)
    requires Settled(s) && SameVersion(s, k, copy)
    ensures Tame(s, Apply(s, UpdateCR(k, copy)))
    ensures forall c :: c in Apply(s, UpdateCR(k, copy)).crs ==> c in s.crs
  {
  }

  /** What this thread's calls do to CertificateRequests. */
  lemma CDCallChanges(s: Store, k: Key, pc: CD.Pc)
    requires StoreInv(s) && CDThread(s, k, pc) && pc != CD.Idle
    ensures var s' := Apply(s, CD.Pending(k, pc));
            && Tame(s, s')
            && WithFinalizer(s') == WithFinalizer(s)
            && (forall c :: c in s'.crs && c !in s.crs ==> pc.SyncCreating? && c.ns == k.ns)
  {
    var s' := Apply(s, CD.Pending(k, pc));
    if pc.Deleting? {
      DeleteIsTame(s, pc.todo[0]);
    } else if pc.SyncDeleting? {
      DeleteIsTame(s, pc.extra[0]);
    } else if pc.SyncCreating? {
      var w := pc.left[0];
      assert CD.WantedOk(k, w) by { assert w in pc.left; }
      CreateIsTame(s, w.key, w.owners, w.spec);
    } else if pc.SyncUpdating? {
      UpdateIsTame(s, pc.left[0].key, pc.copy.(spec := pc.left[0].spec));
    } else {
      ElseUnchanged(s, k, pc);
    }
    hide Apply, StoreInv, CDThread, HasFinalizer;
  }

  lemma ElseUnchanged(s: Store, k: Key, pc: CD.Pc)
    requires CD.WellFormed(pc) && pc != CD.Idle
    requires !(pc.Deleting? || pc.SyncDeleting? || pc.SyncCreating? || pc.SyncUpdating?)
    ensures Apply(s, CD.Pending(k, pc)).crs == s.crs && Apply(s, CD.Pending(k, pc)).revoked == s.revoked
  {
    hide Without, HasFinalizer, FinalizersAllowed;
  }

  lemma CDCallOnCDs(s: Store, k: Key, pc: CD.Pc)
    requires CDThread(s, k, pc) && pc != CD.Idle
    ensures var s' := Apply(s, CD.Pending(k, pc));
            && (forall c :: c != k ==> (c in s'.cds <==> c in s.cds) && (c in s.cds ==> s'.cds[c] == s.cds[c]))
            && (k in s'.cds ==> k in s.cds)
            && (!pc.RemovingFinalizer? && k in s.cds && HasFinalizer(s.cds[k].meta) ==>
                  k in s'.cds && HasFinalizer(s'.cds[k].meta))
            && (k in s'.cds && k in s.cds ==> s'.cds[k].meta.terminating == s.cds[k].meta.terminating)
            && (pc.RemovingFinalizer? ==> s'.crs == s.crs)
            && (CD.Syncing(pc) || pc.DeleteListing? || pc.Deleting? || pc.Getting? ==> s'.cds == s.cds)
  {
    var c := CD.Pending(k, pc);
    CDCallKinds(k, pc);
    if c.PatchCDFinalizers? {
      PatchOnCDs(s, k, c.finalizers);
    } else {
      OnlyPatchTouchesCDs(s, c);
    }
    hide CD.Proper, Apply, CD.Pending, HasFinalizer;
  }

  lemma CDCallKinds(k: Key, pc: CD.Pc)
    requires CD.WellFormed(pc) && pc != CD.Idle
    ensures var c := CD.Pending(k, pc);
            && (c.PatchCDFinalizers? <==> pc.AddingFinalizer? || pc.RemovingFinalizer?)
            && (c.PatchCDFinalizers? ==> c.key == k && (pc.AddingFinalizer? ==> FINALIZER in c.finalizers))
  {
    hide CD.Proper, Without;
    assert pc.AddingFinalizer? ==> FINALIZER in pc.cd.meta.finalizers + [FINALIZER];
  }

  lemma OnlyPatchTouchesCDs(s: Store, c: Call)
    requires !c.PatchCDFinalizers?
    ensures Apply(s, c).cds == s.cds
  {
    hide HasFinalizer, FinalizersAllowed, UpdateAllowed, SecretUpdateAllowed;
  }

  lemma PatchOnCDs(s: Store, k: Key, finalizers: seq<string>)
    ensures var s' := Apply(s, PatchCDFinalizers(k, finalizers));
            && s'.crs == s.crs
            && (forall c :: c != k ==> (c in s'.cds <==> c in s.cds) && (c in s.cds ==> s'.cds[c] == s.cds[c]))
            && (k in s'.cds ==> k in s.cds && s'.cds[k].meta.terminating == s.cds[k].meta.terminating)
            && (FINALIZER in finalizers && k in s.cds && HasFinalizer(s.cds[k].meta) ==> k in s'.cds && HasFinalizer(s'.cds[k].meta))
  {
    hide FinalizersAllowed;
  }

  lemma CDCallGuards(s: Store, k: Key, pc: CD.Pc)
    requires StoreInv(s) && CDThread(s, k, pc) && pc != CD.Idle
    ensures var s' := Apply(s, CD.Pending(k, pc)); LiveAreGuarded(s') && OneCDPerNamespace(s')
  {
    CDCallChanges(s, k, pc);
    CDCallOnCDs(s, k, pc);
    var s' := Apply(s, CD.Pending(k, pc));
    hide Apply, CD.Pending, WithFinalizer, Settled, VersionsBelow, HasFinalizer, CD.Proper, SameVersion;
    forall c | c in s'.crs && !s'.crs[c].meta.terminating
      ensures Guarded(s', c.ns)
    {
      if c in s.crs {
        var g :| g in s.cds && g.ns == c.ns && HasFinalizer(s.cds[g].meta);
        assert g in s'.cds && HasFinalizer(s'.cds[g].meta);
      } else {
        assert k in s'.cds && k.ns == c.ns && HasFinalizer(s'.cds[k].meta);
      }
    }
  }

  lemma CDCallStoreInv(s: Store, k: Key, pc: CD.Pc)
    requires StoreInv(s) && CDThread(s, k, pc) && pc != CD.Idle
    ensures StoreInv(Apply(s, CD.Pending(k, pc)))
  {
    assert CD.WellFormed(pc);
    hide CDThread;
    CDCallGuards(s, k, pc);
    hide Apply, CD.Pending, Settled, VersionsBelow, LiveAreGuarded, OneCDPerNamespace;
    ApplyVersions(s, CD.Pending(k, pc));
    ApplyKeepsSettled(s, CD.Pending(k, pc));
  }

  /** No other ClusterDeployment thread is disturbed. */
  lemma CDCallQuiet(s: Store, k: Key, pc: CD.Pc, k': Key, pc': CD.Pc)
    requires StoreInv(s) && CDThread(s, k, pc) && pc != CD.Idle && k' != k && CDThread(s, k', pc')
    ensures CDThread(Apply(s, CD.Pending(k, pc)), k', pc')
  {
    CDCallChanges(s, k, pc);
    CDCallOnCDs(s, k, pc);
    ApplyVersions(s, CD.Pending(k, pc));
    var s' := Apply(s, CD.Pending(k, pc));
    hide Apply, CD.Pending, WithFinalizer, CD.Proper;
    if CD.Finalizing(pc') {
      assert k'.ns == k.ns ==> !CD.Syncing(pc);
      assert QuietForCD(s, s', k');
    }
    CDThreadStays(s, s', k', pc');
  }

  lemma CDCallQuietForCRs(s: Store, k: Key, pc: CD.Pc)
    requires StoreInv(s) && CDThread(s, k, pc) && pc != CD.Idle
    ensures forall c :: QuietForCR(s, Apply(s, CD.Pending(k, pc)), c)
  {
    CDCallChanges(s, k, pc);
    ApplyVersions(s, CD.Pending(k, pc));
    hide Apply, CD.Pending, WithFinalizer, CD.Proper, CDThread;
  }

  /** What a thread may conclude from the reply to a call about ClusterDeployments, and from its list. */
  lemma CDRepliesOnCDs(s: Store, k: Key, pc: CD.Pc, r: Reply, s': Store)
    requires CDThread(s, k, pc) && pc != CD.Idle && Exec(s, CD.Pending(k, pc), r, s')
    ensures pc.Getting? && r.GotCD? ==> k in s'.cds && s'.cds[k] == r.cd
    ensures pc.AddingFinalizer? && r.GotCD? ==> k in s'.cds && HasFinalizer(s'.cds[k].meta)
    ensures r.Keys? ==> forall e :: e in r.keys ==> e.ns == k.ns
    ensures pc.DeleteListing? && r.Keys? ==> forall c :: c in s'.crs && c.ns == k.ns ==> c in r.keys
  {
    hide Without, CD.Proper, FinalizersAllowed;
    assert pc.AddingFinalizer? ==> FINALIZER in pc.cd.meta.finalizers + [FINALIZER];
  }

  lemma CDReplies(s: Store, k: Key, pc: CD.Pc, r: Reply, s': Store)
    requires StoreInv(s) && CDThread(s, k, pc) && pc != CD.Idle && Exec(s, CD.Pending(k, pc), r, s')
    ensures r.Keys? ==> forall e :: e in r.keys ==> e.ns == k.ns
    ensures pc.Getting? && r.GotCD? ==> k in s'.cds && s'.cds[k] == r.cd
    ensures pc.AddingFinalizer? && r.GotCD? ==> k in s'.cds && HasFinalizer(s'.cds[k].meta)
    ensures pc.DeleteListing? && r.Keys? ==> forall c :: c in s'.crs && c.ns == k.ns ==> c in r.keys
    ensures pc.Deleting? && r == Done ==> pc.todo[0] in s'.crs ==> s'.crs[pc.todo[0]].meta.terminating
    ensures pc.Deleting? ==> forall c :: c in s'.crs && !s'.crs[c].meta.terminating ==> c in s.crs && !s.crs[c].meta.terminating
    ensures pc.SyncGetting? && r.GotCR? ==> SameVersion(s', pc.left[0].key, r.cr)
  {
    CDRepliesOnCDs(s, k, pc, r, s');
    if pc.Deleting? {
      DeleteReply(s, pc.todo[0], r, s');
    } else if pc.SyncGetting? {
      GetReply(s, pc.left[0].key, r, s');
    }
    hide CD.Proper, HasFinalizer, LiveAreGuarded, OneCDPerNamespace, Exec, CD.Pending, SameVersion;
  }

  lemma DeleteReply(s: Store, c: Key, r: Reply, s': Store)
    requires Exec(s, DeleteCR(c), r, s')
    ensures r == Done ==> c in s'.crs ==> s'.crs[c].meta.terminating
    ensures forall o :: o in s'.crs && !s'.crs[o].meta.terminating ==> o in s.crs && !s.crs[o].meta.terminating
  {
    hide HasFinalizer;
  }

  lemma GetReply(s: Store, c: Key, r: Reply, s': Store)
    requires VersionsBelow(s) && Exec(s, GetCR(c), r, s')
    ensures r.GotCR? ==> SameVersion(s', c, r.cr)
  {
  }

  /** Where a thread can have come from. */
  lemma CDAdvanceShapes(k: Key, x: string, pc: CD.Pc, r: Reply)
    requires CD.WellFormed(pc) && pc != CD.Idle
    ensures var next := CD.Advance(k, x, pc, r);
            && (next.Deleting? ==> (pc.DeleteListing? && r.Keys? && next.todo == r.keys)
                                   || (pc.Deleting? && r == Done && next.todo == pc.todo[1..]))
            && (next.RemovingFinalizer? ==> (pc.DeleteListing? && r.Keys? && r.keys == [])
                                            || (pc.Deleting? && r == Done && pc.todo[1..] == []))
            && (next.SyncUpdating? ==> pc.SyncGetting? && r.GotCR? && next.left == pc.left && next.copy == r.cr)
            && !next.Getting?
  {
    hide Extra, Domains, WantedFor;
    if pc.SyncListing? && r.Keys? {
      CD.CollectSyncs(k, x, pc.cd, r.keys, [], pc.cd.spec.bundles);
      CollectNeverUpdates(k, x, pc.cd, r.keys, [], pc.cd.spec.bundles);
    } else if pc.SyncEmail? && r.Email? {
      CD.CollectSyncs(k, x, pc.cd, pc.current, CD.WithBundle(k, x, pc.cd, pc.wanted, pc.rest[0], r.address), pc.rest[1..]);
      CollectNeverUpdates(k, x, pc.cd, pc.current, CD.WithBundle(k, x, pc.cd, pc.wanted, pc.rest[0], r.address), pc.rest[1..]);
    }
  }

  lemma {:induction false} CollectNeverUpdates(k: Key, x: string, cd: Kube.CD, current: seq<Key>, wanted: seq<Wanted>, rest: seq<Bundle>)
    ensures !CD.Collect(k, x, cd, current, wanted, rest).SyncUpdating?
    decreases |rest|
  {
    if rest != [] && !rest[0].generate {
      CollectNeverUpdates(k, x, cd, current, wanted, rest[1..]);
    }
  }

  /** Between the list and the removal of its own finalizer, a deleting thread knows every live
      CertificateRequest of the namespace. */
  lemma CDDeleteMoves(s: Store, k: Key, x: string, pc: CD.Pc, r: Reply, s': Store)
    requires StoreInv(s) && CDThread(s, k, pc) && pc != CD.Idle && Exec(s, CD.Pending(k, pc), r, s')
    ensures var next := CD.Advance(k, x, pc, r);
            && (next.Deleting? ==> forall c :: c in s'.crs && c.ns == k.ns && !s'.crs[c].meta.terminating ==> c in next.todo)
            && (next.RemovingFinalizer? ==> forall c :: c in s'.crs && c.ns == k.ns ==> s'.crs[c].meta.terminating)
  {
    CDReplies(s, k, pc, r, s');
    CDAdvanceShapes(k, x, pc, r);
    hide CD.Advance, CD.Pending, Apply, Answers, CD.Proper, HasFinalizer, StoreInv, SameVersion, Exec;
    if pc.Deleting? && r == Done {
      assert pc.todo == [pc.todo[0]] + pc.todo[1..];
    }
  }

  lemma CDPhaseMoves(s: Store, k: Key, x: string, pc: CD.Pc, r: Reply, s': Store)
    requires StoreInv(s) && CDThread(s, k, pc) && pc != CD.Idle && Exec(s, CD.Pending(k, pc), r, s')
    ensures var next := CD.Advance(k, x, pc, r);
            && (CD.Syncing(next) ==> k in s'.cds && HasFinalizer(s'.cds[k].meta))
            && (CD.Finalizing(next) ==> k in s'.cds && HasFinalizer(s'.cds[k].meta) && s'.cds[k].meta.terminating)
  {
    CDReplies(s, k, pc, r, s');
    CDCallOnCDs(s, k, pc);
    CDAdvanceShapes(k, x, pc, r);
    CD.AdvancePhases(k, x, pc, r);
    hide CD.Advance, CD.Pending, Apply, Answers, CD.Proper, HasFinalizer, StoreInv, SameVersion;
  }

  lemma CDThreadMoves(w: World, k: Key, x: string, r: Reply, w': World)
    requires Inv(w) && CDStep(w, k, x, r, w')
    ensures CDThread(w'.store, k, CDPc(w', k))
  {
    var pc, s, s' := CDPc(w, k), w.store, w'.store;
    ThreadOf(w, k);
    hide StoreInv, GaugeInv, CRThread, CD.Advance, CD.Pending, Exec, HasFinalizer, CD.Syncing, CD.Finalizing, SameVersion;
    CDReplies(s, k, pc, r, s');
    CDDeleteMoves(s, k, x, pc, r, s');
    CDPhaseMoves(s, k, x, pc, r, s');
    CDAdvanceShapes(k, x, pc, r);
    CD.AdvanceProper(k, x, pc, r);
    hide CD.Proper;
  }

  lemma CDStepKeepsInv(w: World, k: Key, x: string, r: Reply, w': World)
    requires Inv(w) && CDStep(w, k, x, r, w')
    ensures Inv(w')
  {
    var pc, s, s' := CDPc(w, k), w.store, w'.store;
    ThreadOf(w, k);
    CDThreadMoves(w, k, x, r, w');
    CDCallStoreInv(s, k, pc);
    CDCallQuietForCRs(s, k, pc);
    CDCallChanges(s, k, pc);
    QuietIsReflexive(s);
    hide CD.Advance, Answers, CRThread, StoreInv, CDThread, QuietForCR;
    forall k' | k' in w'.cdPcs
      ensures CDThread(s', k', w'.cdPcs[k'])
    {
      if k' != k && s' != s {
        CDCallQuiet(s, k, pc, k', w.cdPcs[k']);
      }
    }
    forall k' | k' in w'.crPcs
      ensures CRThread(s', k', w'.crPcs[k'])
    {
      CRThreadStays(s, s', k', w.crPcs[k']);
    }
  }

  // ----- the moves of others -----

  /** Nobody notices: neither thread kind, nor the count of finalizers. */
  ghost predicate Unnoticed(s: Store, s': Store) {
    && (forall k :: QuietForCR(s, s', k))
    && (forall k :: QuietForCD(s, s', k))
    && WithFinalizer(s') == WithFinalizer(s)
  }

  lemma UserWritesCR(s: Store, k: Key, cr: Kube.CR)
    requires StoreInv(s) && k in s.crs && UserMayWrite(s.crs[k].meta, cr.meta)
    ensures Unnoticed(s, PutCR(s, k, cr)) && StoreInv(PutCR(s, k, cr))
  {
    NoneLeft(cr.meta);
    SameFinalizers(cr.meta, cr.meta.(rv := s.rv + 1));
    OneCRChanges(s, PutCR(s, k, cr), k);
  }

  /** One CertificateRequest is replaced by a newer version, or goes away, without its certman finalizer
      or its deletion mark being touched. */
  lemma OneCRChanges(s: Store, s': Store, k: Key)
    requires StoreInv(s) && k in s.crs && s'.cds == s.cds && s'.revoked == s.revoked && s'.rv == s.rv + 1
    requires s'.crs - {k} == s.crs - {k}
    requires k in s'.crs ==>
               && s'.crs[k].meta.rv == s'.rv && !Gone(s'.crs[k].meta)
               && (HasFinalizer(s'.crs[k].meta) <==> HasFinalizer(s.crs[k].meta))
               && (s.crs[k].meta.terminating ==> s'.crs[k].meta.terminating)
    requires k !in s'.crs ==> !HasFinalizer(s.crs[k].meta)
    ensures Unnoticed(s, s') && StoreInv(s')
  {
    hide HasFinalizer, Gone;
    Elsewhere(s.crs, s'.crs, k);
    OneCRUnnoticed(s, s', k);
    GuardsStay(s, s');
    hide Unnoticed, LiveAreGuarded, OneCDPerNamespace;
  }

  lemma OneCRUnnoticed(s: Store, s': Store, k: Key)
    requires VersionsBelow(s) && k in s.crs && s'.cds == s.cds && s'.revoked == s.revoked && s'.rv == s.rv + 1
    requires forall c :: c != k ==> (c in s'.crs <==> c in s.crs) && (c in s.crs ==> s'.crs[c] == s.crs[c])
    requires k in s'.crs ==>
               && s'.crs[k].meta.rv == s'.rv
               && (HasFinalizer(s'.crs[k].meta) <==> HasFinalizer(s.crs[k].meta))
               && (s.crs[k].meta.terminating ==> s'.crs[k].meta.terminating)
    requires k !in s'.crs ==> !HasFinalizer(s.crs[k].meta)
    ensures Unnoticed(s, s') && VersionsBelow(s')
  {
    hide HasFinalizer;
  }

  lemma Elsewhere<V>(m: map<Key, V>, m': map<Key, V>, k: Key)
    requires m' - {k} == m - {k}
    ensures forall c :: c != k ==> (c in m' <==> c in m) && (c in m ==> m'[c] == m[c])
  {
    forall c | c != k
      ensures (c in m' <==> c in m) && (c in m ==> m'[c] == m[c])
    {
      assert c in m <==> c in m - {k};
      assert c in m' <==> c in m' - {k};
      if c in m {
        assert (m - {k})[c] == m[c] && (m' - {k})[c] == m'[c];
      }
    }
  }

  lemma NoneLeft(m: Meta)
    ensures m.finalizers == [] ==> !HasFinalizer(m)
  {
  }

  lemma UserWritesCD(s: Store, k: Key, cd: Kube.CD)
    requires StoreInv(s)
    requires if k in s.cds then
               (HasFinalizer(cd.meta) <==> HasFinalizer(s.cds[k].meta)) && (s.cds[k].meta.terminating ==> cd.meta.terminating)
             else !NamespaceHasCD(s, k.ns)
    ensures Unnoticed(s, PutCD(s, k, cd)) && StoreInv(PutCD(s, k, cd))
  {
    NoneLeft(cd.meta);
    SameFinalizers(cd.meta, cd.meta.(rv := s.rv + 1));
    OneCDChanges(s, PutCD(s, k, cd), k);
  }

  lemma OneCDChanges(s: Store, s': Store, k: Key)
    requires StoreInv(s) && s'.crs == s.crs && s'.revoked == s.revoked && s'.rv == s.rv + 1
    requires s'.cds - {k} == s.cds - {k}
    requires k in s'.cds ==> !Gone(s'.cds[k].meta) && (k in s.cds || !NamespaceHasCD(s, k.ns))
    requires k in s.cds && HasFinalizer(s.cds[k].meta) ==>
               k in s'.cds && HasFinalizer(s'.cds[k].meta) && (s.cds[k].meta.terminating ==> s'.cds[k].meta.terminating)
    ensures Unnoticed(s, s') && StoreInv(s')
  {
    hide HasFinalizer, Gone;
    Elsewhere(s.cds, s'.cds, k);
    GuardsStay(s, s');
  }

  lemma UserDropsCR(s: Store, k: Key)
    requires StoreInv(s)
    ensures Unnoticed(s, Apply(s, DeleteCR(k))) && StoreInv(Apply(s, DeleteCR(k)))
  {
    if k in s.crs && !s.crs[k].meta.terminating {
      NoneLeft(s.crs[k].meta);
      OneCRChanges(s, Apply(s, DeleteCR(k)), k);
    } else {
      ElsewhereUnnoticed(s, s);
    }
  }

  lemma GuardsStay(s: Store, s': Store)
    requires LiveAreGuarded(s)
    requires forall k :: k in s.cds && HasFinalizer(s.cds[k].meta) ==> k in s'.cds && HasFinalizer(s'.cds[k].meta)
    requires forall c :: c in s'.crs && !s'.crs[c].meta.terminating ==> c in s.crs && !s.crs[c].meta.terminating
    ensures LiveAreGuarded(s')
  {
    hide HasFinalizer;
    forall c | c in s'.crs && !s'.crs[c].meta.terminating
      ensures Guarded(s', c.ns)
    {
      var g :| g in s.cds && g.ns == c.ns && HasFinalizer(s.cds[g].meta);
      assert g in s'.cds;
    }
  }

  lemma UserStepUnnoticed(s: Store, mv: Move, s': Store)
    requires StoreInv(s) && UserStep(s, mv, s')
    ensures Unnoticed(s, s') && StoreInv(s')
  {
    hide Unnoticed, StoreInv, HasFinalizer, PutCR, PutCD, Apply, NamespaceHasCD;
    match mv
    case UserCreatesCD(k, cd) =>
      if k in s.cds {
        PresentCD(s, k);
      }
      UserWritesCD(s, k, cd);
    case UserEditsCD(k, cd) => UserWritesCD(s, k, cd);
    case UserDeletesCD(k) =>
      var cd := s.cds[k].(meta := s.cds[k].meta.(terminating := true));
      SameFinalizers(s.cds[k].meta, cd.meta);
      UserWritesCD(s, k, cd);
    case UserEditsCR(k, cr) => UserWritesCR(s, k, cr);
    case UserDeletesCR(k) => UserDropsCR(s, k);
    case SecretsChange(_, _) => ElsewhereUnnoticed(s, s');
    case ClockAdvances(now) => ElsewhereUnnoticed(s, s');
  }

  lemma PresentCD(s: Store, k: Key)
    requires k in s.cds
    ensures NamespaceHasCD(s, k.ns)
  {
  }

  lemma SameFinalizers(a: Meta, b: Meta)
    requires a.finalizers == b.finalizers
    ensures HasFinalizer(a) <==> HasFinalizer(b)
  {
  }

  lemma ElsewhereUnnoticed(s: Store, s': Store)
    requires StoreInv(s) && s'.cds == s.cds && s'.crs == s.crs && s'.revoked == s.revoked && s'.rv == s.rv
    ensures Unnoticed(s, s') && StoreInv(s')
  {
    hide HasFinalizer;
    GuardsStay(s, s');
  }

  lemma UserStepKeepsInv(w: World, mv: Move, w': World)
    requires Inv(w) && UserStep(w.store, mv, w'.store) && w' == w.(store := w'.store)
    ensures Inv(w')
  {
    var s, s' := w.store, w'.store;
    UserStepUnnoticed(s, mv, s');
    hide UserStep, CDThread, CRThread, StoreInv, QuietForCR, WithFinalizer, Adding;
    forall k | k in w'.cdPcs ensures CDThread(s', k, w'.cdPcs[k]) {
      CDThreadStays(s, s', k, w.cdPcs[k]);
    }
    forall k | k in w'.crPcs ensures CRThread(s', k, w'.crPcs[k]) {
      CRThreadStays(s, s', k, w.crPcs[k]);
    }
  }

  lemma StartKeepsInv(w: World, k: Key)
    requires Inv(w)
    ensures CDPc(w, k) == CD.Idle ==> Inv(w.(cdPcs := w.cdPcs[k := CD.Getting]))
    ensures CRPc(w, k) == CR.Idle ==> Inv(w.(crPcs := w.crPcs[k := CR.Getting]))
  {
    hide StoreInv, WithFinalizer, SameVersion;
    if CRPc(w, k) == CR.Idle {
      assert Adding(w.crPcs[k := CR.Getting]) == Adding(w.crPcs);
    }
  }

  /** Every move of the system keeps the invariant. */
  lemma NextKeepsInv(w: World, mv: Move, w': World)
    requires Inv(w) && Next(w, mv, w')
    ensures Inv(w')
  {
    hide StoreInv, CDThread, CRThread, CDStep, CRStep, UserStep;
    match mv
    case StartCD(k) => StartKeepsInv(w, k);
    case StepCD(k, x, r) => CDStepKeepsInv(w, k, x, r, w');
    case StartCR(k) => StartKeepsInv(w, k);
    case StepCR(k, m, r) => CRStepKeepsInv(w, k, m, r, w');
    case OperatorRestarts(b) => assert Adding(map[]) == {};
    case _ => UserStepKeepsInv(w, mv, w');
  }

  lemma InitInv(w: World)
    requires Init(w)
    ensures Inv(w)
  {
    assert Adding(map[]) == {};
  }
}
