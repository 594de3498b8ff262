/** The ClusterDeployment controller as a thread: where a reconcile stands between two calls, which
    call it makes next, and where the reply takes it. */
module CDProtocol {
  import opened GoStrings
  import opened Kube
  import opened Desired

  datatype Pc =
    | Idle
    | Getting
    | DeleteListing(cd: CD)
    | Deleting(cd: CD, todo: seq<Key>)
    | RemovingFinalizer(cd: CD)
    | AddingFinalizer(cd: CD)
    | SyncListing(cd: CD)
    | SyncEmail(cd: CD, current: seq<Key>, wanted: seq<Wanted>, rest: seq<Bundle>)
    | SyncGetting(cd: CD, extra: seq<Key>, left: seq<Wanted>, errs: bool)
    | SyncCreating(cd: CD, extra: seq<Key>, left: seq<Wanted>, errs: bool)
    | SyncUpdating(cd: CD, extra: seq<Key>, left: seq<Wanted>, errs: bool, copy: CR)
    | SyncDeleting(cd: CD, extra: seq<Key>)

  predicate WellFormed(pc: Pc) {
    && (pc.Deleting? ==> pc.todo != [])
    && (pc.SyncEmail? ==> pc.rest != [])
    && ((pc.SyncGetting? || pc.SyncCreating? || pc.SyncUpdating?) ==> pc.left != [])
    && (pc.SyncDeleting? ==> pc.extra != [])
  }

  function Pending(k: Key, pc: Pc): Call
    requires WellFormed(pc) && pc != Idle
  {
    match pc
    case Getting => GetCD(k)
    case DeleteListing(_) => ListCRs(k.ns)
    case Deleting(_, todo) => DeleteCR(todo[0])
    case RemovingFinalizer(cd) => PatchCDFinalizers(k, Without(cd.meta.finalizers, FINALIZER))
    case AddingFinalizer(cd) => PatchCDFinalizers(k, cd.meta.finalizers + [FINALIZER])
    case SyncListing(_) => ListCRs(k.ns)
    case SyncEmail(_, _, _, _) => ReadEmail
    case SyncGetting(_, _, left, _) => GetCR(left[0].key)
    case SyncCreating(_, _, left, _) => CreateCR(left[0].key, left[0].owners, left[0].spec)
    case SyncUpdating(_, _, left, _, copy) => UpdateCR(left[0].key, copy.(spec := left[0].spec))
    case SyncDeleting(_, extra) => DeleteCR(extra[0])
  }

  // ----- local steps, between one reply and the next call -----

  /** The gates at the top of Reconcile. */
  predicate Managed(cd: CD) {
    && cd.managed == Some("true")
    && cd.fake != Some("true")
    && cd.installed
    && RelocationOf(cd) == Staying
  }

  function AfterGet(cd: CD): (pc: Pc)
    ensures WellFormed(pc)
  {
    if !Managed(cd) then Idle
    else if cd.meta.terminating then
      if HasFinalizer(cd.meta) then DeleteListing(cd) else Idle
    else if !HasFinalizer(cd.meta) then AddingFinalizer(cd)
    else SyncListing(cd)
  }

  function NextDelete(cd: CD, todo: seq<Key>): (pc: Pc)
    ensures WellFormed(pc)
  {
    if todo == [] then RemovingFinalizer(cd) else Deleting(cd, todo)
  }

  function Collect(k: Key, extraRecord: string, cd: CD, current: seq<Key>, wanted: seq<Wanted>, rest: seq<Bundle>): (pc: Pc)
    ensures WellFormed(pc)
    decreases |rest|
  {
    if rest == [] then NextWanted(cd, Extra(current, wanted), wanted, false)
    else if rest[0].generate then SyncEmail(cd, current, wanted, rest)
    else Collect(k, extraRecord, cd, current, wanted, rest[1..])
  }

  function NextWanted(cd: CD, extra: seq<Key>, left: seq<Wanted>, errs: bool): (pc: Pc)
    ensures WellFormed(pc)
  {
    if left != [] then SyncGetting(cd, extra, left, errs)
    else if errs then Idle
    else NextExtra(cd, extra)
  }

  function NextExtra(cd: CD, extra: seq<Key>): (pc: Pc)
    ensures WellFormed(pc)
  {
    if extra == [] then Idle else SyncDeleting(cd, extra)
  }

  function WithBundle(k: Key, extraRecord: string, cd: CD, wanted: seq<Wanted>, b: Bundle, email: string): seq<Wanted> {
    if Domains(b, cd, extraRecord) == [] then wanted
    else wanted + [WantedFor(k, cd, b, email, extraRecord)]
  }

  function Advance(k: Key, extraRecord: string, pc: Pc, r: Reply): (next: Pc)
    requires WellFormed(pc) && pc != Idle
    ensures WellFormed(next)
  {
    match pc
    case Getting => if r.GotCD? then AfterGet(r.cd) else Idle
    case DeleteListing(cd) => if r.Keys? then NextDelete(cd, r.keys) else Idle
    case Deleting(cd, todo) => if r == Done then NextDelete(cd, todo[1..]) else Idle
    case RemovingFinalizer(_) => Idle
    case AddingFinalizer(_) => if r.GotCD? then SyncListing(r.cd) else Idle
    case SyncListing(cd) => if r.Keys? then Collect(k, extraRecord, cd, r.keys, [], cd.spec.bundles) else Idle
    case SyncEmail(cd, current, wanted, rest) =>
      if r.Email? then Collect(k, extraRecord, cd, current, WithBundle(k, extraRecord, cd, wanted, rest[0], r.address), rest[1..])
      else Idle
    case SyncGetting(cd, extra, left, errs) =>
      if r == NotFound then SyncCreating(cd, extra, left, errs)
      else if r.GotCR? then
        if r.cr.spec != left[0].spec then SyncUpdating(cd, extra, left, errs, r.cr)
        else NextWanted(cd, extra, left[1..], errs)
      else NextWanted(cd, extra, left[1..], true)
    case SyncCreating(cd, extra, left, errs) => NextWanted(cd, extra, left[1..], errs || r != Done)
    case SyncUpdating(cd, extra, left, errs, _) => NextWanted(cd, extra, left[1..], errs || r != Done)
    case SyncDeleting(cd, extra) => if r == Done then NextExtra(cd, extra[1..]) else Idle
  }

  /** The thread is inside syncCertificateRequests, and so behind the finalizer. */
  predicate Syncing(pc: Pc) {
    pc.SyncListing? || pc.SyncEmail? || pc.SyncGetting? || pc.SyncCreating? || pc.SyncUpdating? || pc.SyncDeleting?
  }

  predicate Finalizing(pc: Pc) {
    pc.DeleteListing? || pc.Deleting? || pc.RemovingFinalizer?
  }

  ghost predicate WantedOk(k: Key, w: Wanted) {
    w.key.ns == k.ns && w.spec.dnsNames != []
  }

  /** Wanted CertificateRequests stay inside the deployment's namespace and are never empty of names. */
  ghost predicate Proper(k: Key, pc: Pc) {
    && WellFormed(pc)
    && (pc.SyncEmail? ==> (forall w :: w in pc.wanted ==> WantedOk(k, w)) && forall e :: e in pc.current ==> e.ns == k.ns)
    && ((pc.SyncGetting? || pc.SyncCreating? || pc.SyncUpdating?) ==>
          (forall w :: w in pc.left ==> WantedOk(k, w)) && forall e :: e in pc.extra ==> e.ns == k.ns)
    && (pc.SyncDeleting? ==> forall e :: e in pc.extra ==> e.ns == k.ns)
    && (pc.Deleting? ==> forall e :: e in pc.todo ==> e.ns == k.ns)
  }

  lemma {:induction false} CollectProper(k: Key, x: string, cd: CD, current: seq<Key>, wanted: seq<Wanted>, rest: seq<Bundle>)
    requires forall w :: w in wanted ==> WantedOk(k, w)
    requires forall e :: e in current ==> e.ns == k.ns
    ensures Proper(k, Collect(k, x, cd, current, wanted, rest))
    decreases |rest|
  {
    if rest != [] && !rest[0].generate {
      CollectProper(k, x, cd, current, wanted, rest[1..]);
    }
  }

  lemma AdvanceProper(k: Key, x: string, pc: Pc, r: Reply)
    requires Proper(k, pc) && pc != Idle
    requires r.Keys? ==> forall e :: e in r.keys ==> e.ns == k.ns
    ensures Proper(k, Advance(k, x, pc, r))
  {
    if pc.SyncListing? && r.Keys? {
      CollectProper(k, x, pc.cd, r.keys, [], pc.cd.spec.bundles);
    } else if pc.SyncEmail? && r.Email? {
      CollectProper(k, x, pc.cd, pc.current, WithBundle(k, x, pc.cd, pc.wanted, pc.rest[0], r.address), pc.rest[1..]);
    }
  }

  lemma {:induction false} CollectSyncs(k: Key, x: string, cd: CD, current: seq<Key>, wanted: seq<Wanted>, rest: seq<Bundle>)
    ensures var pc := Collect(k, x, cd, current, wanted, rest);
            pc == Idle || (Syncing(pc) && !pc.SyncCreating? && pc.cd == cd)
    decreases |rest|
  {
    if rest != [] && !rest[0].generate {
      CollectSyncs(k, x, cd, current, wanted, rest[1..]);
    }
  }

  /** Sync is entered only behind the finalizer, and finalization never turns into sync. */
  lemma AdvancePhases(k: Key, x: string, pc: Pc, r: Reply)
    requires WellFormed(pc) && pc != Idle
    ensures var next := Advance(k, x, pc, r);
            && (Syncing(next) ==> Syncing(pc) || (pc.Getting? && r.GotCD? && HasFinalizer(r.cd.meta) && !r.cd.meta.terminating)
                                  || (pc.AddingFinalizer? && r.GotCD?))
            && (Finalizing(next) ==> Finalizing(pc) || (pc.Getting? && r.GotCD? && HasFinalizer(r.cd.meta) && r.cd.meta.terminating))
            && (next.SyncCreating? ==> pc.SyncGetting?)
  {
    if pc.SyncListing? && r.Keys? {
      CollectSyncs(k, x, pc.cd, r.keys, [], pc.cd.spec.bundles);
    } else if pc.SyncEmail? && r.Email? {
      CollectSyncs(k, x, pc.cd, pc.current, WithBundle(k, x, pc.cd, pc.wanted, pc.rest[0], r.address), pc.rest[1..]);
    }
  }
}
