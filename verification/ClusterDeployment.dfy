/** The ClusterDeployment reconciler as the code it is. Its calls are exactly those of the protocol
    thread, and with nobody else writing its sync is a function of the store. */
module ClusterDeploymentController {
  import opened GoStrings
  import opened Certificates
  import opened Kube
  import opened Desired
  import opened Api
  import Proto = CDProtocol

  // ----- what a sync does when nothing fails and nobody interferes -----

  /** One wanted CertificateRequest brought about: created, updated, or left alone. */
  function Ensured(s: Store, w: Wanted): Store {
    if w.key !in s.crs then Apply(s, CreateCR(w.key, w.owners, w.spec))
    else if s.crs[w.key].spec != w.spec then Apply(s, UpdateCR(w.key, s.crs[w.key].(spec := w.spec)))
    else s
  }

  lemma EnsuredBranches(s: Store, w: Wanted)
    ensures w.key !in s.crs ==> Ensured(s, w) == Apply(s, CreateCR(w.key, w.owners, w.spec))
    ensures w.key in s.crs && s.crs[w.key].spec != w.spec ==> Ensured(s, w) == Apply(s, UpdateCR(w.key, s.crs[w.key].(spec := w.spec)))
    ensures w.key in s.crs && s.crs[w.key].spec == w.spec ==> Ensured(s, w) == s
    ensures AllPresent(s, [w]) ==> w.key in s.crs && s.crs[w.key].spec == w.spec
  {
    assert w in [w];
  }

  function EnsuredAll(s: Store, ws: seq<Wanted>): Store {
    if ws == [] then s else Ensured(EnsuredAll(s, ws[..|ws| - 1]), ws[|ws| - 1])
  }

  function DeletedAll(s: Store, keys: seq<Key>): Store {
    if keys == [] then s else Apply(DeletedAll(s, keys[..|keys| - 1]), DeleteCR(keys[|keys| - 1]))
  }

  /** The wanted list of a deployment, one entry for each generating bundle with domains. */
  function WantedAll(k: Key, x: string, cd: CD, bundles: seq<Bundle>, email: string): seq<Wanted> {
    if bundles == [] then []
    else
      var b := bundles[|bundles| - 1];
      var before := WantedAll(k, x, cd, bundles[..|bundles| - 1], email);
      if b.generate then Proto.WithBundle(k, x, cd, before, b, email) else before
  }

  /** The names and domains of that list, which do not depend on the notification address. */
  function WantedNames(k: Key, x: string, cd: CD, bundles: seq<Bundle>): seq<(Key, seq<string>)> {
    if bundles == [] then []
    else
      var b := bundles[|bundles| - 1];
      WantedNames(k, x, cd, bundles[..|bundles| - 1]) +
      (if b.generate && Domains(b, cd, x) != [] then [(NameFor(k, b), Domains(b, cd, x))] else [])
  }

  function NamesOf(ws: seq<Wanted>): seq<(Key, seq<string>)> {
    seq(|ws|, i requires 0 <= i < |ws| => (ws[i].key, ws[i].spec.dnsNames))
  }

  lemma NamesAppend(ws: seq<Wanted>, k: Key, x: string, cd: CD, b: Bundle, email: string)
    ensures NamesOf(ws + [WantedFor(k, cd, b, email, x)]) == NamesOf(ws) + [(NameFor(k, b), Domains(b, cd, x))]
  {
    hide Domains;
  }

  lemma NamesWith(ws: seq<Wanted>, k: Key, x: string, cd: CD, b: Bundle, email: string)
    ensures NamesOf(Proto.WithBundle(k, x, cd, ws, b, email))
            == NamesOf(ws) + if Domains(b, cd, x) != [] then [(NameFor(k, b), Domains(b, cd, x))] else []
  {
    hide Domains;
    NamesAppend(ws, k, x, cd, b, email);
  }

  lemma NoBundles(k: Key, x: string, cd: CD, email: string)
    ensures WantedAll(k, x, cd, [], email) == [] && WantedNames(k, x, cd, []) == []
  {
  }

  /** One more bundle in the wanted list and in its names. */
  lemma WantedStep(k: Key, x: string, cd: CD, bundles: seq<Bundle>, i: nat, email: string)
    requires i < |bundles|
    ensures WantedAll(k, x, cd, bundles[..i + 1], email)
            == var before := WantedAll(k, x, cd, bundles[..i], email);
               if bundles[i].generate then Proto.WithBundle(k, x, cd, before, bundles[i], email) else before
    ensures WantedNames(k, x, cd, bundles[..i + 1])
            == WantedNames(k, x, cd, bundles[..i])
               + if bundles[i].generate && Domains(bundles[i], cd, x) != [] then [(NameFor(k, bundles[i]), Domains(bundles[i], cd, x))] else []
  {
    hide Domains, Proto.WithBundle;
    assert bundles[..i + 1][..i] == bundles[..i];
  }

  /** Where the bundle loop of the thread stands at bundle i, and after the last one. */
  lemma CollectStep(k: Key, x: string, cd: CD, current: seq<Key>, wanted: seq<Wanted>, bundles: seq<Bundle>, i: nat)
    requires i < |bundles|
    ensures bundles[i..] != [] && bundles[i..][0] == bundles[i] && bundles[i..][1..] == bundles[i + 1..]
    ensures Proto.Collect(k, x, cd, current, wanted, bundles[i..])
            == if bundles[i].generate then Proto.SyncEmail(cd, current, wanted, bundles[i..])
               else Proto.Collect(k, x, cd, current, wanted, bundles[i + 1..])
  {
    hide Extra, Proto.NextWanted;
    assert bundles[i..][1..] == bundles[i + 1..];
  }

  lemma CollectDone(k: Key, x: string, cd: CD, current: seq<Key>, wanted: seq<Wanted>)
    ensures Proto.Collect(k, x, cd, current, wanted, []) == Proto.NextWanted(cd, Extra(current, wanted), wanted, false)
  {
  }

  /** The last generating bundle with domains whose lower-cased name makes this key. */
  function LastBundle(k: Key, x: string, cd: CD, bundles: seq<Bundle>, c: Key): Option<Bundle> {
    if bundles == [] then None
    else
      var b := bundles[|bundles| - 1];
      if b.generate && Domains(b, cd, x) != [] && NameFor(k, b) == c then Some(b)
      else LastBundle(k, x, cd, bundles[..|bundles| - 1], c)
  }

  /** What the namespace is synced to: for every key the spec of the last such bundle, never without names,
      and all of it inside the deployment's namespace. */
  lemma {:induction false} LastBundleWins(k: Key, x: string, cd: CD, bundles: seq<Bundle>, email: string, c: Key)
    ensures LastSpec(WantedAll(k, x, cd, bundles, email), c)
            == (match LastBundle(k, x, cd, bundles, c)
                case None => None
                case Some(b) => Some(WantedFor(k, cd, b, email, x).spec))
    ensures forall w :: w in WantedAll(k, x, cd, bundles, email) ==> w.key.ns == k.ns && w.spec.dnsNames != []
    ensures NamesOf(WantedAll(k, x, cd, bundles, email)) == WantedNames(k, x, cd, bundles)
  {
    hide Domains;
    if bundles != [] {
      var front, b := bundles[..|bundles| - 1], bundles[|bundles| - 1];
      LastBundleWins(k, x, cd, front, email, c);
      var before := WantedAll(k, x, cd, front, email);
      var w := WantedFor(k, cd, b, email, x);
      assert (before + [w])[..|before|] == before;
    }
  }

  /** The spec the last entry with this key asks for. */
  function LastSpec(ws: seq<Wanted>, k: Key): Option<CRSpec> {
    if ws == [] then None
    else if ws[|ws| - 1].key == k then Some(ws[|ws| - 1].spec)
    else LastSpec(ws[..|ws| - 1], k)
  }

  ghost predicate SameElsewhere(s: Store, s': Store) {
    s'.cds == s.cds && s'.secrets == s.secrets && s'.revoked == s.revoked && s'.email == s.email && s'.now == s.now
  }

  lemma EnsuredOne(s: Store, w: Wanted)
    requires Settled(s)
    ensures var s' := Ensured(s, w);
            && Settled(s') && SameElsewhere(s, s')
            && w.key in s'.crs && s'.crs[w.key].spec == w.spec
            && (forall c :: c != w.key ==> (c in s'.crs <==> c in s.crs) && (c in s.crs ==> s'.crs[c] == s.crs[c]))
  {
    hide HasFinalizer;
  }

  lemma {:induction false} EnsuredAllReaches(s: Store, ws: seq<Wanted>)
    requires Settled(s)
    ensures var s' := EnsuredAll(s, ws);
            && Settled(s') && SameElsewhere(s, s')
            && (forall c :: LastSpec(ws, c).Some? ==> c in s'.crs && s'.crs[c].spec == LastSpec(ws, c).value)
            && (forall c :: LastSpec(ws, c) == None ==> (c in s'.crs <==> c in s.crs) && (c in s.crs ==> s'.crs[c] == s.crs[c]))
  {
    hide Ensured, Settled;
    if ws != [] {
      EnsuredAllReaches(s, ws[..|ws| - 1]);
      EnsuredOne(EnsuredAll(s, ws[..|ws| - 1]), ws[|ws| - 1]);
    }
  }

  /** What deleting one key does. */
  lemma DeletedOne(s: Store, k: Key)
    ensures var s' := Apply(s, DeleteCR(k));
            && SameElsewhere(s, s')
            && (k in s'.crs ==> k in s.crs && s'.crs[k].meta.terminating)
            && (forall c :: c != k ==> (c in s'.crs <==> c in s.crs) && (c in s.crs ==> s'.crs[c] == s.crs[c]))
  {
  }

  lemma {:induction false} DeletedAllReaches(s: Store, keys: seq<Key>)
    requires Settled(s)
    ensures var s' := DeletedAll(s, keys);
            && Settled(s') && SameElsewhere(s, s')
            && (forall c :: c in s'.crs ==> c in s.crs)
            && (forall c :: c in keys && c in s'.crs ==> s'.crs[c].meta.terminating)
            && (forall c :: c !in keys && c in s.crs ==> c in s'.crs && s'.crs[c] == s.crs[c])
            && (forall c :: c in s.crs && c in s'.crs ==> s.crs[c].meta.terminating ==> s'.crs[c].meta.terminating)
  {
    hide HasFinalizer, Apply, Settled;
    if keys != [] {
      var front, last := keys[..|keys| - 1], keys[|keys| - 1];
      DeletedAllReaches(s, front);
      ApplyKeepsSettled(DeletedAll(s, front), DeleteCR(last));
      DeletedOne(DeletedAll(s, front), last);
      assert keys == front + [last];
    }
  }

  /** The namespace is as the deployment wants it: every wanted name exists with the last bundle's spec,
      and everything else there is on its way out. */
  ghost predicate Synced(s: Store, ns: string, ws: seq<Wanted>) {
    && (forall c :: LastSpec(ws, c).Some? ==> c in s.crs && s.crs[c].spec == LastSpec(ws, c).value)
    && (forall c :: c in s.crs && c.ns == ns && (forall w :: w in ws ==> w.key != c) ==> s.crs[c].meta.terminating)
  }

  lemma {:induction false} LastSpecNamed(ws: seq<Wanted>, c: Key)
    ensures LastSpec(ws, c).Some? ==> Names(ws, c) && exists w :: w in ws && w.key == c && LastSpec(ws, c) == Some(w.spec)
    ensures (exists w :: w in ws && w.key == c) ==> LastSpec(ws, c).Some?
  {
    if ws != [] && ws[|ws| - 1].key != c {
      LastSpecNamed(ws[..|ws| - 1], c);
      assert ws == ws[..|ws| - 1] + [ws[|ws| - 1]];
      if LastSpec(ws, c).Some? {
        var w :| w in ws[..|ws| - 1] && w.key == c && LastSpec(ws, c) == Some(w.spec);
        assert w in ws;
        var i :| 0 <= i < |ws| && ws[i] == w;
      }
    } else if ws != [] {
      assert ws[|ws| - 1] in ws;
    }
  }

  /** By name or by key is the same inside one namespace. */
  lemma Unnamed(ws: seq<Wanted>, c: Key)
    ensures !Names(ws, c) ==> forall w :: w in ws ==> w.key != c
    ensures (forall w :: w in ws ==> w.key.ns == c.ns) && (forall w :: w in ws ==> w.key != c) ==> !Names(ws, c)
  {
    if Names(ws, c) {
      var i :| 0 <= i < |ws| && ws[i].key.name == c.name;
      assert ws[i] in ws;
    } else {
      forall w | w in ws
        ensures w.key != c
      {
        var i :| 0 <= i < |ws| && ws[i] == w;
      }
    }
  }

  /** A whole sync brings the namespace to the wanted state and leaves other namespaces alone. */
  lemma SyncReaches(s: Store, ns: string, ws: seq<Wanted>, current: seq<Key>)
    requires Settled(s)
    requires forall w :: w in ws ==> w.key.ns == ns
    requires forall k :: k in current <==> k in s.crs && k.ns == ns
    ensures var s' := DeletedAll(EnsuredAll(s, ws), Extra(current, ws));
            && Synced(s', ns, ws) && Settled(s') && SameElsewhere(s, s')
            && (forall c: Key :: c.ns != ns ==> (c in s'.crs <==> c in s.crs) && (c in s.crs ==> s'.crs[c] == s.crs[c]))
            && (forall c :: c in s'.crs ==> c in s.crs || LastSpec(ws, c).Some?)
  {
    hide Ensured, Settled, Apply, Names;
    EnsuredAllReaches(s, ws);
    var s1 := EnsuredAll(s, ws);
    DeletedAllReaches(s1, Extra(current, ws));
    forall c
      ensures LastSpec(ws, c).Some? ==> Names(ws, c) && c.ns == ns
      ensures c.ns == ns && (forall w :: w in ws ==> w.key != c) ==> !Names(ws, c) && LastSpec(ws, c) == None
    {
      LastSpecNamed(ws, c);
      Unnamed(ws, c);
    }
  }

  /** Entries with the same key ask for the same spec. */
  predicate Agreeing(ws: seq<Wanted>) {
    forall i, j :: 0 <= i < |ws| && 0 <= j < |ws| && ws[i].key == ws[j].key ==> ws[i].spec == ws[j].spec
  }

  lemma {:induction false} AgreeingLast(ws: seq<Wanted>, i: nat)
    requires Agreeing(ws) && i < |ws|
    ensures LastSpec(ws, ws[i].key) == Some(ws[i].spec)
  {
    if ws[|ws| - 1].key != ws[i].key {
      AgreeingLast(ws[..|ws| - 1], i);
    }
  }

  lemma {:induction false} EnsuredAllStill(s: Store, ws: seq<Wanted>)
    requires forall w :: w in ws ==> w.key in s.crs && s.crs[w.key].spec == w.spec
    ensures EnsuredAll(s, ws) == s
  {
    if ws != [] {
      EnsuredAllStill(s, ws[..|ws| - 1]);
    }
  }

  lemma {:induction false} DeletedAllStill(s: Store, keys: seq<Key>)
    requires forall k :: k in keys && k in s.crs ==> s.crs[k].meta.terminating
    ensures DeletedAll(s, keys) == s
  {
    if keys != [] {
      DeletedAllStill(s, keys[..|keys| - 1]);
    }
  }

  /** If entries of one key agree, a sync of a synced namespace, listed in any order, is the identity; each
      wanted CertificateRequest is found as it should be, so that nothing is created or updated. */
  lemma SyncAgainIsIdle(s: Store, ns: string, ws: seq<Wanted>, current: seq<Key>)
    requires Synced(s, ns, ws) && Agreeing(ws)
    requires forall k :: k in current <==> k in s.crs && k.ns == ns
    ensures DeletedAll(EnsuredAll(s, ws), Extra(current, ws)) == s
    ensures AllPresent(s, ws) && AllLeaving(s, Extra(current, ws))
  {
    forall w | w in ws
      ensures w.key in s.crs && s.crs[w.key].spec == w.spec
    {
      var i :| 0 <= i < |ws| && ws[i] == w;
      AgreeingLast(ws, i);
    }
    EnsuredAllStill(s, ws);
    forall c | c in Extra(current, ws)
      ensures forall w :: w in ws ==> w.key != c
    {
      Unnamed(ws, c);
    }
    DeletedAllStill(s, Extra(current, ws));
  }

  /** A pass over the wanted list never takes the store's version back, and what is not as wanted is rewritten. */
  lemma EnsuredVersion(s: Store, w: Wanted)
    ensures s.rv <= Ensured(s, w).rv
    ensures Settled(s) && Ensured(s, w).rv == s.rv ==> Ensured(s, w) == s && w.key in s.crs && s.crs[w.key].spec == w.spec
  {
  }

  lemma {:induction false} EnsuredAllVersion(s: Store, ws: seq<Wanted>)
    requires Settled(s)
    ensures s.rv <= EnsuredAll(s, ws).rv
    ensures EnsuredAll(s, ws).rv == s.rv ==> EnsuredAll(s, ws) == s && AllPresent(s, ws)
  {
    hide Ensured, Settled;
    if ws != [] {
      var front, last := ws[..|ws| - 1], ws[|ws| - 1];
      EnsuredAllVersion(s, front);
      EnsuredAllReaches(s, front);
      EnsuredVersion(EnsuredAll(s, front), last);
      assert ws == front + [last];
    }
  }

  lemma {:induction false} DeletedAllVersion(s: Store, keys: seq<Key>)
    ensures s.rv <= DeletedAll(s, keys).rv
  {
    hide HasFinalizer;
    if keys != [] {
      DeletedAllVersion(s, keys[..|keys| - 1]);
    }
  }

  lemma PresentAgree(s: Store, ws: seq<Wanted>)
    requires AllPresent(s, ws)
    ensures Agreeing(ws)
  {
    forall i, j | 0 <= i < |ws| && 0 <= j < |ws| && ws[i].key == ws[j].key
      ensures ws[i].spec == ws[j].spec
    {
      assert ws[i] in ws && ws[j] in ws;
    }
  }

  /** Once a sync has gone through, the next one changes nothing if and only if bundles that make the same
      key ask for the same spec; otherwise it rewrites, and so does every one after it. */
  lemma SecondSyncIsIdleIff(s: Store, ns: string, ws: seq<Wanted>, current: seq<Key>, again: seq<Key>)
    requires Settled(s)
    requires forall w :: w in ws ==> w.key.ns == ns
    requires forall k :: k in current <==> k in s.crs && k.ns == ns
    requires var s' := DeletedAll(EnsuredAll(s, ws), Extra(current, ws));
             forall k :: k in again <==> k in s'.crs && k.ns == ns
    ensures var s' := DeletedAll(EnsuredAll(s, ws), Extra(current, ws));
            DeletedAll(EnsuredAll(s', ws), Extra(again, ws)) == s' <==> Agreeing(ws)
  {
    hide Ensured, Settled, Apply, Names, Synced, EnsuredAll, DeletedAll, Agreeing, AllPresent, Extra;
    SyncReaches(s, ns, ws, current);
    var s' := DeletedAll(EnsuredAll(s, ws), Extra(current, ws));
    if Agreeing(ws) {
      SyncAgainIsIdle(s', ns, ws, again);
    } else {
      RewritesOnClash(s', ws);
      DeletedAllVersion(EnsuredAll(s', ws), Extra(again, ws));
    }
  }

  /** The same for the create/update loop alone, from any store. */
  lemma EnsuringAgainIsIdleIff(s: Store, ws: seq<Wanted>)
    requires Settled(s)
    ensures var s' := EnsuredAll(s, ws); EnsuredAll(s', ws) == s' <==> Agreeing(ws)
  {
    hide Ensured, Settled;
    EnsuredAllReaches(s, ws);
    var s' := EnsuredAll(s, ws);
    if Agreeing(ws) {
      forall w | w in ws
        ensures w.key in s'.crs && s'.crs[w.key].spec == w.spec
      {
        var i :| 0 <= i < |ws| && ws[i] == w;
        AgreeingLast(ws, i);
      }
      EnsuredAllStill(s', ws);
    } else {
      RewritesOnClash(s', ws);
    }
  }

  /** A bundle that is asked a CertificateRequest for. */
  predicate Asks(x: string, cd: CD, b: Bundle) {
    b.generate && Domains(b, cd, x) != []
  }

  /** The CertificateRequest a bundle makes: the deployment's name, a dash and the bundle's, in lower case. */
  function RequestKey(k: Key, b: Bundle): Key {
    Key(k.ns, ToLower(k.name + "-" + b.name))
  }

  /** Bundle i asks, and no later bundle asks for the same CertificateRequest. */
  ghost predicate LastAsking(k: Key, x: string, cd: CD, i: nat) {
    && i < |cd.spec.bundles| && Asks(x, cd, cd.spec.bundles[i])
    && forall j :: i < j < |cd.spec.bundles| && Asks(x, cd, cd.spec.bundles[j]) ==>
         RequestKey(k, cd.spec.bundles[j]) != RequestKey(k, cd.spec.bundles[i])
  }

  /** The namespace in terms of the deployment's fields: for each last asking bundle its CertificateRequest is
      stored with the spec that describes it, and everything no bundle asks for is on its way out. */
  ghost predicate AsWanted(s: Store, k: Key, x: string, cd: CD, email: string) {
    && (forall i: nat :: LastAsking(k, x, cd, i) ==>
          var b := cd.spec.bundles[i];
          RequestKey(k, b) in s.crs && Describes(s.crs[RequestKey(k, b)].spec, cd, b, Domains(b, cd, x), email))
    && (forall c :: c in s.crs && c.ns == k.ns && (forall b :: b in cd.spec.bundles && Asks(x, cd, b) ==> RequestKey(k, b) != c) ==>
          s.crs[c].meta.terminating)
  }

  lemma {:induction false} LastBundleAt(k: Key, x: string, cd: CD, bundles: seq<Bundle>, i: nat)
    requires i < |bundles| && Asks(x, cd, bundles[i])
    requires forall j :: i < j < |bundles| && Asks(x, cd, bundles[j]) ==> RequestKey(k, bundles[j]) != RequestKey(k, bundles[i])
    ensures LastBundle(k, x, cd, bundles, RequestKey(k, bundles[i])) == Some(bundles[i])
  {
    hide Domains, ToLower;
    if i < |bundles| - 1 {
      LastBundleAt(k, x, cd, bundles[..|bundles| - 1], i);
    }
  }

  /** A synced namespace is as the deployment's fields say. */
  lemma SyncedIsAsWanted(s: Store, k: Key, x: string, cd: CD, email: string)
    requires Synced(s, k.ns, WantedAll(k, x, cd, cd.spec.bundles, email))
    ensures AsWanted(s, k, x, cd, email)
  {
    var ws := WantedAll(k, x, cd, cd.spec.bundles, email);
    forall i: nat | LastAsking(k, x, cd, i)
      ensures var b := cd.spec.bundles[i];
              RequestKey(k, b) in s.crs && Describes(s.crs[RequestKey(k, b)].spec, cd, b, Domains(b, cd, x), email)
    {
      var b := cd.spec.bundles[i];
      LastBundleAt(k, x, cd, cd.spec.bundles, i);
      LastBundleWins(k, x, cd, cd.spec.bundles, email, RequestKey(k, b));
      hide Domains, ToLower, WantedAll, LastBundle;
    }
    forall c | c in s.crs && c.ns == k.ns && forall b :: b in cd.spec.bundles && Asks(x, cd, b) ==> RequestKey(k, b) != c
      ensures s.crs[c].meta.terminating
    {
      forall w | w in ws
        ensures w.key != c
      {
        WantedMembers(k, x, cd, cd.spec.bundles, email, w);
      }
    }
  }

  lemma {:induction false} WantedMembers(k: Key, x: string, cd: CD, bundles: seq<Bundle>, email: string, w: Wanted)
    ensures w in WantedAll(k, x, cd, bundles, email) <==> exists b :: b in bundles && Asks(x, cd, b) && w == WantedFor(k, cd, b, email, x)
  {
    hide Domains, WantedFor;
    if bundles != [] {
      var front, last := bundles[..|bundles| - 1], bundles[|bundles| - 1];
      WantedMembers(k, x, cd, front, email, w);
      assert bundles == front + [last];
      if w in WantedAll(k, x, cd, front, email) {
        var b :| b in front && Asks(x, cd, b) && w == WantedFor(k, cd, b, email, x);
        assert b in bundles;
      } else if w in WantedAll(k, x, cd, bundles, email) {
        assert last in bundles && Asks(x, cd, last) && w == WantedFor(k, cd, last, email, x);
      }
    }
  }

  /** In the terms of the deployment: the wanted list agrees with itself if and only if generating bundles
      with domains whose names are equal up to case have the same secret and the same domains. */
  ghost predicate BundlesAgree(x: string, cd: CD, bundles: seq<Bundle>) {
    forall a, b :: a in bundles && b in bundles && Asks(x, cd, a) && Asks(x, cd, b) && ToLower(a.name) == ToLower(b.name) ==>
      a.secretName == b.secretName && Domains(a, cd, x) == Domains(b, cd, x)
  }

  lemma AgreeingBundles(k: Key, x: string, cd: CD, bundles: seq<Bundle>, email: string)
    ensures Agreeing(WantedAll(k, x, cd, bundles, email)) <==> BundlesAgree(x, cd, bundles)
  {
    var ws := WantedAll(k, x, cd, bundles, email);
    forall a, b | a in bundles && b in bundles && Asks(x, cd, a) && Asks(x, cd, b)
      ensures var v, w := WantedFor(k, cd, a, email, x), WantedFor(k, cd, b, email, x);
              v in ws && w in ws && (v.key == w.key <==> ToLower(a.name) == ToLower(b.name))
              && (v.spec == w.spec <==> a.secretName == b.secretName && Domains(a, cd, x) == Domains(b, cd, x))
    {
      WantedMembers(k, x, cd, bundles, email, WantedFor(k, cd, a, email, x));
      WantedMembers(k, x, cd, bundles, email, WantedFor(k, cd, b, email, x));
      SameName(k, a, b);
    }
    forall w | w in ws
      ensures exists b :: b in bundles && Asks(x, cd, b) && w == WantedFor(k, cd, b, email, x)
    {
      WantedMembers(k, x, cd, bundles, email, w);
    }
    hide WantedAll, WantedFor, Domains, Asks, ToLower;
    AgreeingByMembers(ws);
  }

  /** A deployment whose bundles clash: "A" and "a" make one key and want different secrets. */
  lemma CaseClash() returns (cd: CD)
    ensures !BundlesAgree("", cd, cd.spec.bundles)
  {
    var upper, lower := Bundle("A", "s", true), Bundle("a", "t", true);
    cd := CD(Meta(0, [], false), None, None, None, true,
             CDSpec("c", "d", "", [AdditionalCert("A", "x"), AdditionalCert("a", "x")], [], [upper, lower], None, None, None, "", ""));
    DomainsExactly(upper, cd, "", "x");
    DomainsExactly(lower, cd, "", "x");
    assert cd.spec.additional[0].name == "A" && cd.spec.additional[1].name == "a";
    assert "x" in Domains(upper, cd, "") && "x" in Domains(lower, cd, "");
    assert ToLower("A") == "a" == ToLower("a");
    assert upper in cd.spec.bundles && lower in cd.spec.bundles && Asks("", cd, upper) && Asks("", cd, lower);
  }

  lemma AgreeingByMembers(ws: seq<Wanted>)
    ensures Agreeing(ws) <==> forall v, w :: v in ws && w in ws && v.key == w.key ==> v.spec == w.spec
  {
  }

  lemma SameName(k: Key, a: Bundle, b: Bundle)
    ensures NameFor(k, a) == NameFor(k, b) <==> ToLower(a.name) == ToLower(b.name)
  {
    LowerConcat(k.name + "-", a.name);
    LowerConcat(k.name + "-", b.name);
    var p := ToLower(k.name + "-");
    assert (p + ToLower(a.name))[|p|..] == ToLower(a.name) && (p + ToLower(b.name))[|p|..] == ToLower(b.name);
  }

  /** Every CertificateRequest a sync adds is owned as its wanted entry says. */
  ghost predicate NewOwnedBy(s: Store, s': Store, owners: seq<OwnerRef>) {
    forall c :: c in s'.crs && c !in s.crs ==> s'.crs[c].owners == owners
  }

  lemma {:induction false} EnsuredAllOwned(s: Store, ws: seq<Wanted>, owners: seq<OwnerRef>)
    requires Settled(s) && forall w :: w in ws ==> w.owners == owners
    ensures NewOwnedBy(s, EnsuredAll(s, ws), owners)
  {
    if ws != [] {
      var front, last := ws[..|ws| - 1], ws[|ws| - 1];
      EnsuredAllOwned(s, front, owners);
      EnsuredOwned(EnsuredAll(s, front), last);
    }
  }

  lemma EnsuredOwned(s: Store, w: Wanted)
    ensures NewOwnedBy(s, Ensured(s, w), w.owners)
    ensures forall c :: c in s.crs && c in Ensured(s, w).crs ==> Ensured(s, w).crs[c].owners == s.crs[c].owners
  {
    hide HasFinalizer;
  }

  lemma {:induction false} DeletedAllOwned(s: Store, keys: seq<Key>)
    ensures forall c :: c in DeletedAll(s, keys).crs ==> c in s.crs && DeletedAll(s, keys).crs[c].owners == s.crs[c].owners
  {
    hide HasFinalizer;
    if keys != [] {
      DeletedAllOwned(s, keys[..|keys| - 1]);
    }
  }

  /** What a sync adds is owned by the deployment. */
  lemma SyncOwned(s: Store, k: Key, x: string, cd: CD, email: string, keys: seq<Key>)
    requires Settled(s)
    ensures NewOwnedBy(s, DeletedAll(EnsuredAll(s, WantedAll(k, x, cd, cd.spec.bundles, email)), keys), [OwnerRef("ClusterDeployment", k.name)])
  {
    var ws := WantedAll(k, x, cd, cd.spec.bundles, email);
    forall w | w in ws
      ensures w.owners == [OwnerRef("ClusterDeployment", k.name)]
    {
      WantedMembers(k, x, cd, cd.spec.bundles, email, w);
    }
    hide WantedAll, EnsuredAll, DeletedAll;
    EnsuredAllOwned(s, ws, [OwnerRef("ClusterDeployment", k.name)]);
    DeletedAllOwned(EnsuredAll(s, ws), keys);
  }

  /** Bundles that disagree about a key, as two whose names differ only in case may, make every sync write. */
  lemma RewritesOnClash(s: Store, ws: seq<Wanted>)
    requires Settled(s) && !Agreeing(ws)
    ensures EnsuredAll(s, ws).rv > s.rv
  {
    hide Ensured, Settled, Agreeing, AllPresent;
    EnsuredAllVersion(s, ws);
    if EnsuredAll(s, ws).rv == s.rv {
      PresentAgree(s, ws);
    }
  }

  /** What the wanted list and the listing of a store mean for a sync that starts from it. */
  lemma SyncFacts(s: Store, k: Key, x: string, cd: CD, ws: seq<Wanted>, current: seq<Key>)
    requires ws == WantedAll(k, x, cd, cd.spec.bundles, s.email)
    requires forall c :: c in current <==> c in s.crs && c.ns == k.ns
    ensures var s' := DeletedAll(EnsuredAll(s, ws), Extra(current, ws));
            Settled(s) ==> Synced(s', k.ns, ws) && SameElsewhere(s, s')
    ensures Synced(s, k.ns, ws) && Agreeing(ws) ==> AllPresent(s, ws) && AllLeaving(s, Extra(current, ws))
  {
    hide WantedAll, Names, Settled, Agreeing, Synced, AllPresent, AllLeaving, EnsuredAll, DeletedAll, Extra;
    LastBundleWins(k, x, cd, cd.spec.bundles, s.email, k);
    if Settled(s) {
      SyncReaches(s, k.ns, ws, current);
    }
    if Synced(s, k.ns, ws) && Agreeing(ws) {
      SyncAgainIsIdle(s, k.ns, ws, current);
    }
  }

  // ----- the reconciler -----

  datatype Step = Step(call: Call, reply: Reply)

  /** A wanted CertificateRequest was fetched, and created or updated if need be, without an error. */
  ghost predicate Handled(log: seq<Step>, w: Wanted) {
    exists j :: 0 <= j < |log| && HandledAt(log, w, j)
  }

  ghost predicate HandledAt(log: seq<Step>, w: Wanted, j: nat)
    requires j < |log|
  {
    && log[j].call == GetCR(w.key)
    && (|| (log[j].reply.GotCR? && log[j].reply.cr.spec == w.spec)
        || (j + 1 < |log| && log[j + 1].reply == Done &&
            (|| (log[j].reply == NotFound && log[j + 1].call == CreateCR(w.key, w.owners, w.spec))
             || (log[j].reply.GotCR? && log[j + 1].call == UpdateCR(w.key, log[j].reply.cr.(spec := w.spec))))))
  }

  lemma HandledGrows(log: seq<Step>, more: seq<Step>, w: Wanted)
    requires Handled(log, w)
    ensures Handled(log + more, w)
  {
    var j :| 0 <= j < |log| && HandledAt(log, w, j);
    assert HandledAt(log + more, w, j);
  }

  /** Where the protocol thread stands after these calls and replies; None if they are not its own. */
  function ThreadAfter(k: Key, x: string, log: seq<Step>): (end: Option<Proto.Pc>)
    ensures end.Some? ==> Proto.WellFormed(end.value)
  {
    if log == [] then Some(Proto.Getting)
    else
      var before, last := ThreadAfter(k, x, log[..|log| - 1]), log[|log| - 1];
      if before.Some? && before.value != Proto.Idle && last.call == Proto.Pending(k, before.value)
      then Some(Proto.Advance(k, x, before.value, last.reply)) else None
  }

  /** A call that failed, was refused, or wrote an object that is not there. */
  predicate WentWrong(step: Step) {
    || step.reply == Failed || step.reply == Refused || step.reply == AlreadyExists
    || (step.reply == NotFound && !step.call.GetCD? && !step.call.GetCR?)
  }

  ghost predicate SomeWrong(log: seq<Step>) {
    exists i :: 0 <= i < |log| && WentWrong(log[i])
  }

  lemma WrongSoFar(log: seq<Step>, step: Step)
    ensures SomeWrong(log + [step]) <==> SomeWrong(log) || WentWrong(step)
  {
    hide WentWrong;
    assert (log + [step])[|log|] == step;
    assert forall i :: 0 <= i < |log| ==> (log + [step])[i] == log[i];
  }

  /** What else a call of this controller can be told. */
  predicate Shape(c: Call, r: Reply) {
    && (c.GetCD? ==> r.GotCD? || r == NotFound)
    && (c.GetCR? ==> r.GotCR? || r == NotFound)
    && (c.ListCRs? ==> r.Keys?)
    && (c.ReadEmail? ==> r.Email?)
    && (c.PatchCDFinalizers? ==> r.GotCD?)
    && (c.CreateCR? || c.UpdateCR? || c.DeleteCR? ==> r == Done)
  }

  lemma ShapeOf(s: Store, c: Call, r: Reply, s': Store)
    requires Exec(s, c, r, s')
    ensures WentWrong(Step(c, r)) || Shape(c, r)
  {
    hide Apply, FinalizersAllowed, UpdateAllowed, SecretUpdateAllowed;
  }

  class ClusterDeploymentReconciler {
    const server: Server
    const key: Key
    const extraRecord: string
    ghost var pc: Proto.Pc
    ghost var log: seq<Step>
    /** Some call of the log went wrong. */
    ghost var wrong: bool

    constructor (server: Server, key: Key, extraRecord: string)
      ensures this.server == server && this.key == key && this.extraRecord == extraRecord
      ensures OnTrack() && pc == Proto.Getting && log == [] && !wrong
    {
      this.server, this.key, this.extraRecord := server, key, extraRecord;
      this.pc, this.log, this.wrong := Proto.Getting, [], false;
    }

    /** The reconcile so far is a run of the protocol thread: every call made was the one it had pending. */
    ghost predicate OnTrack()
      reads this
      ensures OnTrack() ==> Proto.WellFormed(pc)
    {
      ThreadAfter(key, extraRecord, log) == Some(pc) && (wrong <==> SomeWrong(log))
    }

    /** Every call of the reconciler goes through here, and only the call the protocol thread has pending. */
    method Call(c: Kube.Call) returns (r: Reply)
      requires OnTrack() && pc != Proto.Idle && c == Proto.Pending(key, pc)
      modifies this`pc, this`log, this`wrong, server
      ensures OnTrack() && pc == Proto.Advance(key, extraRecord, old(pc), r)
      ensures log == old(log) + [Step(c, r)]
      ensures wrong <==> old(wrong) || WentWrong(Step(c, r))
      ensures WentWrong(Step(c, r)) || Shape(c, r)
      ensures exists s :: (server.quiet ==> s == old(server.store)) && Exec(s, c, r, server.store)
    {
      hide Exec, Proto.Advance, Proto.Pending, WentWrong, Shape;
      r := server.Do(c);
      ghost var s :| (server.quiet ==> s == old(server.store)) && Exec(s, c, r, server.store);
      ShapeOf(s, c, r, server.store);
      WrongSoFar(log, Step(c, r));
      wrong := wrong || WentWrong(Step(c, r));
      assert (log + [Step(c, r)])[..|log|] == log;
      pc := Proto.Advance(key, extraRecord, pc, r);
      log := log + [Step(c, r)];
    }

    /** Reconcile: one run of the protocol thread, from its first call to its end. With nobody else writing, a
        deployment that is not managed, is a fake, is not installed or relocates changes nothing; of the others a
        live one ends up as wanted, and a terminating one is let go only when all its CertificateRequests are
        terminating. */
    method Reconcile() returns (err: bool)
      requires OnTrack() && pc == Proto.Getting
      modifies this`pc, this`log, this`wrong, server
      ensures OnTrack() && pc == Proto.Idle
      ensures err && server.quiet && key in old(server.store).cds ==> wrong || RelocationOf(old(server.store).cds[key]) == Malformed
      ensures server.quiet && key in old(server.store).cds ==>
                var cd := old(server.store).cds[key];
                && (cd.managed != Some("true") ==> server.store == old(server.store))
                && (cd.fake == Some("true") ==> server.store == old(server.store))
                && (!cd.installed ==> server.store == old(server.store))
                && (RelocationOf(cd) != Staying ==> server.store == old(server.store))
      ensures (server.quiet && !err && Settled(old(server.store)) && key in old(server.store).cds) ==>
                var cd := old(server.store).cds[key];
                (cd.managed == Some("true") && cd.fake != Some("true") && cd.installed && RelocationOf(cd) == Staying) ==>
                  if cd.meta.terminating then
                    HasFinalizer(cd.meta) ==>
                      LetGo(server.store, key) && (key in server.store.cds ==> FinalizerGone(server.store.cds[key].meta, cd.meta))
                  else
                    && key in server.store.cds && FinalizerAdded(server.store.cds[key].meta, cd.meta)
                    && Synced(server.store, key.ns, WantedAll(key, extraRecord, cd, cd.spec.bundles, old(server.store).email))
                    && AsWanted(server.store, key, extraRecord, cd, old(server.store).email)
                    && NewOwnedBy(old(server.store), server.store, [OwnerRef("ClusterDeployment", key.name)])
    {
      hide Exec, Apply, Answers, RelocationOf, Settled, Synced, WantedAll, LetGo, ThreadAfter, HasFinalizer, AsWanted;
      ghost var s0 := server.store;
      var r := Call(GetCD(key));
      GetCDTells(s0, key, r, server.store, server.quiet);
      if !r.GotCD? {
        return r != NotFound;
      }
      var cd := r.cd;
      if cd.managed != Some("true") {
        return false;
      }
      if cd.fake == Some("true") {
        return false;
      }
      if !cd.installed {
        return false;
      }
      var relocation := RelocationOf(cd);
      if relocation.Malformed? {
        return true;
      }
      if relocation.Outgoing? {
        return false;
      }
      if cd.meta.terminating {
        err := ReconcileTerminating(cd);
        return;
      }
      err := ReconcileLive(cd);
      if server.quiet && !err && Settled(s0) {
        SyncedIsAsWanted(server.store, key, extraRecord, cd, s0.email);
      }
    }

    /** The branch for a deletion timestamp. */
    method ReconcileTerminating(cd: CD) returns (err: bool)
      requires OnTrack() && Proto.Managed(cd) && cd.meta.terminating && pc == Proto.AfterGet(cd)
      modifies this`pc, this`log, this`wrong, server
      ensures (old(wrong) ==> wrong) && (err ==> wrong)
      ensures OnTrack() && pc == Proto.Idle
      ensures server.quiet && !err && Settled(old(server.store)) && HasFinalizer(cd.meta) ==> LetGo(server.store, key)
      ensures server.quiet && !err && HasFinalizer(cd.meta) && key in server.store.cds ==>
                FinalizerGone(server.store.cds[key].meta, cd.meta)
    {
      hide Exec, Apply, Answers, RelocationOf, Settled, ThreadAfter;
      var mine := ContainsString(cd.meta.finalizers, FINALIZER);
      if mine {
        err := HandleDelete(cd);
        if err {
          return;
        }
        var left := RemoveString(cd.meta.finalizers, FINALIZER);
        ghost var s1 := server.store;
        var r := Call(PatchCDFinalizers(key, left));
        RemovalLands(s1, key, left, r, server.store, server.quiet);
        if !r.GotCD? {
          return true;
        }
      }
      return false;
    }

    /** The branch for a live deployment: the finalizer, then the sync. */
    method ReconcileLive(read: CD) returns (err: bool)
      requires OnTrack() && Proto.Managed(read) && !read.meta.terminating && pc == Proto.AfterGet(read)
      modifies this`pc, this`log, this`wrong, server
      ensures (old(wrong) ==> wrong) && (err ==> wrong)
      ensures OnTrack() && pc == Proto.Idle
      ensures (server.quiet && !err && Settled(old(server.store)) && key in old(server.store).cds && old(server.store).cds[key] == read) ==>
                && Synced(server.store, key.ns, WantedAll(key, extraRecord, read, read.spec.bundles, old(server.store).email))
                && NewOwnedBy(old(server.store), server.store, [OwnerRef("ClusterDeployment", key.name)])
                && key in server.store.cds && FinalizerAdded(server.store.cds[key].meta, read.meta)
    {
      hide Exec, Apply, Answers, RelocationOf, Settled, Synced, WantedAll, WantedNames, NamesOf, EnsuredAll, DeletedAll, Extra, Agreeing, NoWrites, ThreadAfter;
      var cd := read;
      var mine := ContainsString(cd.meta.finalizers, FINALIZER);
      if !mine {
        ghost var s0 := server.store;
        var r := Call(PatchCDFinalizers(key, cd.meta.finalizers + [FINALIZER]));
        AdditionLands(s0, key, cd.meta.finalizers + [FINALIZER], r, server.store, server.quiet);
        if !r.GotCD? {
          return true;
        }
        cd := r.cd;
      }
      ghost var ws, extra;
      err, ws, extra := SyncCertificateRequests(cd);
      if cd.spec == read.spec {
        WantedBySpec(key, extraRecord, read, cd, cd.spec.bundles, old(server.store).email);
      }
    }

    /** handleDelete: every listed CertificateRequest is deleted, or an error comes back. */
    method HandleDelete(cd: CD) returns (err: bool)
      requires OnTrack() && pc == Proto.DeleteListing(cd)
      modifies this`pc, this`log, this`wrong, server
      ensures (old(wrong) ==> wrong) && (err ==> wrong)
      ensures OnTrack() && pc == if err then Proto.Idle else Proto.RemovingFinalizer(cd)
      ensures !err && server.quiet && Settled(old(server.store)) ==>
                && SameElsewhere(old(server.store), server.store)
                && forall c :: c in server.store.crs && c.ns == key.ns ==> server.store.crs[c].meta.terminating
    {
      hide ThreadAfter, Exec;
      ghost var before := server.store;
      var r := Call(ListCRs(key.ns));
      ReadLeaves(before, ListCRs(key.ns), r, server.store, server.quiet);
      if !r.Keys? {
        return true;
      }
      var todo := r.keys;
      for i := 0 to |todo|
        invariant OnTrack() && pc == Proto.NextDelete(cd, todo[i..]) && (old(wrong) ==> wrong)
        invariant server.quiet ==> server.store == DeletedAll(old(server.store), todo[..i])
      {
        assert todo[i..][1..] == todo[i + 1..];
        assert todo[..i + 1][..i] == todo[..i];
        before := server.store;
        r := Call(DeleteCR(todo[i]));
        WriteLands(before, DeleteCR(todo[i]), r, server.store, server.quiet);
        if r != Done {
          return true;
        }
      }
      assert todo[..|todo|] == todo;
      if server.quiet && Settled(old(server.store)) {
        DeletedAllEmpties(old(server.store), key.ns, todo);
      }
      return false;
    }

    /** syncCertificateRequests. The ghost results are the wanted list and the keys marked for deletion. */
    method SyncCertificateRequests(cd: CD) returns (err: bool, ghost ws: seq<Wanted>, ghost extra: seq<Key>)
      requires OnTrack() && pc == Proto.SyncListing(cd)
      modifies this`pc, this`log, this`wrong, server
      ensures (old(wrong) ==> wrong) && (err ==> wrong)
      ensures OnTrack() && pc == Proto.Idle && old(log) <= log
      ensures server.quiet && !err ==>
                && ws == WantedAll(key, extraRecord, cd, cd.spec.bundles, old(server.store).email)
                && (exists current :: extra == Extra(current, ws) && forall k :: k in current <==> k in old(server.store).crs && k.ns == key.ns)
                && server.store == DeletedAll(EnsuredAll(old(server.store), ws), extra)
      ensures server.quiet && !err && Settled(old(server.store)) ==>
                && Synced(server.store, key.ns, ws) && SameElsewhere(old(server.store), server.store)
                && NewOwnedBy(old(server.store), server.store, [OwnerRef("ClusterDeployment", key.name)])
      ensures !NoDeletes(log[|old(log)|..]) ==>
                && NamesOf(ws) == WantedNames(key, extraRecord, cd, cd.spec.bundles)
                && forall w :: w in ws ==> Handled(log[|old(log)|..], w)
      ensures var wanted := WantedAll(key, extraRecord, cd, cd.spec.bundles, old(server.store).email);
              server.quiet && Synced(old(server.store), key.ns, wanted) && Agreeing(wanted) ==>
                server.store == old(server.store) && NoWrites(log[|old(log)|..])
    {
      hide Exec, Domains, WantedFor, Apply, Answers, Extra, Names, Handled, EnsuredAll, DeletedAll, NoDeletes, NoWrites, WantedAll, WantedNames, NamesOf,
           Proto.NextExtra, Proto.NextWanted, Synced, Agreeing, AllPresent, AllLeaving, Settled, ThreadAfter, NewOwnedBy, OnTrack, SomeWrong, WentWrong, SameElsewhere;
      ghost var s0, l0 := server.store, log;
      ghost var expected := WantedAll(key, extraRecord, cd, cd.spec.bundles, s0.email);
      var r := Call(ListCRs(key.ns));
      hide Proto.Advance, Proto.Pending;
      ghost var l1 := log;
      ListTells(s0, key.ns, r, server.store, server.quiet);
      OneStep(l0, Step(ListCRs(key.ns), r));
      if !r.Keys? {
        return true, [], [];
      }
      var failed, wanted := CollectWanted(cd, r.keys);
      ghost var l2 := log;
      QuietPrefix(l0, l1, l2);
      NoWritesJoin(l0, l1, l2);
      if server.quiet && !failed {
        SyncFacts(s0, key, extraRecord, cd, wanted, r.keys);
      }
      if failed {
        return true, [], [];
      }
      var deleteCRs := FindExtra(r.keys, wanted);
      var errs := EnsureWanted(cd, deleteCRs, wanted);
      ghost var l3 := log;
      QuietPrefix(l0, l2, l3);
      if NoWrites(l3[|l2|..]) {
        NoWritesJoin(l0, l2, l3);
      }
      if errs {
        return true, wanted, deleteCRs;
      }
      err := DeleteExtra(cd, deleteCRs);
      ws, extra := wanted, deleteCRs;
      if Settled(s0) {
        SyncOwned(s0, key, extraRecord, cd, s0.email, deleteCRs);
      }
      if NoWrites(l3[|l0|..]) {
        NoWritesJoin(l0, l3, log);
      }
      forall w | w in ws ensures Handled(log[|l0|..], w) {
        HandledLater(l0, l2, l3, log, w);
      }
    }

    /** The loop over the certificate bundles. */
    method CollectWanted(cd: CD, current: seq<Key>) returns (failed: bool, wanted: seq<Wanted>)
      requires OnTrack() && pc == Proto.Collect(key, extraRecord, cd, current, [], cd.spec.bundles)
      modifies this`pc, this`log, this`wrong, server
      ensures (old(wrong) ==> wrong) && (failed ==> wrong)
      ensures OnTrack() && pc == if failed then Proto.Idle else Proto.NextWanted(cd, Extra(current, wanted), wanted, false)
      ensures old(log) <= log && NoDeletes(log[|old(log)|..])
      ensures NoWrites(log[|old(log)|..])
      ensures server.quiet ==> server.store == old(server.store)
      ensures !failed ==> NamesOf(wanted) == WantedNames(key, extraRecord, cd, cd.spec.bundles)
      ensures server.quiet && !failed ==>
                && wanted == WantedAll(key, extraRecord, cd, cd.spec.bundles, old(server.store).email)
    {
      assert NamesOf([]) == [];
      hide Domains, WantedFor, Extra, NoDeletes, NoWrites, Exec, Proto.NextWanted, ThreadAfter, NamesOf, Proto.WithBundle, Proto.Advance,
           Proto.Collect, WantedAll, WantedNames;
      wanted := [];
      NothingYet(log);
      var bundles := cd.spec.bundles;
      assert bundles[0..] == bundles && bundles[..0] == [];
      NoBundles(key, extraRecord, cd, old(server.store).email);
      for i := 0 to |bundles|
        invariant OnTrack() && pc == Proto.Collect(key, extraRecord, cd, current, wanted, bundles[i..]) && (old(wrong) ==> wrong)
        invariant old(log) <= log && NoDeletes(log[|old(log)|..])
        invariant server.quiet ==> server.store == old(server.store)
        invariant NoWrites(log[|old(log)|..])
        invariant NamesOf(wanted) == WantedNames(key, extraRecord, cd, bundles[..i])
        invariant server.quiet ==> wanted == WantedAll(key, extraRecord, cd, bundles[..i], old(server.store).email)
      {
        CollectStep(key, extraRecord, cd, current, wanted, bundles, i);
        WantedStep(key, extraRecord, cd, bundles, i, old(server.store).email);
        if bundles[i].generate {
          ghost var l, before, r, email := log, wanted, Failed, "";
          failed, wanted, r, email := CollectOne(cd, current, wanted, bundles[i], bundles[i..]);
          OneStep(l, Step(ReadEmail, r));
          QuietPrefix(old(log), l, log);
          NoWritesJoin(old(log), l, log);
          if failed {
            return true, [];
          }
          NamesWith(before, key, extraRecord, cd, bundles[i], email);
        }
      }
      assert bundles[..|bundles|] == bundles && bundles[|bundles|..] == [];
      CollectDone(key, extraRecord, cd, current, wanted);
      failed := false;
    }

    /** One generating bundle: its domains, the notification address, and an entry if there are domains. */
    method CollectOne(cd: CD, ghost current: seq<Key>, before: seq<Wanted>, b: Bundle, ghost rest: seq<Bundle>)
      returns (failed: bool, wanted: seq<Wanted>, ghost r: Reply, ghost email: string)
      requires OnTrack() && rest != [] && rest[0] == b && pc == Proto.SyncEmail(cd, current, before, rest)
      modifies this`pc, this`log, this`wrong, server
      ensures (old(wrong) ==> wrong) && (failed ==> wrong)
      ensures OnTrack() && log == old(log) + [Step(ReadEmail, r)]
      ensures server.quiet ==> server.store == old(server.store)
      ensures if failed then pc == Proto.Idle
              else pc == Proto.Collect(key, extraRecord, cd, current, wanted, rest[1..]) && wanted == Proto.WithBundle(key, extraRecord, cd, before, b, email)
      ensures server.quiet && !failed ==> email == old(server.store).email
    {
      hide Domains, WantedFor, Exec, Proto.Collect, ThreadAfter;
      wanted, email := before, "";
      var domains := GetDomainsForCertBundle(b, cd, extraRecord);
      ghost var s0 := server.store;
      var reply := Call(ReadEmail);
      r := reply;
      ReadLeaves(s0, ReadEmail, reply, server.store, server.quiet);
      if !reply.Email? {
        return true, [], r, email;
      }
      email := reply.address;
      if |domains| > 0 {
        var w := CreateCertificateRequest(key, cd, b, domains, reply.address, extraRecord);
        wanted := wanted + [w];
      }
      failed := false;
    }

    /** The create/update loop: errors are gathered and do not stop it. */
    method EnsureWanted(cd: CD, extra: seq<Key>, wanted: seq<Wanted>) returns (errs: bool)
      requires OnTrack() && pc == Proto.NextWanted(cd, extra, wanted, false)
      modifies this`pc, this`log, this`wrong, server
      ensures (old(wrong) ==> wrong) && (errs ==> wrong)
      ensures OnTrack() && pc == if errs then Proto.Idle else Proto.NextExtra(cd, extra)
      ensures old(log) <= log && NoDeletes(log[|old(log)|..])
      ensures !errs ==> forall w :: w in wanted ==> Handled(log[|old(log)|..], w)
      ensures server.quiet && !errs ==> server.store == EnsuredAll(old(server.store), wanted)
      ensures server.quiet && AllPresent(old(server.store), wanted) ==>
                server.store == old(server.store) && NoWrites(log[|old(log)|..])
    {
      hide Handled, Ensured, NoDeletes, NoWrites, ThreadAfter;
      NothingYet(log);
      errs := false;
      assert wanted[0..] == wanted;
      for i := 0 to |wanted|
        invariant OnTrack() && pc == Proto.NextWanted(cd, extra, wanted[i..], errs) && (old(wrong) || errs ==> wrong)
        invariant old(log) <= log && NoDeletes(log[|old(log)|..])
        invariant !errs ==> forall j :: 0 <= j < i ==> Handled(log[|old(log)|..], wanted[j])
        invariant server.quiet && !errs ==> server.store == EnsuredAll(old(server.store), wanted[..i])
        invariant server.quiet && AllPresent(old(server.store), wanted) ==>
            server.store == old(server.store) && NoWrites(log[|old(log)|..])
      {
        assert wanted[i..][0] == wanted[i] && wanted[i..][1..] == wanted[i + 1..];
        assert wanted[..i + 1][..i] == wanted[..i];
        label before:
        var failed := EnsureOne(cd, extra, wanted[i], wanted[i..], errs);
        ghost var was, more := old@before(log)[|old(log)|..], log[|old@before(log)|..];
        QuietPrefix(old(log), old@before(log), log);
        if NoWrites(was) && NoWrites(more) {
          NoWritesJoin(old(log), old@before(log), log);
        }
        assert log[|old(log)|..] == was + more;
        if !errs && !failed {
          forall j | 0 <= j < i
            ensures Handled(was + more, wanted[j])
          {
            HandledGrows(was, more, wanted[j]);
          }
          HandledAfter(was, more, wanted[i]);
        }
        errs := errs || failed;
      }
      assert wanted[..|wanted|] == wanted;
    }

    /** One turn of that loop. */
    method EnsureOne(cd: CD, ghost extra: seq<Key>, w: Wanted, ghost left: seq<Wanted>, ghost errs: bool) returns (failed: bool)
      requires OnTrack() && left != [] && left[0] == w && pc == Proto.SyncGetting(cd, extra, left, errs)
      modifies this`pc, this`log, this`wrong, server
      ensures (old(wrong) ==> wrong) && (failed ==> wrong)
      ensures OnTrack() && pc == Proto.NextWanted(cd, extra, left[1..], errs || failed)
      ensures old(log) <= log && NoDeletes(log[|old(log)|..])
      ensures !failed ==> Handled(log[|old(log)|..], w)
      ensures server.quiet && !failed ==> server.store == Ensured(old(server.store), w)
      ensures server.quiet && AllPresent(old(server.store), [w]) ==>
                server.store == old(server.store) && NoWrites(log[|old(log)|..])
    {
      hide Exec, Apply, Answers, Extra, Proto.NextWanted, NoDeletes, NoWrites, Handled, ThreadAfter, HandledAt, Ensured, AllPresent, Proto.Advance;
      EnsuredBranches(server.store, w);
      ghost var s0, l0, r' := server.store, log, Failed;
      var r := FetchWanted(cd, w, extra, left, errs);
      OnlyFetched(l0, w, r);
      if r == NotFound {
        failed, r' := WriteWanted(cd, CreateCR(w.key, w.owners, w.spec), extra, left, errs);
        FetchedAndWritten(l0, w, r, CreateCR(w.key, w.owners, w.spec), r');
      } else if !r.GotCR? {
        failed := true;
      } else if r.cr.spec != w.spec {
        var updated := r.cr.(spec := w.spec);
        failed, r' := WriteWanted(cd, UpdateCR(w.key, updated), extra, left, errs);
        FetchedAndWritten(l0, w, r, UpdateCR(w.key, updated), r');
      } else {
        failed := false;
      }
    }

    /** The fetch of one turn. */
    method FetchWanted(cd: CD, w: Wanted, ghost extra: seq<Key>, ghost left: seq<Wanted>, ghost errs: bool) returns (r: Reply)
      requires OnTrack() && left != [] && left[0] == w && pc == Proto.SyncGetting(cd, extra, left, errs)
      modifies this`pc, this`log, this`wrong, server
      ensures (old(wrong) ==> wrong) && (r == NotFound || r.GotCR? || wrong)
      ensures OnTrack() && log == old(log) + [Step(GetCR(w.key), r)]
      ensures pc == if r == NotFound then Proto.SyncCreating(cd, extra, left, errs)
                    else if !r.GotCR? then Proto.NextWanted(cd, extra, left[1..], true)
                    else if r.cr.spec != w.spec then Proto.SyncUpdating(cd, extra, left, errs, r.cr)
                    else Proto.NextWanted(cd, extra, left[1..], errs)
      ensures server.quiet ==>
                && server.store == old(server.store)
                && (r == NotFound ==> w.key !in server.store.crs)
                && (r.GotCR? ==> w.key in server.store.crs && server.store.crs[w.key] == r.cr)
    {
      hide Exec, Apply, Answers, Proto.NextWanted, ThreadAfter;
      ghost var s0 := server.store;
      r := Call(GetCR(w.key));
      GetTells(s0, w.key, r, server.store, server.quiet);
    }

    /** The create or update of one turn. */
    method WriteWanted(cd: CD, c: Kube.Call, ghost extra: seq<Key>, ghost left: seq<Wanted>, ghost errs: bool)
      returns (failed: bool, ghost r: Reply)
      requires OnTrack() && left != [] && (pc.SyncCreating? || pc.SyncUpdating?) && c == Proto.Pending(key, pc)
      requires pc.cd == cd && pc.extra == extra && pc.left == left && pc.errs == errs
      modifies this`pc, this`log, this`wrong, server
      ensures (old(wrong) ==> wrong) && (failed ==> wrong)
      ensures OnTrack() && pc == Proto.NextWanted(cd, extra, left[1..], errs || failed)
      ensures log == old(log) + [Step(c, r)] && (failed <==> r != Done)
      ensures server.quiet && !failed ==> server.store == Apply(old(server.store), c)
    {
      hide Exec, Apply, Answers, Proto.NextWanted, ThreadAfter;
      ghost var s0 := server.store;
      var reply := Call(c);
      r := reply;
      WriteLands(s0, c, reply, server.store, server.quiet);
      failed := reply != Done;
    }

    /** The loop over the CertificateRequests marked for deletion. */
    method DeleteExtra(cd: CD, extra: seq<Key>) returns (err: bool)
      requires OnTrack() && pc == Proto.NextExtra(cd, extra)
      modifies this`pc, this`log, this`wrong, server
      ensures (old(wrong) ==> wrong) && (err ==> wrong)
      ensures OnTrack() && pc == Proto.Idle && old(log) <= log
      ensures server.quiet && !err ==> server.store == DeletedAll(old(server.store), extra)
      ensures NoWrites(log[|old(log)|..])
      ensures server.quiet && AllLeaving(old(server.store), extra) ==> server.store == old(server.store)
    {
      hide NoWrites, ThreadAfter, Exec;
      NothingYet(log);
      assert extra[0..] == extra;
      for i := 0 to |extra|
        invariant OnTrack() && pc == Proto.NextExtra(cd, extra[i..]) && old(log) <= log && (old(wrong) ==> wrong)
        invariant server.quiet ==> server.store == DeletedAll(old(server.store), extra[..i])
        invariant NoWrites(log[|old(log)|..])
        invariant server.quiet && AllLeaving(old(server.store), extra) ==> server.store == old(server.store)
      {
        assert extra[i..][0] == extra[i] && extra[i..][1..] == extra[i + 1..];
        assert extra[..i + 1][..i] == extra[..i];
        ghost var before, l := server.store, log;
        var r := Call(DeleteCR(extra[i]));
        OneStep(l, Step(DeleteCR(extra[i]), r));
        NoWritesJoin(old(log), l, log);
        DeleteOfLeaving(before, extra[i], r, server.store, server.quiet);
        WriteLands(before, DeleteCR(extra[i]), r, server.store, server.quiet);
        if r != Done {
          return true;
        }
      }
      assert extra[..|extra|] == extra;
      return false;
    }
  }

  /** No CertificateRequest is deleted. */
  ghost predicate NoDeletes(log: seq<Step>) {
    forall i :: 0 <= i < |log| ==> !log[i].call.DeleteCR?
  }

  /** No CertificateRequest is created or updated. */
  ghost predicate NoWrites(log: seq<Step>) {
    forall i :: 0 <= i < |log| ==> !log[i].call.CreateCR? && !log[i].call.UpdateCR?
  }

  ghost predicate AllPresent(s: Store, ws: seq<Wanted>) {
    forall w :: w in ws ==> w.key in s.crs && s.crs[w.key].spec == w.spec
  }

  ghost predicate AllLeaving(s: Store, keys: seq<Key>) {
    forall k :: k in keys && k in s.crs ==> s.crs[k].meta.terminating
  }

  lemma NoWritesJoin(l0: seq<Step>, l1: seq<Step>, l2: seq<Step>)
    requires l0 <= l1 <= l2 && NoWrites(l1[|l0|..]) && NoWrites(l2[|l1|..])
    ensures NoWrites(l2[|l0|..])
  {
    assert l2[|l0|..] == l1[|l0|..] + l2[|l1|..];
  }

  lemma NothingYet(log: seq<Step>)
    ensures NoDeletes(log[|log|..]) && NoWrites(log[|log|..])
  {
  }

  lemma OneStep(l0: seq<Step>, step: Step)
    ensures !step.call.DeleteCR? ==> NoDeletes((l0 + [step])[|l0|..])
    ensures !step.call.CreateCR? && !step.call.UpdateCR? ==> NoWrites((l0 + [step])[|l0|..])
  {
  }

  /** A log without deletes stays so when more steps without deletes follow. */
  lemma QuietPrefix(l0: seq<Step>, l1: seq<Step>, l2: seq<Step>)
    requires l0 <= l1 <= l2 && NoDeletes(l1[|l0|..]) && NoDeletes(l2[|l1|..])
    ensures NoDeletes(l2[|l0|..])
  {
    assert l2[|l0|..] == l1[|l0|..] + l2[|l1|..];
  }

  lemma HandledLater(l0: seq<Step>, l2: seq<Step>, l3: seq<Step>, l4: seq<Step>, w: Wanted)
    requires l0 <= l2 <= l3 <= l4 && Handled(l3[|l2|..], w)
    ensures Handled(l4[|l0|..], w)
  {
    hide Handled;
    HandledAfter(l2[|l0|..], l3[|l2|..], w);
    assert l4[|l0|..] == (l2[|l0|..] + l3[|l2|..]) + l4[|l3|..];
    HandledGrows(l2[|l0|..] + l3[|l2|..], l4[|l3|..], w);
  }

  /** A list of a quiet store names its objects and leaves it alone. */
  lemma ListTells(s: Store, ns: string, r: Reply, s': Store, quiet: bool)
    requires exists t :: (quiet ==> t == s) && Exec(t, ListCRs(ns), r, s')
    ensures quiet ==> s' == s && (r.Keys? ==> forall k :: k in r.keys <==> k in s.crs && k.ns == ns)
  {
  }

  lemma HandledAfter(was: seq<Step>, more: seq<Step>, w: Wanted)
    requires Handled(more, w)
    ensures Handled(was + more, w)
  {
    var j :| 0 <= j < |more| && HandledAt(more, w, j);
    assert (was + more)[|was| + j] == more[j];
    assert j + 1 < |more| ==> (was + more)[|was| + j + 1] == more[j + 1];
    assert HandledAt(was + more, w, |was| + j);
  }

  /** The log of a turn that only fetches, */
  lemma OnlyFetched(l0: seq<Step>, w: Wanted, r: Reply)
    ensures var t := (l0 + [Step(GetCR(w.key), r)])[|l0|..];
            && NoDeletes(t) && NoWrites(t)
            && (r.GotCR? && r.cr.spec == w.spec ==> Handled(t, w))
  {
    var t := (l0 + [Step(GetCR(w.key), r)])[|l0|..];
    assert t == [Step(GetCR(w.key), r)];
    assert HandledAt(t, w, 0) ==> Handled(t, w);
  }

  /** and of one that then creates or updates. */
  lemma FetchedAndWritten(l0: seq<Step>, w: Wanted, r: Reply, c: Call, r': Reply)
    requires (r == NotFound && c == CreateCR(w.key, w.owners, w.spec)) || (r.GotCR? && c == UpdateCR(w.key, r.cr.(spec := w.spec)))
    ensures var t := (l0 + [Step(GetCR(w.key), r)] + [Step(c, r')])[|l0|..];
            NoDeletes(t) && (r' == Done ==> Handled(t, w))
  {
    var t := (l0 + [Step(GetCR(w.key), r)] + [Step(c, r')])[|l0|..];
    assert t == [Step(GetCR(w.key), r), Step(c, r')];
    assert HandledAt(t, w, 0) ==> Handled(t, w);
  }

  lemma GetTells(s: Store, k: Key, r: Reply, s': Store, quiet: bool)
    requires exists t :: (quiet ==> t == s) && Exec(t, GetCR(k), r, s')
    ensures quiet ==> s' == s && (r == NotFound ==> k !in s.crs) && (r.GotCR? ==> k in s.crs && s.crs[k] == r.cr)
  {
  }

  /** A read leaves a quiet store alone and tells what is in it. */
  lemma ReadLeaves(s: Store, c: Call, r: Reply, s': Store, quiet: bool)
    requires c.GetCR? || c.ReadEmail? || c.ListCRs?
    requires exists t :: (quiet ==> t == s) && Exec(t, c, r, s')
    ensures quiet ==> s' == s && (r != Failed ==> Answers(s, c, r))
  {
  }

  /** No live CertificateRequest is left in the namespace, and the deployment no longer carries the finalizer. */
  ghost predicate LetGo(s: Store, k: Key) {
    && (forall c :: c in s.crs && c.ns == k.ns ==> s.crs[c].meta.terminating)
    && (k in s.cds ==> !HasFinalizer(s.cds[k].meta))
  }

  lemma GetCDTells(s: Store, k: Key, r: Reply, s': Store, quiet: bool)
    requires exists t :: (quiet ==> t == s) && Exec(t, GetCD(k), r, s')
    ensures quiet ==> s' == s && (r == NotFound ==> k !in s.cds) && (r.GotCD? ==> k in s.cds && s.cds[k] == r.cd)
  {
  }

  lemma RemovalLands(s: Store, k: Key, left: seq<string>, r: Reply, s': Store, quiet: bool)
    requires FINALIZER !in left
    requires exists t :: (quiet ==> t == s) && Exec(t, PatchCDFinalizers(k, left), r, s')
    ensures quiet && r.GotCD? ==> s'.crs == s.crs && (k in s'.cds ==> s'.cds[k].meta.finalizers == left)
  {
  }

  lemma AdditionLands(s: Store, k: Key, more: seq<string>, r: Reply, s': Store, quiet: bool)
    requires more != []
    requires exists t :: (quiet ==> t == s) && Exec(t, PatchCDFinalizers(k, more), r, s')
    ensures quiet && r.GotCD? && k in s.cds ==>
              && s'.crs == s.crs && s'.email == s.email && r.cd.spec == s.cds[k].spec && (Settled(s) ==> Settled(s'))
              && k in s'.cds && s'.cds[k].meta.finalizers == more
  {
  }

  /** What is wanted depends on the deployment's spec only. */
  lemma {:induction false} WantedBySpec(k: Key, x: string, cd: CD, cd': CD, bundles: seq<Bundle>, email: string)
    requires cd.spec == cd'.spec
    ensures WantedAll(k, x, cd, bundles, email) == WantedAll(k, x, cd', bundles, email)
  {
    if bundles != [] {
      WantedBySpec(k, x, cd, cd', bundles[..|bundles| - 1], email);
    }
  }

  /** An acknowledged write has taken effect on a quiet store. */
  lemma WriteLands(s: Store, c: Call, r: Reply, s': Store, quiet: bool)
    requires exists t :: (quiet ==> t == s) && Exec(t, c, r, s')
    ensures quiet && r == Done ==> s' == Apply(s, c)
  {
  }

  /** Deleting what is absent or already terminating changes nothing, even when the reply is lost. */
  lemma DeleteOfLeaving(s: Store, k: Key, r: Reply, s': Store, quiet: bool)
    requires exists t :: (quiet ==> t == s) && Exec(t, DeleteCR(k), r, s')
    ensures quiet && (k in s.crs ==> s.crs[k].meta.terminating) ==> s' == s
  {
  }

  /** The nested loops that mark CertificateRequests nobody wants any more. */
  method FindExtra(current: seq<Key>, wanted: seq<Wanted>) returns (extra: seq<Key>)
    ensures extra == Extra(current, wanted)
  {
    extra := [];
    for i := 0 to |current|
      invariant extra == Extra(current[..i], wanted)
    {
      assert current[..i + 1][..i] == current[..i];
      var found := false;
      for j := 0 to |wanted|
        invariant !found && forall n :: 0 <= n < j ==> wanted[n].key.name != current[i].name
      {
        if wanted[j].key.name == current[i].name {
          found := true;
          break;
        }
      }
      if !found {
        extra := extra + [current[i]];
      }
    }
    assert current[..|current|] == current;
  }

  /** After a complete deletion pass nothing in the namespace is live. */
  lemma DeletedAllEmpties(s: Store, ns: string, keys: seq<Key>)
    requires Settled(s) && forall k :: k in s.crs && k.ns == ns ==> k in keys
    ensures var s' := DeletedAll(s, keys);
            SameElsewhere(s, s') && forall c :: c in s'.crs && c.ns == ns ==> s'.crs[c].meta.terminating
  {
    DeletedAllReaches(s, keys);
  }
}
