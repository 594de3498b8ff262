/** The gauge of CertificateRequests that carry the certman finalizer, and how it starts. */
module LocalMetrics {
  import opened GoStrings
  import opened Kube
  import opened Protocol

  /** How many of these objects carry the certman finalizer. */
  function Finalized(crs: seq<Kube.CR>): nat {
    if crs == [] then 0
    else Finalized(crs[..|crs| - 1]) + if HasFinalizer(crs[|crs| - 1].meta) then 1 else 0
  }

  class Metrics {
    var countInitialized: bool
    var certRequests: int

    constructor ()
      ensures !countInitialized && certRequests == 0
    {
      countInitialized, certRequests := false, 0;
    }

    /** CheckInitCounter; None is a listing that failed. A failed one is not tried again, although the
        comment above the Go function says so. */
    method CheckInitCounter(listed: Option<seq<Kube.CR>>)
      modifies this
      ensures countInitialized
      ensures old(countInitialized) ==> certRequests == old(certRequests)
      ensures !old(countInitialized) ==> certRequests == if listed.None? then 0 else Finalized(listed.value)
    {
      if !countInitialized {
        var counter := 0;
        var items := if listed.None? then [] else listed.value;
        for i := 0 to |items|
          invariant counter == Finalized(items[..i]) && unchanged(this)
        {
          assert items[..i + 1][..i] == items[..i];
          var mine := ContainsString(items[i].meta.finalizers, FINALIZER);
          if mine {
            counter := counter + 1;
          }
        }
        assert items[..|items|] == items;
        certRequests, countInitialized := counter, true;
      }
    }

    method IncrementCertRequestsCounter()
      modifies this`certRequests
      ensures certRequests == old(certRequests) + 1
    {
      certRequests := certRequests + 1;
    }

    method DecrementCertRequestsCounter()
      modifies this`certRequests
      ensures certRequests == old(certRequests) - 1
    {
      certRequests := certRequests - 1;
    }
  }

  /** The keys in some order, each once. */
  ghost predicate Lists(keys: seq<Key>, s: Store) {
    && (forall k :: k in keys <==> k in s.crs)
    && (forall i, j :: 0 <= i < j < |keys| ==> keys[i] != keys[j])
  }

  function Objects(keys: seq<Key>, s: Store): seq<Kube.CR>
    requires forall k :: k in keys ==> k in s.crs
  {
    seq(|keys|, i requires 0 <= i < |keys| => s.crs[keys[i]])
  }

  /** Those of the keys whose objects carry the finalizer. */
  function Carriers(keys: seq<Key>, s: Store): set<Key> {
    set k | k in keys && k in s.crs && HasFinalizer(s.crs[k].meta)
  }

  lemma CarriersAppend(front: seq<Key>, last: Key, s: Store)
    requires last !in front && last in s.crs
    ensures last !in Carriers(front, s)
    ensures Carriers(front + [last], s) == Carriers(front, s) + if HasFinalizer(s.crs[last].meta) then {last} else {}
  {
    hide HasFinalizer;
  }

  lemma {:induction false} CountIsCardinality(keys: seq<Key>, s: Store)
    requires forall k :: k in keys ==> k in s.crs
    requires forall i, j :: 0 <= i < j < |keys| ==> keys[i] != keys[j]
    ensures Finalized(Objects(keys, s)) == |Carriers(keys, s)|
  {
    if keys != [] {
      var front, last := keys[..|keys| - 1], keys[|keys| - 1];
      CountIsCardinality(front, s);
      assert Objects(keys, s)[..|front|] == Objects(front, s);
      assert keys == front + [last];
      CarriersAppend(front, last, s);
      hide HasFinalizer, Carriers;
    }
  }

  /** A run whose first listing succeeded starts with the exact count, in whatever order the objects came. */
  lemma ListingStartsExact(w: World, keys: seq<Key>)
    requires Lists(keys, w.store)
    ensures Restarted(w, 0).gauge == Finalized(Objects(keys, w.store))
  {
    CountIsCardinality(keys, w.store);
    assert Carriers(keys, w.store) == WithFinalizer(w.store);
  }

  /** One whose first listing failed starts at zero, and so is exact if and only if nothing carries the
      finalizer. */
  lemma FailedListingStartsOff(w: World, base: int)
    requires Restarted(w, base).gauge == 0
    ensures base == 0 <==> forall k :: k in w.store.crs ==> !HasFinalizer(w.store.crs[k].meta)
  {
    if base == 0 {
      assert WithFinalizer(w.store) == {};
      forall k | k in w.store.crs
        ensures !HasFinalizer(w.store.crs[k].meta)
      {
        assert k !in WithFinalizer(w.store);
      }
    } else {
      assert WithFinalizer(w.store) != {};
      var k :| k in WithFinalizer(w.store);
      assert HasFinalizer(w.store.crs[k].meta);
    }
  }
}
