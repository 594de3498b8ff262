/** The API server as an object. Before each call other writers may replace the whole store, unless it
    is quiet; the call itself may fail with or without effect. */
module Api {
  import opened Kube

  class Server {
    const quiet: bool
    var store: Store

    constructor (quiet: bool, store: Store)
      ensures this.quiet == quiet && this.store == store
    {
      this.quiet, this.store := quiet, store;
    }

    method Do(c: Call) returns (r: Reply)
      modifies this
      ensures exists s :: (quiet ==> s == old(store)) && Exec(s, c, r, store)
    {
      if !quiet {
        var others: Store := *;
        store := others;
      }
      var lost: bool, applied: bool := *, *;
      if lost {
        if applied {
          ghost var before := store;
          store := Apply(store, c);
          assert Exec(before, c, Failed, store);
        } else {
          assert Exec(store, c, Failed, store);
        }
        return Failed;
      }
      ghost var before := store;
      r := Answer(c);
      store := Apply(store, c);
      assert Exec(before, c, r, store);
    }

    method Answer(c: Call) returns (r: Reply)
      ensures Answers(store, c, r) && r != Failed
    {
      match c
      case GetCD(k) => r := if k in store.cds then GotCD(store.cds[k]) else NotFound;
      case GetCR(k) => r := if k in store.crs then GotCR(store.crs[k]) else NotFound;
      case GetSecret(k) => r := if k in store.secrets then GotSecret(store.secrets[k], store.now) else NotFound;
      case ListCRs(ns) =>
        var keys := Listing(set k | k in store.crs && k.ns == ns);
        r := Keys(keys);
      case ListCDs =>
        var keys := Listing(store.cds.Keys);
        r := Keys(keys);
      case PatchCDFinalizers(k, fs) =>
        r := if k !in store.cds then NotFound
             else if !FinalizersAllowed(store.cds[k].meta, fs) then Refused
             else GotCD(store.cds[k].(meta := store.cds[k].meta.(finalizers := fs, rv := store.rv + 1)));
      case PatchCRFinalizers(k, fs) =>
        r := if k !in store.crs then NotFound
             else if !FinalizersAllowed(store.crs[k].meta, fs) then Refused
             else GotCR(store.crs[k].(meta := store.crs[k].meta.(finalizers := fs, rv := store.rv + 1)));
      case PatchCROwners(k, owners) =>
        r := if k !in store.crs then NotFound
             else GotCR(store.crs[k].(owners := owners, meta := store.crs[k].meta.(rv := store.rv + 1)));
      case CreateCR(k, _, _) => r := if k in store.crs then AlreadyExists else Done;
      case UpdateCR(k, copy) => r := if k !in store.crs then NotFound else if UpdateAllowed(store, k, copy) then Done else Refused;
      case UpdateCRStatus(k, copy) =>
        r := if k !in store.crs then NotFound else if store.crs[k].meta.rv == copy.meta.rv then Done else Refused;
      case DeleteCR(k) => r := if k in store.crs then Done else NotFound;
      case CreateSecret(k, _) => r := if k in store.secrets then AlreadyExists else Done;
      case UpdateSecret(k, _, pre) =>
        r := if k !in store.secrets then NotFound else if SecretUpdateAllowed(store, k, pre) then Done else Refused;
      case ReadEmail => r := if store.email == "" then Refused else Email(store.email);
      case BuildDnsClient => r := Done;
      case BuildAcmeClient => r := Done;
      case IssueCertificate(_) => r := Refused;
      case Revoke(certificate) => r := if certificate in store.revoked then AlreadyRevoked else Done;
      case CleanUpDns => r := Done;
    }
  }

  /** Some order of a set of keys. */
  method Listing(keys: set<Key>) returns (listed: seq<Key>)
    ensures forall k :: k in listed <==> k in keys
  {
    listed := [];
    var rest := keys;
    while rest != {}
      invariant forall k :: k in keys <==> k in listed || k in rest
      decreases rest
    {
      var k :| k in rest;
      listed := listed + [k];
      rest := rest - {k};
    }
  }
}
