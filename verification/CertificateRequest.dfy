/** The CertificateRequest reconciler as the code it is. Its calls are exactly those of the protocol
    thread, its orders those of the issuer, and its gauge moves those the protocol accounts for. */
module CertificateRequestController {
  import opened GoStrings
  import opened Certificates
  import opened Kube
  import opened Api
  import opened LocalMetrics
  import Acme
  import Issuance
  import Protocol
  import Proto = CRProtocol
  import Renewal
  import CRTraces

  /** What relocationBailOut says about a ClusterDeployment. */
  datatype Bail = Relocating | NotRelocating | Missing | Broken

  function BailOf(r: Reply): Bail {
    if r == NotFound then Missing
    else if !r.GotCD? then Broken
    else
      match RelocationOf(r.cd)
      case Malformed => Broken
      case Outgoing => Relocating
      case Staying => NotRelocating
  }

  /** The copy in hand is the stored object. */
  predicate Current(s: Store, k: Key, cr: CR) {
    k in s.crs && s.crs[k] == cr
  }

  /** The named secret reads back as this certificate, and every status field that records a certificate
      agrees with it. */
  predicate Recorded(s: Store, k: Key, spec: CRSpec, c: Certificate) {
    && Key(k.ns, spec.secretName) in s.secrets
    && CertificateOf(s.secrets[Key(k.ns, spec.secretName)]) == Ok(c)
    && k in s.crs
    && var status := s.crs[k].status;
       && status.issued
       && status.issuerName == c.issuerCommonName
       && status.notBefore == Some(c.notBefore)
       && status.notAfter == Some(c.notAfter)
       && status.serialNumber == Some(c.serialNumber)
  }

  /** A certificate is to be issued for this spec: there is no secret, or what it holds is due. */
  predicate Wants(s: Store, k: Key, spec: CRSpec) {
    Key(k.ns, spec.secretName) !in s.secrets || CRTraces.Due(s.secrets[Key(k.ns, spec.secretName)], spec, s.now)
  }

  /** No ClusterDeployment of the namespace relocates. */
  ghost predicate AllStay(s: Store, ns: string) {
    forall c: Key :: c in s.cds && c.ns == ns ==> RelocationOf(s.cds[c]) == Kube.Staying
  }

  /** The named secret holds what the CA has delivered since, for the spec's names: it reads back as the first
      certificate of the fetched chain and carries the key of the request. */
  ghost predicate HasDelivered(s: Store, k: Key, spec: CRSpec, ca: Acme.Outside, since: nat)
    reads ca
  {
    exists chain, certKey ::
      && |ca.events| >= since + 4
      && Issuance.Delivered(ca, ca.events, spec.dnsNames, chain, certKey)
      && HoldsChain(s, Key(k.ns, spec.secretName), chain, certKey)
  }

  predicate HoldsChain(s: Store, key: Key, chain: seq<Certificate>, certKey: nat) {
    && |chain| >= 2
    && key in s.secrets
    && CertificateOf(s.secrets[key]) == Ok(chain[0])
    && s.secrets[key].tlsKey == Some(certKey)
  }

  /** Nothing that decides about issuing has changed. */
  predicate SameGrounds(s: Store, s': Store) {
    s'.secrets == s.secrets && s'.cds == s.cds && s'.now == s.now
  }

  /** A reply after which something is amiss: a call failed or was refused, an object is not there although one
      was needed, an annotation or a certificate cannot be read, or is not one to revoke. */
  predicate WentWrong(pc: Proto.Pc, r: Reply) {
    || ((r == Failed || r == Refused) && !pc.FinCleaning?)
    || (r == NotFound && !pc.Getting? && !pc.CheckingRelocation? && !pc.GettingSecret? && !pc.FinCheckingSecret?)
    || (r.Keys? && r.keys == [])
    || (r.GotCD? && RelocationOf(r.cd) == Malformed)
    || (r.GotSecret? && pc.CheckingReissue? && r.secret.tlsCert.Some? && !CertificateOf(r.secret).Ok?)
    || (r.GotSecret? && (pc.ReadingIssued? || pc.FinReading?) && !CertificateOf(r.secret).Ok?)
    || (r.GotSecret? && pc.FinReading? && CertificateOf(r.secret).Ok? && !IssuedByLetsEncrypt(CertificateOf(r.secret).value))
  }

  ghost predicate SomeWrong(k: Key, m: string, replies: seq<Reply>) {
    exists i :: 0 <= i < |replies| && WentWrong(Proto.After(k, m, replies[..i]), replies[i])
  }

  lemma WrongSoFar(k: Key, m: string, replies: seq<Reply>, r: Reply)
    ensures SomeWrong(k, m, replies + [r]) <==> SomeWrong(k, m, replies) || WentWrong(Proto.After(k, m, replies), r)
  {
    hide WentWrong, Proto.After;
    var all := replies + [r];
    assert all[..|replies|] == replies && all[|replies|] == r;
    forall i | 0 <= i < |replies|
      ensures all[..i] == replies[..i] && all[i] == replies[i]
    {
    }
  }

  /** What else a call of this controller can be told. */
  predicate Shape(c: Kube.Call, r: Reply) {
    && (c.GetCR? ==> r.GotCR? || r == NotFound)
    && (c.GetCD? ==> r.GotCD? || r == NotFound)
    && (c.GetSecret? ==> r.GotSecret? || r == NotFound)
    && (c.ListCDs? ==> r.Keys?)
    && (c.PatchCRFinalizers? || c.PatchCROwners? ==> r.GotCR?)
    && (c.CreateSecret? ==> r == Done || r == AlreadyExists)
    && (c.UpdateSecret? || c.UpdateCR? || c.UpdateCRStatus? || c.BuildDnsClient? || c.BuildAcmeClient? ==> r == Done)
    && (c.Revoke? ==> r == Done || r == AlreadyRevoked)
  }

  lemma ShapeOf(s: Store, k: Key, pc: Proto.Pc, r: Reply, s': Store)
    requires pc != Proto.Idle && Exec(s, Proto.Pending(k, pc), r, s')
    ensures WentWrong(pc, r) || Shape(Proto.Pending(k, pc), r)
  {
    hide Apply, FinalizersAllowed, UpdateAllowed, SecretUpdateAllowed, RelocationOf, CertificateOf, IssuedByLetsEncrypt, Without;
  }

  class CertificateRequestReconciler {
    const server: Server
    const issuer: Issuance.Issuer
    const metrics: Metrics
    const key: Key
    /** The text of the error an issuance may end with. */
    const message: string
    ghost var pc: Proto.Pc
    ghost var replies: seq<Reply>
    /** What the protocol says the gauge gains from the replies so far. */
    ghost var gained: int
    /** Some reply so far went wrong. */
    ghost var wrong: bool

    constructor (server: Server, issuer: Issuance.Issuer, metrics: Metrics, key: Key, message: string)
      ensures this.server == server && this.issuer == issuer && this.metrics == metrics && this.key == key && this.message == message
      ensures OnTrack() && pc == Proto.Getting && gained == 0 && !wrong
    {
      this.server, this.issuer, this.metrics, this.key, this.message := server, issuer, metrics, key, message;
      pc, replies, gained, wrong := Proto.Getting, [], 0, false;
    }

    /** The reconcile so far is a run of the protocol thread. */
    ghost predicate OnTrack()
      reads this
    {
      pc == Proto.After(key, message, replies) && (wrong <==> SomeWrong(key, message, replies))
    }

    /** Bookkeeping of one answered call. */
    ghost method Take(r: Reply)
      requires OnTrack() && pc != Proto.Idle
      modifies this`pc, this`replies, this`gained, this`wrong
      ensures OnTrack() && pc == Proto.Advance(key, message, old(pc), r)
      ensures replies == old(replies) + [r] && gained == old(gained) + Protocol.GaugeDelta(old(pc), r)
      ensures wrong <==> old(wrong) || WentWrong(old(pc), r)
    {
      hide Proto.Advance, WentWrong, SomeWrong;
      assert (replies + [r])[..|replies|] == replies;
      WrongSoFar(key, message, replies, r);
      wrong := wrong || WentWrong(pc, r);
      gained := gained + Protocol.GaugeDelta(pc, r);
      pc := Proto.Advance(key, message, pc, r);
      replies := replies + [r];
    }

    /** Every call to the API server and for revocation goes through here, and only the one the protocol
        thread has pending. */
    method Call(c: Kube.Call) returns (r: Reply)
      requires OnTrack() && pc != Proto.Idle && c == Proto.Pending(key, pc) && !c.IssueCertificate?
      modifies this`pc, this`replies, this`gained, this`wrong, server
      ensures OnTrack() && pc == Proto.Advance(key, message, old(pc), r)
      ensures replies == old(replies) + [r] && gained == old(gained) + Protocol.GaugeDelta(old(pc), r)
      ensures wrong <==> old(wrong) || WentWrong(old(pc), r)
      ensures WentWrong(old(pc), r) || Shape(c, r)
      ensures exists s :: (server.quiet ==> s == old(server.store)) && Exec(s, c, r, server.store)
    {
      hide Exec, Proto.Advance, Proto.After, Proto.Pending, WentWrong, Shape, SomeWrong;
      r := server.Do(c);
      ghost var s :| (server.quiet ==> s == old(server.store)) && Exec(s, c, r, server.store);
      ShapeOf(s, key, pc, r, server.store);
      Take(r);
    }

    // ----- pieces of Reconcile -----

    method FindOwnerName(owners: seq<OwnerRef>) returns (name: string)
      ensures name == Proto.OwnerName(owners)
      ensures (forall i :: 0 <= i < |owners| ==> owners[i].kind != "ClusterDeployment") ==> name == ""
      ensures forall i :: (&& 0 <= i < |owners| && owners[i].kind == "ClusterDeployment"
                           && (forall j :: i < j < |owners| ==> owners[j].kind != "ClusterDeployment")) ==> name == owners[i].name
    {
      Proto.OwnerNameExactly(owners);
      name := "";
      for i := 0 to |owners|
        invariant name == Proto.OwnerName(owners[..i])
      {
        assert owners[..i + 1][..i] == owners[..i];
        if owners[i].kind == CLUSTER_DEPLOYMENT {
          name := owners[i].name;
        }
      }
      assert owners[..|owners|] == owners;
    }

    /** From the object with its finalizer to the object with its owner. */
    method ResolveOwner(cr: CR) returns (err: bool, owned: CR, name: string)
      requires OnTrack() && pc == Proto.FindOwner(cr)
      modifies this`pc, this`replies, this`gained, this`wrong, server
      ensures (old(wrong) ==> wrong) && (err ==> wrong)
      ensures OnTrack() && gained == old(gained)
      ensures pc == if err then Proto.Idle else Proto.CheckingRelocation(owned, name)
      ensures server.quiet ==> SameGrounds(old(server.store), server.store)
      ensures server.quiet && SpecIs(old(server.store), key, cr.spec) && !err ==> owned.spec == cr.spec
      ensures !err ==> owned.owners == if cr.owners == [] then [OwnerRef("ClusterDeployment", name)] else cr.owners
    {
      hide OnTrack, Exec, Proto.After, RelocationOf, CertificateOf, IssuedByLetsEncrypt, Renewal.Reissue, Proto.AfterIssuedRead, Proto.ErrorStatus;
      owned := cr;
      err, name := OwnerOrFirst(cr);
      if err {
        return;
      }
      ghost var s0 := server.store;
      var r := Call(GetCD(Key(key.ns, name)));
      DeploymentRead(s0, Key(key.ns, name), r, server.store, server.quiet);
      if !r.GotCD? {
        return true, owned, name;
      }
      if |cr.owners| == 0 {
        s0 := server.store;
        r := Call(PatchCROwners(key, [OwnerRef(CLUSTER_DEPLOYMENT, name)]));
        PatchKeepsGrounds(s0, key, PatchCROwners(key, [OwnerRef(CLUSTER_DEPLOYMENT, name)]), r, server.store, server.quiet);
        if !r.GotCR? {
          return true, owned, name;
        }
        owned := r.cr;
      }
    }

    /** The owner's name, or without one that of the first ClusterDeployment in any namespace. */
    method OwnerOrFirst(cr: CR) returns (err: bool, name: string)
      requires OnTrack() && pc == Proto.FindOwner(cr)
      modifies this`pc, this`replies, this`gained, this`wrong, server
      ensures (old(wrong) ==> wrong) && (err ==> wrong)
      ensures OnTrack() && gained == old(gained)
      ensures pc == if err then Proto.Idle else Proto.GettingOwner(cr, name)
      ensures Proto.OwnerName(cr.owners) != "" ==> !err && name == Proto.OwnerName(cr.owners)
      ensures server.quiet ==> server.store == old(server.store)
    {
      hide OnTrack, Exec, Proto.After;
      name := FindOwnerName(cr.owners);
      if name == "" {
        ghost var s0 := server.store;
        var r := Call(ListCDs);
        NothingWritten(s0, ListCDs, r, server.store, server.quiet);
        if !r.Keys? || |r.keys| == 0 {
          return true, name;
        }
        name := r.keys[0].name;
      }
      err := false;
    }

    method RelocationBailOut(name: string) returns (bail: Bail, ghost r: Reply)
      requires OnTrack() && (pc.CheckingRelocation? || pc.RecheckingRelocation?) && pc.cdName == name
      modifies this`pc, this`replies, this`gained, this`wrong, server
      ensures (old(wrong) ==> wrong) && (bail.Broken? || (bail.Missing? && old(pc).RecheckingRelocation?) ==> wrong)
      ensures OnTrack() && gained == old(gained)
      ensures bail == BailOf(r) && pc == Proto.Advance(key, message, old(pc), r)
      ensures server.quiet ==> server.store == old(server.store)
      ensures server.quiet && AllStay(old(server.store), key.ns) ==> !bail.Relocating?
    {
      hide OnTrack, Exec, Proto.After;
      ghost var s0 := server.store;
      var reply := Call(GetCD(Key(key.ns, name)));
      r := reply;
      DeploymentRead(s0, Key(key.ns, name), reply, server.store, server.quiet);
      if !reply.GotCD? {
        return if reply == NotFound then Missing else Broken, r;
      }
      var relocation := RelocationOf(reply.cd);
      bail := if relocation.Malformed? then Broken else if relocation.Outgoing? then Relocating else NotRelocating;
    }

    /** The relocation text goes out with a plain update, which does not carry status. */
    method MarkRelocating(cr: CR) returns (err: bool)
      requires OnTrack() && pc == Proto.MarkingRelocation(Proto.Marked(cr))
      modifies this`pc, this`replies, this`gained, this`wrong, server
      ensures (old(wrong) ==> wrong) && (err ==> wrong)
      ensures OnTrack() && gained == old(gained) && pc == Proto.Idle
      ensures server.quiet ==> server.store.secrets == old(server.store).secrets
      ensures server.quiet && Current(old(server.store), key, cr) && !Gone(cr.meta) && !err ==>
                && key in server.store.crs
                && server.store.crs[key].status == cr.status
                && server.store == old(server.store).(crs := server.store.crs, rv := server.store.rv)
    {
      hide OnTrack, Proto.After;
      var marked := cr.(status := cr.status.(status := Proto.RELOCATING));
      var r := Call(UpdateCR(key, marked));
      err := r != Done;
    }

    // ----- status -----

    /** updateStatus. */
    method UpdateStatus(cr: CR) returns (err: bool)
      requires OnTrack() && pc == Proto.ReadingIssued(cr)
      modifies this`pc, this`replies, this`gained, this`wrong, server
      ensures (old(wrong) ==> wrong) && (err ==> wrong)
      ensures OnTrack() && gained == old(gained) && pc == Proto.Idle
      ensures server.quiet && !err && Settled(old(server.store)) && Current(old(server.store), key, cr) ==>
                && (exists c :: Recorded(server.store, key, cr.spec, c))
                && server.store.crs[key].status.conditions == cr.status.conditions
                && (server.store.crs[key].status == cr.status || server.store.crs[key].status.status == "Success")
      ensures old(replies) <= replies
      ensures server.quiet ==> server.store.secrets == old(server.store).secrets
      ensures (server.quiet && Current(old(server.store), key, cr) && exists c :: Recorded(old(server.store), key, cr.spec, c)) ==>
                server.store == old(server.store)
    {
      hide OnTrack, Proto.After, Exec, Apply, Answers, Settled, Proto.StatusAgrees, RelocationOf, IssuedByLetsEncrypt, Renewal.Reissue, Proto.OwnerName, Proto.ErrorStatus, CertificateOf, Recorded;
      ghost var s0 := server.store;
      var r := Call(GetSecret(SecretKey(key, cr.spec)));
      SecretRead(s0, SecretKey(key, cr.spec), r, server.store, server.quiet);
      if !r.GotSecret? {
        return true;
      }
      var read := CertificateOf(r.secret);
      if !read.Ok? {
        return true;
      }
      var certificate := read.value;
      AgreesMeans(cr.status, certificate);
      if server.quiet {
        RecordedMeans(s0, key, cr.spec, certificate);
      }
      if !cr.status.issued
         || cr.status.issuerName != certificate.issuerCommonName
         || cr.status.notBefore != Some(certificate.notBefore)
         || cr.status.notAfter != Some(certificate.notAfter)
         || cr.status.serialNumber != Some(certificate.serialNumber) {
        var status := cr.status.(
          issued := true,
          issuerName := certificate.issuerCommonName,
          notBefore := Some(certificate.notBefore),
          notAfter := Some(certificate.notAfter),
          serialNumber := Some(certificate.serialNumber),
          status := "Success");
        AgreesMeans(status, certificate);
        ghost var s1 := server.store;
        r := Call(UpdateCRStatus(key, cr.(status := status)));
        StatusWritten(s1, key, cr.(status := status), r, server.store, server.quiet);
        if r != Done {
          return true;
        }
      }
      if server.quiet {
        RecordedMeans(server.store, key, cr.spec, certificate);
      }
      return false;
    }

    /** acmeError: a condition for this error unless there is one already. */
    method AcmeError(status: CRStatus, text: string) returns (condition: Option<Condition>)
      ensures condition == if Proto.HasAcmeError(status) then None else Some(Condition(Proto.ACME_ERROR, "Error", text))
    {
      var found := false;
      for i := 0 to |status.conditions|
        invariant found <==> exists j :: 0 <= j < i && status.conditions[j].ctype == Proto.ACME_ERROR
      {
        if status.conditions[i].ctype == Proto.ACME_ERROR {
          found := true;
        }
      }
      condition := if found then None else Some(Condition(Proto.ACME_ERROR, "Error", text));
    }

    /** updateStatusError. */
    method UpdateStatusError(cr: CR)
      requires OnTrack() && pc == Proto.WritingStatus(cr.(status := Proto.ErrorStatus(cr.status, message)))
      modifies this`pc, this`replies, this`gained, this`wrong, server
      ensures old(wrong) ==> wrong
      ensures old(replies) <= replies
      ensures OnTrack() && gained == old(gained) && pc == Proto.Idle
      ensures server.quiet ==> server.store.secrets == old(server.store).secrets
    {
      hide OnTrack, Proto.After, Exec, Apply, Answers, Contains;
      var status := cr.status.(issued := false, status := "Error");
      if Contains(message, "acme") {
        var condition := AcmeError(cr.status, message);
        if condition.Some? {
          status := status.(conditions := status.conditions + [condition.value]);
        }
      }
      ghost var s0 := server.store;
      var r := Call(UpdateCRStatus(key, cr.(status := status)));
      StatusWritten(s0, key, cr.(status := status), r, server.store, server.quiet);
    }

    // ----- issuing -----

    /** One IssueCertificate and what the protocol makes of its outcome. */
    method Issue(cr: CR, found: Option<Secret>, secret: Issuance.SecretObject)
      returns (result: Outcome<()>, ghost chain: seq<Certificate>, ghost certKey: nat)
      requires OnTrack() && pc == Proto.Issuing(cr, found)
      modifies this`pc, this`replies, this`gained, this`wrong, issuer.le, issuer.le.ca, secret
      ensures wrong <==> old(wrong) || !result.Ok?
      ensures OnTrack() && gained == old(gained)
      ensures |replies| == |old(replies)| + 1 && old(replies) <= replies
      ensures Issuance.Orders(issuer.le.ca.events) <= Issuance.Orders(old(issuer.le.ca.events)) + 1
      ensures result.Ok? ==> Issuance.Holds(secret.labels, secret.tlsCert, secret.tlsKey, key.name, chain, certKey)
      ensures result.Ok? ==> |issuer.le.ca.events| >= |old(issuer.le.ca.events)| + 4
      ensures result.Ok? ==> Issuance.Delivered(issuer.le.ca, issuer.le.ca.events, cr.spec.dnsNames, chain, certKey)
      ensures pc == (if result.Ok? then
                       if found.Some? then Proto.UpdatingSecret(cr, Snapshot(secret), found.value.rv)
                       else Proto.CreatingSecret(cr, Snapshot(secret))
                     else if result.Err? && found.None? then Proto.WritingStatus(cr.(status := Proto.ErrorStatus(cr.status, message)))
                     else Proto.Idle)
    {
      hide OnTrack, Proto.After, Issuance.Orders, Proto.ErrorStatus, Issuance.Delivered, Issuance.Proper, Issuance.NoZones, Issuance.Cleared, Issuance.Unpublished;
      ghost var done;
      result, done, chain, certKey := issuer.IssueCertificate(key.name, cr.spec.email, cr.spec.dnsNames, secret);
      Take(if result.Ok? then Issued(Snapshot(secret)) else if result.Err? then Refused else Failed);
    }

    /** createCertificateSecret. The ghost results are the delivered chain, empty if there was none, and the
        private key that goes with it. */
    method CreateCertificateSecret(cr: CR) returns (err: bool, ghost chain: seq<Certificate>, ghost certKey: nat)
      requires OnTrack() && pc == Proto.Issuing(cr, None)
      modifies this`pc, this`replies, this`gained, this`wrong, server, issuer.le, issuer.le.ca
      ensures (old(wrong) ==> wrong) && (err ==> wrong)
      ensures OnTrack() && gained == old(gained) && pc == Proto.Idle
      ensures |old(replies)| < |replies| && old(replies) <= replies
      ensures Issuance.Orders(issuer.le.ca.events) <= Issuance.Orders(old(issuer.le.ca.events)) + 1
      // all or nothing
      ensures server.quiet && chain == [] ==> err && server.store.secrets == old(server.store).secrets
      ensures server.quiet && !err && Settled(old(server.store)) && Current(old(server.store), key, cr) ==>
                && |chain| >= 2 && Recorded(server.store, key, cr.spec, chain[0])
                && server.store.secrets[SecretKey(key, cr.spec)].tlsKey == Some(certKey)
      ensures chain != [] ==> |issuer.le.ca.events| >= |old(issuer.le.ca.events)| + 4
      ensures chain != [] ==> Issuance.Delivered(issuer.le.ca, issuer.le.ca.events, cr.spec.dnsNames, chain, certKey)
      ensures server.quiet && !err ==> HoldsChain(server.store, SecretKey(key, cr.spec), chain, certKey)
    {
      hide OnTrack, WentWrong, Proto.After, Issuance.Orders, Proto.ErrorStatus, Proto.StatusAgrees, Gone, Issuance.Delivered;
      var secret := new Issuance.SecretObject(map[], None, None);
      var result;
      result, chain, certKey := Issue(cr, None, secret);
      if !result.Ok? {
        chain := [];
        if result.Err? {
          UpdateStatusError(cr);
        }
        return true, chain, certKey;
      }
      var stored := Snapshot(secret);
      err := StoreNew(cr, stored);
      if err {
        return;
      }
      ghost var s1 := server.store;
      err := UpdateStatus(cr);
      if server.quiet && !err && Settled(s1) && Current(s1, key, cr) {
        assert CertificateOf(server.store.secrets[SecretKey(key, cr.spec)]) == Ok(chain[0]);
      }
    }

    /** Create the secret, or overwrite the one that has appeared meanwhile. */
    method StoreNew(cr: CR, secret: Secret) returns (err: bool)
      requires OnTrack() && pc == Proto.CreatingSecret(cr, secret)
      modifies this`pc, this`replies, this`gained, this`wrong, server
      ensures (old(wrong) ==> wrong) && (err ==> wrong)
      ensures OnTrack() && gained == old(gained) && old(replies) <= replies
      ensures pc == if err then Proto.Idle else Proto.ReadingIssued(cr)
      ensures server.quiet && !err ==> Stored(old(server.store), SecretKey(key, cr.spec), secret, server.store)
    {
      hide OnTrack, Proto.After;
      ghost var s0 := server.store;
      var r := Call(CreateSecret(SecretKey(key, cr.spec), secret));
      if r == AlreadyExists {
        assert server.quiet ==> server.store == s0;
        r := Call(UpdateSecret(SecretKey(key, cr.spec), secret, None));
      }
      err := r != Done;
    }

    /** Reissue into the secret that was found. */
    method Renew(cr: CR, found: Secret) returns (err: bool, ghost chain: seq<Certificate>, ghost certKey: nat)
      requires OnTrack() && pc == Proto.Issuing(cr, Some(found))
      modifies this`pc, this`replies, this`gained, this`wrong, server, issuer.le, issuer.le.ca
      ensures (old(wrong) ==> wrong) && (err ==> wrong)
      ensures OnTrack() && gained == old(gained) && pc == Proto.Idle
      ensures |old(replies)| < |replies| && old(replies) <= replies
      ensures Issuance.Orders(issuer.le.ca.events) <= Issuance.Orders(old(issuer.le.ca.events)) + 1
      ensures server.quiet && chain == [] ==> err && server.store.secrets == old(server.store).secrets
      ensures server.quiet && !err ==>
                && SecretKey(key, cr.spec) in server.store.secrets
                && |chain| >= 2
                && CertificateOf(server.store.secrets[SecretKey(key, cr.spec)]) == Ok(chain[0])
                && server.store.secrets[SecretKey(key, cr.spec)].tlsKey == Some(certKey)
      ensures chain != [] ==> |issuer.le.ca.events| >= |old(issuer.le.ca.events)| + 4
      ensures chain != [] ==> Issuance.Delivered(issuer.le.ca, issuer.le.ca.events, cr.spec.dnsNames, chain, certKey)
      // a secret that has changed since it was read is not overwritten
      ensures server.quiet && SecretKey(key, cr.spec) in old(server.store).secrets
              && old(server.store).secrets[SecretKey(key, cr.spec)].rv != found.rv ==>
                server.store.secrets == old(server.store).secrets
    {
      hide OnTrack, WentWrong, Proto.After, Issuance.Orders, Issuance.Delivered, Proto.StatusAgrees, Settled, Exec, Apply, Answers, Recorded, Proto.AfterIssuedRead, Proto.ErrorStatus, Renewal.Reissue, Current;
      var secret := new Issuance.SecretObject(found.labels, found.tlsCert, found.tlsKey);
      var result;
      result, chain, certKey := Issue(cr, Some(found), secret);
      if !result.Ok? {
        chain := [];
        return true, chain, certKey;
      }
      err := StoreRenewed(cr, Snapshot(secret), found.rv);
      if err {
        return;
      }
      var ignored := UpdateStatus(cr);
    }

    /** Update the secret, unless it has changed since it was read. */
    method StoreRenewed(cr: CR, secret: Secret, readAt: nat) returns (err: bool)
      requires OnTrack() && pc == Proto.UpdatingSecret(cr, secret, readAt)
      modifies this`pc, this`replies, this`gained, this`wrong, server
      ensures (old(wrong) ==> wrong) && (err ==> wrong)
      ensures OnTrack() && gained == old(gained) && old(replies) <= replies
      ensures pc == if err then Proto.Idle else Proto.ReadingIssued(cr)
      ensures server.quiet && !err ==> Stored(old(server.store), SecretKey(key, cr.spec), secret, server.store)
      ensures (server.quiet && SecretKey(key, cr.spec) in old(server.store).secrets
               && old(server.store).secrets[SecretKey(key, cr.spec)].rv != readAt) ==> err && server.store == old(server.store)
    {
      hide OnTrack, Proto.After, Exec, Apply, Answers;
      ghost var s0 := server.store;
      var r := Call(UpdateSecret(SecretKey(key, cr.spec), secret, Some(readAt)));
      SecretUpdated(s0, SecretKey(key, cr.spec), secret, readAt, r, server.store, server.quiet);
      err := r != Done;
    }

    // ----- finalizing -----

    /** RevokeCertificate. */
    method RevokeCertificate(cr: CR) returns (err: bool)
      requires OnTrack() && pc == Proto.FinBuildingDns(cr)
      modifies this`pc, this`replies, this`gained, this`wrong, server
      ensures (old(wrong) ==> wrong) && (err ==> wrong)
      ensures OnTrack() && gained == old(gained)
      ensures if err then pc == Proto.Idle
              else pc.FinRemoving? && pc.cr == cr && pc.evidence.CertificateRevoked? && IssuedByLetsEncrypt(pc.evidence.certificate)
      ensures server.quiet && !err ==> Discharged(server.store, key, cr.spec)
    {
      hide OnTrack, Proto.After, Exec, Apply, Answers;
      ghost var s0 := server.store;
      var r := Call(BuildDnsClient);
      NothingWritten(s0, BuildDnsClient, r, server.store, server.quiet);
      if r != Done {
        return true;
      }
      r := Call(BuildAcmeClient);
      NothingWritten(s0, BuildAcmeClient, r, server.store, server.quiet);
      if r != Done {
        return true;
      }
      r := Call(GetSecret(SecretKey(key, cr.spec)));
      SecretRead(s0, SecretKey(key, cr.spec), r, server.store, server.quiet);
      if !r.GotSecret? {
        return true;
      }
      var read := CertificateOf(r.secret);
      if !read.Ok? {
        return true;
      }
      var ours := IsCertificateIssuerLE(read.value);
      if !ours {
        return true;
      }
      err := RevokeAndCleanUp(cr, read.value);
    }

    method RevokeAndCleanUp(cr: CR, certificate: Certificate) returns (err: bool)
      requires OnTrack() && pc == Proto.FinRevoking(cr, certificate)
      modifies this`pc, this`replies, this`gained, this`wrong, server
      ensures (old(wrong) ==> wrong) && (err ==> wrong)
      ensures OnTrack() && gained == old(gained)
      ensures pc == if err then Proto.Idle else Proto.FinRemoving(cr, Proto.CertificateRevoked(certificate))
      ensures server.quiet && !err ==>
                certificate in server.store.revoked && server.store == old(server.store).(revoked := server.store.revoked)
    {
      hide OnTrack, Proto.After, Exec, Apply, Answers;
      ghost var s0 := server.store;
      var r := Call(Revoke(certificate));
      RevokeTells(s0, certificate, r, server.store, server.quiet);
      if r != Done && r != AlreadyRevoked {
        return true;
      }
      s0 := server.store;
      r := Call(CleanUpDns);
      NothingWritten(s0, CleanUpDns, r, server.store, server.quiet);
      return false;
    }

    /** revokeCertificateAndDeleteSecret, which deletes no secret. */
    method RevokeCertificateAndDeleteSecret(cr: CR) returns (err: bool)
      requires OnTrack() && pc == Proto.FinCheckingSecret(cr)
      modifies this`pc, this`replies, this`gained, this`wrong, server
      ensures (old(wrong) ==> wrong) && (err ==> wrong)
      ensures OnTrack() && gained == old(gained)
      ensures if err then pc == Proto.Idle else pc.FinRemoving? && pc.cr == cr
      ensures server.quiet && !err ==> Discharged(server.store, key, cr.spec)
    {
      hide OnTrack, Proto.After, Exec, Apply, Answers;
      ghost var s0 := server.store;
      var r := Call(GetSecret(SecretKey(key, cr.spec)));
      SecretRead(s0, SecretKey(key, cr.spec), r, server.store, server.quiet);
      if r == NotFound {
        return false;
      }
      if !r.GotSecret? {
        return true;
      }
      err := RevokeCertificate(cr);
    }

    /** finalizeCertificateRequest. */
    method FinalizeCertificateRequest(cr: CR) returns (err: bool)
      requires OnTrack() && cr.meta.terminating && pc == Proto.AfterGet(cr)
      modifies this`pc, this`replies, this`gained, this`wrong, server, metrics
      ensures (old(wrong) ==> wrong) && (err ==> wrong)
      ensures OnTrack() && pc == Proto.Idle
      ensures metrics.certRequests - old(metrics.certRequests)
              == gained - old(gained) - (if HasFinalizer(cr.meta) then 0 else 1)
      ensures server.quiet && !err && HasFinalizer(cr.meta) ==>
                Discharged(server.store, key, cr.spec) && (key in server.store.crs ==> FinalizerGone(server.store.crs[key].meta, cr.meta))
    {
      hide OnTrack, Proto.After, Exec, Apply, Answers, Discharged;
      var mine := ContainsString(cr.meta.finalizers, FINALIZER);
      if mine {
        err := RevokeCertificateAndDeleteSecret(cr);
        if err {
          return;
        }
        var left := RemoveString(cr.meta.finalizers, FINALIZER);
        ghost var s0 := server.store;
        var r := Call(PatchCRFinalizers(key, left));
        RemovalLands(s0, key, cr.spec, left, r, server.store, server.quiet);
        if !r.GotCR? {
          return true;
        }
      }
      metrics.DecrementCertRequestsCounter();
      return false;
    }

    // ----- the whole reconcile -----

    /** From the ACME client to the status: issue, renew or keep. With nobody else writing, a certificate that is
        wanted is issued and stored, or an error comes back; otherwise nothing is ordered and the secrets stay. */
    method Certify(cr: CR, name: string) returns (err: bool)
      requires OnTrack() && pc == Proto.BuildingAcme(cr, name)
      modifies this`pc, this`replies, this`gained, this`wrong, server, issuer.le, issuer.le.ca
      ensures (old(wrong) ==> wrong) && (err ==> wrong)
      ensures OnTrack() && gained == old(gained) && pc == Proto.Idle
      ensures Issuance.Orders(issuer.le.ca.events) <= Issuance.Orders(old(issuer.le.ca.events)) + 1
      ensures issuer.le.ca.events != old(issuer.le.ca.events) ==> Ordered(key, message, replies)
      ensures server.quiet && !err && Wants(old(server.store), key, cr.spec) && AllStay(old(server.store), key.ns) ==>
                HasDelivered(server.store, key, cr.spec, issuer.le.ca, |old(issuer.le.ca.events)|)
      ensures server.quiet && !Wants(old(server.store), key, cr.spec) ==>
                issuer.le.ca.events == old(issuer.le.ca.events) && server.store.secrets == old(server.store).secrets
    {
      hide OnTrack, Proto.After, Exec, Issuance.Orders, Renewal.Reissue, RelocationOf, BailOf, Ordered, Proto.AfterIssuedRead, Proto.ErrorStatus, HasDelivered, AllStay,
           CRTraces.Due;
      ghost var s0 := server.store;
      var r := Call(BuildAcmeClient);
      NothingWritten(s0, BuildAcmeClient, r, server.store, server.quiet);
      if r != Done {
        return true;
      }
      r := Call(GetSecret(SecretKey(key, cr.spec)));
      SecretRead(s0, SecretKey(key, cr.spec), r, server.store, server.quiet);
      if r == NotFound {
        err := IssueFirst(cr);
        return;
      }
      if !r.GotSecret? {
        return true;
      }
      err := CheckAndRenew(cr, name, r.secret);
    }

    /** ShouldReissue on a second read, and what follows from it. */
    method CheckAndRenew(cr: CR, name: string, found: Secret) returns (err: bool)
      requires OnTrack() && pc == Proto.CheckingReissue(cr, name, found)
      modifies this`pc, this`replies, this`gained, this`wrong, server, issuer.le, issuer.le.ca
      ensures (old(wrong) ==> wrong) && (err ==> wrong)
      ensures OnTrack() && gained == old(gained) && pc == Proto.Idle
      ensures Issuance.Orders(issuer.le.ca.events) <= Issuance.Orders(old(issuer.le.ca.events)) + 1
      ensures issuer.le.ca.events != old(issuer.le.ca.events) ==> Ordered(key, message, replies)
      ensures server.quiet && !err && Wants(old(server.store), key, cr.spec) && AllStay(old(server.store), key.ns) ==>
                HasDelivered(server.store, key, cr.spec, issuer.le.ca, |old(issuer.le.ca.events)|)
      ensures server.quiet && !Wants(old(server.store), key, cr.spec) ==>
                issuer.le.ca.events == old(issuer.le.ca.events) && server.store.secrets == old(server.store).secrets
    {
      hide OnTrack, Proto.After, Exec, Issuance.Orders, Renewal.Reissue, RelocationOf, BailOf, Ordered, Proto.AfterIssuedRead, Proto.ErrorStatus, HasDelivered, AllStay,
           CRTraces.Due;
      ghost var s0 := server.store;
      var r := Call(GetSecret(SecretKey(key, cr.spec)));
      SecretRead(s0, SecretKey(key, cr.spec), r, server.store, server.quiet);
      if !r.GotSecret? {
        return true;
      }
      var decision := Renewal.ShouldReissue(r.secret, cr.spec.dnsNames, cr.spec.reissueBeforeDays, r.now);
      CRTraces.DueIsReissue(r.secret, cr.spec, r.now);
      if !decision.Ok? {
        return true;
      }
      err := RenewOrKeep(cr, name, found, decision.value);
    }

    method IssueFirst(cr: CR) returns (err: bool)
      requires OnTrack() && pc == Proto.Issuing(cr, None)
      modifies this`pc, this`replies, this`gained, this`wrong, server, issuer.le, issuer.le.ca
      ensures (old(wrong) ==> wrong) && (err ==> wrong)
      ensures OnTrack() && gained == old(gained) && pc == Proto.Idle
      ensures Issuance.Orders(issuer.le.ca.events) <= Issuance.Orders(old(issuer.le.ca.events)) + 1
      ensures Ordered(key, message, replies)
      ensures server.quiet && !err ==> HasDelivered(server.store, key, cr.spec, issuer.le.ca, |old(issuer.le.ca.events)|)
    {
      hide SomeWrong, WentWrong, Proto.After, Issuance.Orders, Ordered, Issuance.Delivered, Recorded, Settled;
      ghost var before, chain, certKey := replies, [], 0;
      err, chain, certKey := CreateCertificateSecret(cr);
      OrderedNow(key, message, before, replies);
    }

    method RenewOrKeep(cr: CR, name: string, found: Secret, reissue: bool) returns (err: bool)
      requires OnTrack() && pc == Proto.RecheckingRelocation(cr, name, found, reissue)
      modifies this`pc, this`replies, this`gained, this`wrong, server, issuer.le, issuer.le.ca
      ensures (old(wrong) ==> wrong) && (err ==> wrong)
      ensures OnTrack() && gained == old(gained) && pc == Proto.Idle
      ensures Issuance.Orders(issuer.le.ca.events) <= Issuance.Orders(old(issuer.le.ca.events)) + 1
      ensures issuer.le.ca.events != old(issuer.le.ca.events) ==> Ordered(key, message, replies)
      ensures server.quiet && !err && reissue && AllStay(old(server.store), key.ns) ==>
                HasDelivered(server.store, key, cr.spec, issuer.le.ca, |old(issuer.le.ca.events)|)
      ensures !reissue ==> issuer.le.ca.events == old(issuer.le.ca.events)
      ensures server.quiet && !reissue ==> server.store.secrets == old(server.store).secrets
    {
      hide SomeWrong, WentWrong, Proto.After, Issuance.Orders, Ordered, Issuance.Delivered, AllStay, Recorded, Settled;
      ghost var r;
      var bail;
      bail, r := RelocationBailOut(name);
      if bail.Missing? || bail.Broken? {
        return true;
      }
      if bail.Relocating? {
        err := MarkRelocating(cr);
        return;
      }
      if reissue {
        ghost var before, chain, certKey := replies, [], 0;
        err, chain, certKey := Renew(cr, found);
        OrderedNow(key, message, before, replies);
        return;
      }
      var ignored := UpdateStatus(cr);
      err := false;
    }

    /** The finalizer, unless it is there; the gauge is raised before the patch. */
    method AddFinalizer(read: CR) returns (err: bool, cr: CR)
      requires OnTrack() && !read.meta.terminating && pc == Proto.AfterGet(read)
      modifies this`pc, this`replies, this`gained, this`wrong, server, metrics
      ensures (old(wrong) ==> wrong) && (err ==> wrong)
      ensures OnTrack() && gained == old(gained)
      ensures pc == if err then Proto.Idle else Proto.FindOwner(cr)
      ensures metrics.certRequests == old(metrics.certRequests) + if HasFinalizer(read.meta) then 0 else 1
      ensures !err ==> FinalizerAdded(cr.meta, read.meta)
      ensures server.quiet ==> SameGrounds(old(server.store), server.store)
      ensures server.quiet && !err && SpecIs(old(server.store), key, read.spec) ==> cr.spec == read.spec && SpecIs(server.store, key, read.spec)
    {
      hide OnTrack, Proto.After, Exec;
      err, cr := false, read;
      var mine := ContainsString(cr.meta.finalizers, FINALIZER);
      if !mine {
        metrics.IncrementCertRequestsCounter();
        ghost var s0 := server.store;
        var r := Call(PatchCRFinalizers(key, cr.meta.finalizers + [FINALIZER]));
        PatchKeepsGrounds(s0, key, PatchCRFinalizers(key, cr.meta.finalizers + [FINALIZER]), r, server.store, server.quiet);
        if !r.GotCR? {
          return true, cr;
        }
        cr := r.cr;
      }
    }

    /** A reconcile of an object that is not terminating. */
    method ReconcileLive(read: CR) returns (err: bool)
      requires OnTrack() && !read.meta.terminating && pc == Proto.AfterGet(read)
      modifies this`pc, this`replies, this`gained, this`wrong, server, metrics, issuer.le, issuer.le.ca
      ensures (old(wrong) ==> wrong) && (err ==> wrong)
      ensures OnTrack() && pc == Proto.Idle
      ensures metrics.certRequests - old(metrics.certRequests)
              == gained - old(gained) + (if HasFinalizer(read.meta) then 0 else 1)
      ensures Issuance.Orders(issuer.le.ca.events) <= Issuance.Orders(old(issuer.le.ca.events)) + 1
      ensures issuer.le.ca.events != old(issuer.le.ca.events) ==> Ordered(key, message, replies)
      ensures server.quiet && !err && SpecIs(old(server.store), key, read.spec) && Wants(old(server.store), key, read.spec)
              && AllStay(old(server.store), key.ns) ==>
                HasDelivered(server.store, key, read.spec, issuer.le.ca, |old(issuer.le.ca.events)|)
      ensures server.quiet && SpecIs(old(server.store), key, read.spec) && !Wants(old(server.store), key, read.spec) ==>
                issuer.le.ca.events == old(issuer.le.ca.events) && server.store.secrets == old(server.store).secrets
    {
      hide OnTrack, WentWrong, Proto.After, Exec, Issuance.Orders, Ordered, HasDelivered, Wants, AllStay;
      WantsByGrounds(server.store, key, read.spec);
      ghost var s0 := server.store;
      var cr;
      err, cr := AddFinalizer(read);
      if err {
        return;
      }
      var owned, name;
      err, owned, name := ResolveOwner(cr);
      if err {
        return;
      }
      assert server.quiet ==> SameGrounds(s0, server.store);
      err := CheckAndCertify(owned, name);
    }

    /** The first relocation check, where a missing deployment does not matter, and what follows it. */
    method CheckAndCertify(cr: CR, name: string) returns (err: bool)
      requires OnTrack() && pc == Proto.CheckingRelocation(cr, name)
      modifies this`pc, this`replies, this`gained, this`wrong, server, issuer.le, issuer.le.ca
      ensures (old(wrong) ==> wrong) && (err ==> wrong)
      ensures OnTrack() && gained == old(gained) && pc == Proto.Idle
      ensures Issuance.Orders(issuer.le.ca.events) <= Issuance.Orders(old(issuer.le.ca.events)) + 1
      ensures issuer.le.ca.events != old(issuer.le.ca.events) ==> Ordered(key, message, replies)
      ensures server.quiet && !err && Wants(old(server.store), key, cr.spec) && AllStay(old(server.store), key.ns) ==>
                HasDelivered(server.store, key, cr.spec, issuer.le.ca, |old(issuer.le.ca.events)|)
      ensures server.quiet && !Wants(old(server.store), key, cr.spec) ==>
                issuer.le.ca.events == old(issuer.le.ca.events) && server.store.secrets == old(server.store).secrets
    {
      hide OnTrack, WentWrong, Proto.After, Issuance.Orders, Ordered, HasDelivered, Wants, AllStay;
      ghost var answer;
      var bail;
      bail, answer := RelocationBailOut(name);
      if bail.Broken? {
        return true;
      }
      if bail.Relocating? {
        err := MarkRelocating(cr);
        return;
      }
      err := Certify(cr, name);
    }

    /** Reconcile: one run of the protocol thread from its first call to its end. It opens at most one
        order, and only for a reason it has read, and moves the gauge as the protocol accounts for. With nobody
        else writing, a terminating object is released only when its secret is absent or its certificate revoked, and a live
        one whose certificate is missing or due, while no deployment relocates, gets one from the CA or an error. */
    method Reconcile() returns (err: bool)
      requires OnTrack() && pc == Proto.Getting
      modifies this`pc, this`replies, this`gained, this`wrong, server, metrics, issuer.le, issuer.le.ca
      ensures (old(wrong) ==> wrong) && (err ==> wrong)
      ensures OnTrack() && pc == Proto.Idle
      ensures metrics.certRequests - old(metrics.certRequests) == gained - old(gained)
      ensures Issuance.Orders(issuer.le.ca.events) <= Issuance.Orders(old(issuer.le.ca.events)) + 1
      ensures issuer.le.ca.events != old(issuer.le.ca.events) ==> Ordered(key, message, replies)
      ensures (server.quiet && !err && key in old(server.store).crs && old(server.store).crs[key].meta.terminating
               && HasFinalizer(old(server.store).crs[key].meta)) ==>
                && Discharged(server.store, key, old(server.store).crs[key].spec)
                && (key in server.store.crs ==> FinalizerGone(server.store.crs[key].meta, old(server.store).crs[key].meta))
      ensures server.quiet && key in old(server.store).crs && !old(server.store).crs[key].meta.terminating ==>
                var spec := old(server.store).crs[key].spec;
                && (!err && Wants(old(server.store), key, spec) && AllStay(old(server.store), key.ns) ==>
                      HasDelivered(server.store, key, spec, issuer.le.ca, |old(issuer.le.ca.events)|))
                && (!Wants(old(server.store), key, spec) ==>
                      issuer.le.ca.events == old(issuer.le.ca.events) && server.store.secrets == old(server.store).secrets)
    {
      hide OnTrack, Proto.After, Exec, Apply, Answers, Issuance.Orders, Ordered, Discharged, HasDelivered, Wants, AllStay;
      ghost var s0 := server.store;
      var r := Call(GetCR(key));
      ObjectRead(s0, key, r, server.store, server.quiet);
      if !r.GotCR? {
        return r != NotFound;
      }
      if r.cr.meta.terminating {
        err := FinalizeCertificateRequest(r.cr);
        return;
      }
      err := ReconcileLive(r.cr);
    }
  }

  /** The value that is stored from a secret in memory. */
  function Snapshot(secret: Issuance.SecretObject): Secret
    reads secret
  {
    Secret(0, secret.labels, secret.tlsCert, secret.tlsKey)
  }

  /** This secret, and nothing else, was written. */
  predicate Stored(s: Store, k: Key, secret: Secret, s': Store) {
    s' == s.(secrets := s.secrets[k := secret.(rv := s.rv + 1)], rv := s.rv + 1)
  }

  lemma AgreesMeans(st: CRStatus, c: Certificate)
    ensures Proto.StatusAgrees(st, c) <==>
              !(!st.issued || st.issuerName != c.issuerCommonName || st.notBefore != Some(c.notBefore)
                || st.notAfter != Some(c.notAfter) || st.serialNumber != Some(c.serialNumber))
  {
  }

  lemma RecordedMeans(s: Store, k: Key, spec: CRSpec, c: Certificate)
    requires SecretKey(k, spec) in s.secrets && CertificateOf(s.secrets[SecretKey(k, spec)]) == Ok(c)
    ensures (exists d :: Recorded(s, k, spec, d)) <==> k in s.crs && Proto.StatusAgrees(s.crs[k].status, c)
  {
    hide CertificateOf;
    if k in s.crs && Proto.StatusAgrees(s.crs[k].status, c) {
      assert Recorded(s, k, spec, c);
    }
  }

  /** The stored object asks for this. */
  predicate SpecIs(s: Store, k: Key, spec: CRSpec) {
    k in s.crs && s.crs[k].spec == spec
  }

  lemma WantsByGrounds(s: Store, k: Key, spec: CRSpec)
    ensures forall s' :: SameGrounds(s, s') ==> Wants(s', k, spec) == Wants(s, k, spec) && AllStay(s', k.ns) == AllStay(s, k.ns)
  {
    hide RelocationOf, CRTraces.Due;
  }

  lemma DeploymentRead(s: Store, k: Key, r: Reply, s': Store, quiet: bool)
    requires exists t :: (quiet ==> t == s) && Exec(t, GetCD(k), r, s')
    ensures quiet ==> s' == s && (r.GotCD? ==> k in s.cds && r.cd == s.cds[k])
  {
  }

  lemma PatchKeepsGrounds(s: Store, k: Key, c: Call, r: Reply, s': Store, quiet: bool)
    requires (c.PatchCRFinalizers? || c.PatchCROwners?) && c.key == k
    requires exists t :: (quiet ==> t == s) && Exec(t, c, r, s')
    ensures quiet ==> SameGrounds(s, s')
    ensures quiet && r.GotCR? ==>
              k in s.crs && r.cr.spec == s.crs[k].spec && (k in s'.crs ==> s'.crs[k].spec == s.crs[k].spec)
    ensures quiet && r.GotCR? && c.PatchCRFinalizers? && c.finalizers != [] ==> k in s'.crs
    ensures r.GotCR? && c.PatchCROwners? ==> r.cr.owners == c.owners
    ensures r.GotCR? && c.PatchCRFinalizers? ==> r.cr.meta.finalizers == c.finalizers
  {
    hide HasFinalizer;
  }

  lemma ObjectRead(s: Store, k: Key, r: Reply, s': Store, quiet: bool)
    requires exists t :: (quiet ==> t == s) && Exec(t, GetCR(k), r, s')
    ensures quiet ==> s' == s && (r.GotCR? ==> k in s.crs && r.cr == s.crs[k]) && (r == NotFound ==> k !in s.crs)
  {
  }

  /** Reading a secret of a quiet store leaves it alone and shows what is there. */
  lemma SecretRead(s: Store, k: Key, r: Reply, s': Store, quiet: bool)
    requires exists t :: (quiet ==> t == s) && Exec(t, GetSecret(k), r, s')
    ensures quiet ==> s' == s && (r.GotSecret? ==> k in s.secrets && r.secret == s.secrets[k] && r.now == s.now) && (r == NotFound ==> k !in s.secrets)
  {
  }

  /** An acknowledged status write of a current copy is stored; secrets stay as they are either way. */
  lemma StatusWritten(s: Store, k: Key, copy: CR, r: Reply, s': Store, quiet: bool)
    requires exists t :: (quiet ==> t == s) && Exec(t, UpdateCRStatus(k, copy), r, s')
    ensures quiet ==> s'.secrets == s.secrets
    ensures quiet && r == Done && Settled(s) && k in s.crs ==> k in s'.crs && s'.crs[k].status == copy.status
  {
    hide HasFinalizer;
  }

  /** The named secret is absent, or its Let's Encrypt certificate is revoked. */
  predicate Discharged(s: Store, k: Key, spec: CRSpec) {
    || Key(k.ns, spec.secretName) !in s.secrets
    || (var read := CertificateOf(s.secrets[Key(k.ns, spec.secretName)]);
        read.Ok? && IssuedByLetsEncrypt(read.value) && read.value in s.revoked)
  }

  lemma RevokeTells(s: Store, c: Certificate, r: Reply, s': Store, quiet: bool)
    requires exists t :: (quiet ==> t == s) && Exec(t, Revoke(c), r, s')
    ensures quiet && (r == Done || r == AlreadyRevoked) ==> c in s'.revoked && s' == s.(revoked := s'.revoked)
  {
  }

  lemma NothingWritten(s: Store, c: Call, r: Reply, s': Store, quiet: bool)
    requires c.BuildDnsClient? || c.BuildAcmeClient? || c.CleanUpDns? || c.ListCDs?
    requires exists t :: (quiet ==> t == s) && Exec(t, c, r, s')
    ensures quiet ==> s' == s
  {
  }

  lemma RemovalLands(s: Store, k: Key, spec: CRSpec, left: seq<string>, r: Reply, s': Store, quiet: bool)
    requires FINALIZER !in left
    requires exists t :: (quiet ==> t == s) && Exec(t, PatchCRFinalizers(k, left), r, s')
    ensures quiet && r.GotCR? ==>
              (Discharged(s, k, spec) ==> Discharged(s', k, spec)) && (k in s'.crs ==> s'.crs[k].meta.finalizers == left)
  {
    hide CertificateOf, IssuedByLetsEncrypt;
  }

  /** A conditional update of a secret: stored when acknowledged, without effect on another version. */
  lemma SecretUpdated(s: Store, k: Key, secret: Secret, readAt: nat, r: Reply, s': Store, quiet: bool)
    requires exists t :: (quiet ==> t == s) && Exec(t, UpdateSecret(k, secret, Some(readAt)), r, s')
    ensures quiet && r == Done ==> Stored(s, k, secret, s')
    ensures quiet && k in s.secrets && s.secrets[k].rv != readAt ==> s' == s && r != Done
  {
  }

  /** The reconcile with these replies created an order, after it had read the object as not terminating and
      the named secret as absent or due. */
  ghost predicate Ordered(k: Key, m: string, replies: seq<Reply>) {
    && replies != [] && replies[0].GotCR? && !replies[0].cr.meta.terminating
    && exists i, j :: OrderedAt(k, m, replies, i, j)
  }

  predicate OrderedAt(k: Key, m: string, replies: seq<Reply>, i: nat, j: nat) {
    && j < i < |replies|
    && Proto.IssuesAt(k, m, replies, i)
    && var spec := Proto.CallAt(k, m, replies, i).value.spec;
       && CRTraces.ReadsSecret(k, m, replies, j, SecretKey(k, spec))
       && (|| replies[j] == NotFound
           || (replies[j].GotSecret? && CRTraces.Due(replies[j].secret, spec, replies[j].now)))
  }

  lemma OrderedNow(k: Key, m: string, before: seq<Reply>, replies: seq<Reply>)
    requires before <= replies && |before| < |replies| && Proto.After(k, m, before).Issuing?
    ensures Ordered(k, m, replies)
  {
    hide Proto.After, Proto.Advance, CRTraces.Due;
    assert replies[..|before|] == before;
    var j := CRTraces.OrderHasReason(k, m, replies, |before|);
    assert OrderedAt(k, m, replies, |before|, j);
  }
}
