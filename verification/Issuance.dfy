/** IssueCertificate: from the write test through one challenge per authorization to the secret. */
module Issuance {
  import opened GoStrings
  import opened Certificates
  import opened Acme
  import opened ChallengeNames
  import opened Propagation

  // ----- finding the zone -----

  /** Status of a Hive DNSZone: which cloud filled it in, and with which zone. */
  datatype ZoneStatus = ZoneStatus(aws: Option<Option<string>>, gcp: Option<Option<string>>, azure: bool)

  /** filepath.Base: the last element of a path, trailing slashes aside. */
  function Base(path: string): string {
    if path == "" then "."
    else if TrimRight(path, "/") == "" then "/"
    else AfterLastSlash(TrimRight(path, "/"))
  }

  function AfterLastSlash(path: string): string {
    if path == [] || path[|path| - 1] == '/' then [] else AfterLastSlash(path[..|path| - 1]) + [path[|path| - 1]]
  }

  function ZoneFor(zones: seq<ZoneStatus>): Option<string> {
    if |zones| != 1 then None
    else if zones[0].aws.Some? then
      if zones[0].aws.value.Some? then Some(Base(zones[0].aws.value.value)) else None
    else if zones[0].gcp.Some? then zones[0].gcp.value
    else None
  }

  lemma {:induction false} LastSlash(before: string, id: string)
    requires '/' !in id
    ensures AfterLastSlash(before + "/" + id) == id
  {
    var path := before + "/" + id;
    if id != [] {
      var front := id[..|id| - 1];
      LastSlash(before, front);
      assert path[..|path| - 1] == before + "/" + front;
      assert id == front + [id[|id| - 1]];
    } else {
      assert path[|path| - 1] == '/';
    }
  }

  /** The hosted zone id is found behind its "/hostedzone/" prefix, or bare. */
  lemma HostedZoneId(id: string)
    requires '/' !in id && id != ""
    ensures ZoneFor([ZoneStatus(Some(Some("/hostedzone/" + id)), None, false)]) == Some(id)
  {
    LastSlash("/hostedzone", id);
    var path := "/hostedzone/" + id;
    assert path == "/hostedzone" + "/" + id;
    assert path[|path| - 1] == id[|id| - 1];
    assert TrimRight(path, "/") == path;
  }

  /** A zone exists for a challenge exactly when one DNSZone is listed and AWS or GCP filled in its zone:
      an Azure zone is never found. */
  lemma ZoneFoundIff(zones: seq<ZoneStatus>)
    ensures ZoneFor(zones).Some? <==>
              && |zones| == 1
              && ((zones[0].aws.Some? && zones[0].aws.value.Some?)
                  || (zones[0].aws.None? && zones[0].gcp.Some? && zones[0].gcp.value.Some?))
    ensures |zones| == 1 && zones[0].aws.None? && zones[0].gcp.Some? ==> ZoneFor(zones) == zones[0].gcp.value
    ensures |zones| == 1 && zones[0].aws.Some? && zones[0].aws.value.Some? ==> ZoneFor(zones) == Some(Base(zones[0].aws.value.value))
  {
  }

  /** Whatever is listed, no zone comes out of it. */
  ghost predicate NoZones(lists: nat -> Option<seq<ZoneStatus>>) {
    forall n :: lists(n).Some? ==> ZoneFor(lists(n).value).None?
  }

  /** DNSZones that only Azure filled in. */
  ghost predicate AzureOnly(lists: nat -> Option<seq<ZoneStatus>>) {
    forall n, z :: lists(n).Some? && z in lists(n).value ==> z.aws.None? && z.gcp.None?
  }

  lemma AzureZonesAreNoZones(lists: nat -> Option<seq<ZoneStatus>>)
    requires AzureOnly(lists)
    ensures NoZones(lists)
  {
    forall n | lists(n).Some?
      ensures ZoneFor(lists(n).value).None?
    {
      var zones := lists(n).value;
      if |zones| == 1 {
        assert zones[0] in zones;
      }
    }
  }

  method FindZoneIDForChallenge(listed: Option<seq<ZoneStatus>>) returns (zone: Option<string>)
    ensures zone == if listed.None? then None else ZoneFor(listed.value)
  {
    if listed.None? {
      return None;
    }
    var zones := listed.value;
    if |zones| != 1 {
      return None;
    }
    var status := zones[0];
    if status.aws.Some? {
      if status.aws.value.Some? {
        return Some(Base(status.aws.value.value));
      }
      return None;
    }
    if status.gcp.Some? {
      if status.gcp.value.Some? {
        return Some(status.gcp.value.value);
      }
      return None;
    }
    return None;
  }

  // ----- the secret in memory -----

  class SecretObject {
    var labels: map<string, string>
    var tlsCert: Option<seq<PemBlock>>
    var tlsKey: Option<nat>

    constructor (labels: map<string, string>, tlsCert: Option<seq<PemBlock>>, tlsKey: Option<nat>)
      ensures this.labels == labels && this.tlsCert == tlsCert && this.tlsKey == tlsKey
    {
      this.labels, this.tlsCert, this.tlsKey := labels, tlsCert, tlsKey;
    }
  }

  const REQUEST_LABEL := "certificate_request"

  /** What a complete issuance leaves in the secret: the chain's first two certificates and the private
      key of the CSR. */
  predicate Holds(labels: map<string, string>, tlsCert: Option<seq<PemBlock>>, tlsKey: Option<nat>,
                  name: string, chain: seq<Certificate>, key: nat) {
    && |chain| >= 2
    && labels == map["certificate_request" := name]
    && tlsCert == Some([CertBlock(chain[0]), CertBlock(chain[1])])
    && tlsKey == Some(key)
  }

  // ----- the trace -----

  /** One authorization worked off: what was published for it, and which challenge was answered. */
  datatype Answered = Answered(authorization: Authorization, fqdn: string, value: string)

  function Block(a: Answered, testing: bool): seq<Event> {
    [Fetched(a.authorization), Published(a.fqdn, a.value)]
    + (if testing then [] else [Verified(a.fqdn, a.value)])
    + [ChallengeAccepted(ChallengeOf(a.authorization))]
  }

  function Blocks(done: seq<Answered>, testing: bool): seq<Event> {
    if done == [] then [] else Blocks(done[..|done| - 1], testing) + Block(done[|done| - 1], testing)
  }

  /** The answers are those of these authorizations, in turn, each with its own key authorization at its
      own name. */
  ghost predicate Own(ca: Outside, done: seq<Answered>, urls: seq<string>) {
    && |done| == |urls|
    && forall i :: 0 <= i < |done| ==>
         && done[i].authorization == ca.lookup(urls[i])
         && done[i].fqdn == ca.fqdnOf(done[i].authorization.identifier)
         && done[i].value == ca.encode(ChallengeOf(done[i].authorization).keyAuthorization)
  }

  predicate AllValid(valid: set<string>, urls: seq<string>) {
    forall u :: u in urls ==> u in valid
  }

  /** The CA follows RFC 8555 and this authorization offers dns-01. */
  ghost predicate Offers(ca: Outside, url: string) {
    ca.Follows8555() && DNS01 in ca.lookup(url).challenges
  }

  ghost predicate OffersAll(ca: Outside, urls: seq<string>) {
    forall u :: u in urls ==> Offers(ca, u)
  }

  lemma OwnerOf(ca: Outside, url: string)
    ensures Offers(ca, url) ==> ca.owner(ChallengeOf(ca.lookup(url)).url) == url
  {
  }

  function Orders(events: seq<Event>): nat {
    if events == [] then 0 else Orders(events[..|events| - 1]) + if events[|events| - 1].OrderCreated? then 1 else 0
  }

  predicate Unpublished(events: seq<Event>) {
    forall i :: 0 <= i < |events| ==> !events[i].Published?
  }

  /** The events with which a complete order ends: the request, the chain if it was fetched, and the cleanup of
      the challenge records once it is stored. */
  function Ending(result: Outcome<()>, order: Order, csr: Csr, chain: seq<Certificate>): seq<Event> {
    [FinalizeRequested(order, csr)] + (if result.Err? then [] else [ChainFetched(chain)]) + if result.Ok? then [CleanUpRequested] else []
  }

  /** The chain is what was fetched before the last cleanup, the CA's answer to the request before it, and that
      request was for a CSR with these names, the first as its common name, and this key. */
  ghost predicate Delivered(ca: Outside, events: seq<Event>, dnsNames: seq<string>, chain: seq<Certificate>, key: nat) {
    && |events| >= 3 && dnsNames != []
    && events[|events| - 1] == CleanUpRequested
    && events[|events| - 2] == ChainFetched(chain)
    && var request := events[|events| - 3];
       && request.FinalizeRequested?
       && request.csr == Csr(dnsNames[0], dnsNames, key)
       && exists n :: chain == ca.chains(n, request.csr)
  }

  /** Every finalize request since `start` comes after the creation of its order and the complete work on all
      its authorizations, in turn, and is for the requested names; where the CA follows RFC 8555 and each
      authorization offers dns-01, all of them are then valid. */
  ghost predicate Proper(ca: Outside, valid: set<string>, events: seq<Event>, start: nat, done: seq<Answered>, testing: bool, dnsNames: seq<string>) {
    forall i :: start <= i < |events| && events[i].FinalizeRequested? ==>
      var o, csr := events[i].order, events[i].csr;
      && events[start..i] == [OrderCreated(o)] + Blocks(done, testing)
      && Own(ca, done, o.authorizations)
      && csr.dnsNames == dnsNames
      && (OffersAll(ca, o.authorizations) ==> AllValid(valid, o.authorizations))
  }

  /** The client, the write test and the account, the three calls before an order, all succeed. */
  predicate Cleared(ca: Outside, from: nat) {
    ca.answers(from) && ca.answers(from + 1) && ca.proceeds(from + 1) && ca.answers(from + 2)
  }

  predicate NoOrder(events: seq<Event>) {
    forall i :: 0 <= i < |events| ==> !events[i].OrderCreated? && !events[i].FinalizeRequested?
  }

  lemma QuietConcat(a: seq<Event>, b: seq<Event>)
    requires NoOrder(a) && NoOrder(b)
    ensures NoOrder(a + b)
  {
  }

  lemma {:induction false} BlocksQuiet(done: seq<Answered>, testing: bool)
    ensures NoOrder(Blocks(done, testing))
  {
    if done != [] {
      BlocksQuiet(done[..|done| - 1], testing);
    }
  }

  lemma NothingDone(ca: Outside, testing: bool)
    ensures Blocks([], testing) == [] && NoOrder([]) && Own(ca, [], []) && AllValid(ca.valid, [])
  {
  }

  /** One more authorization worked off in turn. */
  lemma OneMore(ca: Outside, done: seq<Answered>, a: Answered, urls: seq<string>, url: string, testing: bool)
    requires Own(ca, done, urls) && Own(ca, [a], [url])
    ensures Own(ca, done + [a], urls + [url])
    ensures Blocks(done + [a], testing) == Blocks(done, testing) + Block(a, testing)
  {
    hide Block;
    assert (done + [a])[..|done|] == done;
    assert [a][0] == a && [url][0] == url;
  }

  lemma MoreValid(ca: Outside, valid: set<string>, now: set<string>, urls: seq<string>, i: nat)
    requires i < |urls| && valid <= now && (Offers(ca, urls[i]) ==> urls[i] in now)
    requires OffersAll(ca, urls) ==> AllValid(valid, urls[..i])
    ensures OffersAll(ca, urls) ==> AllValid(now, urls[..i] + [urls[i]])
  {
    hide Offers;
    assert urls[i] in urls;
  }

  /** Whether an order is ready depends on the CSR's names only. */
  lemma SameReadiness(ca: Outside, order: Order, csr: Csr, other: Csr)
    requires csr.dnsNames == other.dnsNames
    ensures forall valid :: ca.Ready(order, csr, valid) == ca.Ready(order, other, valid)
  {
  }

  class Issuer {
    const le: LetsEncryptClient
    const testing: bool
    const zoneLists: nat -> Option<seq<ZoneStatus>>

    constructor (le: LetsEncryptClient, testing: bool, zoneLists: nat -> Option<seq<ZoneStatus>>)
      ensures this.le == le && this.testing == testing && this.zoneLists == zoneLists
    {
      this.le, this.testing, this.zoneLists := le, testing, zoneLists;
    }

    /** Publishing from call number `from` on goes through: the listing yields a zone, the answer is answered,
        and outside of tests the record becomes visible in time. */
    ghost predicate Publishes(from: nat, value: string, domain: string) {
      && zoneLists(from).Some? && ZoneFor(zoneLists(from).value).Some?
      && le.ca.answers(from)
      && (testing || Propagates(le.ca.dns(from + 1), le.ca.fqdnOf(domain), value))
    }

    /** One authorization goes through: it is fetched, names an identifier and a key authorization, this is
        published, and the CA accepts the challenge with it. */
    ghost predicate Authorizes(from: nat, url: string, published: map<string, string>) {
      var a, c := le.ca.lookup(url), ChallengeOf(le.ca.lookup(url));
      var value := le.ca.encode(c.keyAuthorization);
      && le.ca.answers(from)
      && a.identifier != "" && value != ""
      && Publishes(from + 1, value, a.identifier)
      && le.ca.answers(from + if testing then 2 else 3)
      && le.ca.Accepts(c, published[le.ca.fqdnOf(a.identifier) := value])
    }

    /** Nothing is in the way of an order with these authorizations: the CA follows RFC 8555, every call is
        answered, every listing yields a zone, every authorization offers dns-01 with an identifier and a key
        authorization, and the cloud client publishes at the validation name, where the value becomes visible. */
    ghost predicate Smooth(from: nat, urls: seq<string>) {
      && le.ca.Follows8555()
      && (forall n :: n >= from ==> le.ca.answers(n))
      && (forall n :: n >= from ==> zoneLists(n).Some? && ZoneFor(zoneLists(n).value).Some?)
      && (forall u :: u in urls ==> SmoothFor(from, u))
    }

    ghost predicate SmoothFor(from: nat, url: string) {
      var a := le.ca.lookup(url);
      var value := le.ca.encode(ChallengeOf(a).keyAuthorization);
      && DNS01 in a.challenges
      && a.identifier != "" && value != ""
      && le.ca.fqdnOf(a.identifier) == ValidationName(a.identifier)
      && (testing || forall n :: n >= from ==> Propagates(le.ca.dns(n), le.ca.fqdnOf(a.identifier), value))
    }

    lemma SmoothLater(from: nat, urls: seq<string>, at: nat)
      requires from <= at
      ensures Smooth(from, urls) ==> Smooth(at, urls) && OffersAll(le.ca, urls)
      ensures Smooth(from, urls) ==> forall n :: n >= from ==> le.ca.answers(n)
    {
      hide Propagates, ValidationName;
      if Smooth(from, urls) {
        forall u | u in urls
          ensures SmoothFor(at, u) && Offers(le.ca, u)
        {
          assert SmoothFor(from, u);
        }
      }
    }

    lemma SmoothAuthorizes(from: nat, urls: seq<string>, at: nat, url: string, published: map<string, string>)
      requires Smooth(from, urls) && url in urls && from <= at
      ensures Authorizes(at, url, published) && Offers(le.ca, url)
    {
      assert SmoothFor(from, url);
      OwnerOf(le.ca, url);
      hide Propagates, ValidationName;
    }

    /** Publishing one value and waiting for it: the zone, the record, the propagation check. */
    method Publish(value: string, domain: string) returns (fqdn: Option<string>, ghost partial: seq<Event>)
      modifies le.ca
      ensures le.ca.valid == old(le.ca.valid)
      ensures le.ca.events == old(le.ca.events) + partial && NoOrder(partial)
      ensures fqdn.Some? ==>
                && fqdn.value == le.ca.fqdnOf(domain)
                && partial == [Published(fqdn.value, value)] + (if testing then [] else [Verified(fqdn.value, value)])
      ensures NoZones(zoneLists) ==> fqdn.None? && partial == []
      ensures fqdn.Some? <==> Publishes(old(le.ca.calls), value, domain)
      ensures old(le.ca.calls) <= le.ca.calls
      ensures fqdn.Some? ==>
                && le.ca.calls == old(le.ca.calls) + (if testing then 1 else 2)
                && le.ca.published == old(le.ca.published)[fqdn.value := value]
    {
      hide Propagates;
      partial := [];
      var zone := FindZoneIDForChallenge(zoneLists(le.ca.calls));
      if zone.None? {
        return None, [];
      }
      fqdn := le.ca.AnswerDNSChallenge(value, domain);
      if fqdn.None? {
        return;
      }
      partial := [Published(fqdn.value, value)];
      if !testing {
        var verified := le.ca.VerifyDns(fqdn.value, value);
        if !verified {
          return None, partial;
        }
        partial := partial + [Verified(fqdn.value, value)];
      }
    }

    /** One pass of the loop over the order's authorizations. */
    method Authorize(url: string) returns (ok: bool, ghost a: Answered, ghost partial: seq<Event>)
      modifies le, le.ca
      ensures le.order == old(le.order)
      ensures old(le.ca.valid) <= le.ca.valid
      ensures le.ca.events == old(le.ca.events) + partial && NoOrder(partial)
      ensures ok ==> partial == Block(a, testing) && Own(le.ca, [a], [url])
      ensures ok && Offers(le.ca, url) ==> url in le.ca.valid
      ensures NoZones(zoneLists) ==> !ok && Unpublished(partial)
      ensures ok <==> Authorizes(old(le.ca.calls), url, old(le.ca.published))
      ensures old(le.ca.calls) <= le.ca.calls
    {
      hide NoZones, Offers, Outside.Follows8555, Publishes, Outside.Accepts;
      a, partial := Answered(NO_AUTHORIZATION, "", ""), [];
      ok := le.FetchAuthorization(url);
      if !ok {
        return;
      }
      partial := [Fetched(le.authorization)];
      var domain := le.GetAuthorizationIdentifier();
      if domain.None? {
        return false, a, partial;
      }
      le.SetChallengeType();
      var keyAuth := le.GetDNS01KeyAuthorization();
      if keyAuth.None? {
        return false, a, partial;
      }
      ghost var more;
      var fqdn;
      fqdn, more := Publish(keyAuth.value, domain.value);
      partial := partial + more;
      if fqdn.None? {
        return false, a, partial;
      }
      a := Answered(le.authorization, fqdn.value, keyAuth.value);
      ok := le.UpdateChallenge();
      if ok {
        partial := partial + [ChallengeAccepted(ChallengeOf(a.authorization))];
        OwnerOf(le.ca, url);
      }
    }

    /** The loop. */
    method AuthorizeAll() returns (ok: bool, ghost done: seq<Answered>, ghost trace: seq<Event>)
      modifies le, le.ca
      ensures le.order == old(le.order)
      ensures le.ca.events == old(le.ca.events) + trace && NoOrder(trace)
      ensures ok ==> trace == Blocks(done, testing) && Own(le.ca, done, le.order.authorizations)
      ensures ok && OffersAll(le.ca, le.order.authorizations) ==> AllValid(le.ca.valid, le.order.authorizations)
      ensures NoZones(zoneLists) ==> Unpublished(trace) && (le.order.authorizations != [] ==> !ok)
      ensures Smooth(old(le.ca.calls), le.order.authorizations) ==> ok
      ensures old(le.ca.calls) <= le.ca.calls
    {
      hide Smooth, Authorizes, NoZones, Offers, Block, NoOrder, Own, Blocks, AllValid, OffersAll;
      var urls := le.order.authorizations;
      done, trace := [], [];
      NothingDone(le.ca, testing);
      for i := 0 to |urls|
        invariant le.order == old(le.order)
        invariant le.ca.events == old(le.ca.events) + trace && NoOrder(trace)
        invariant trace == Blocks(done, testing) && Own(le.ca, done, urls[..i])
        invariant OffersAll(le.ca, urls) ==> AllValid(le.ca.valid, urls[..i])
        invariant NoZones(zoneLists) ==> i == 0 && trace == []
        invariant old(le.ca.calls) <= le.ca.calls
      {
        if Smooth(old(le.ca.calls), urls) {
          SmoothAuthorizes(old(le.ca.calls), urls, le.ca.calls, urls[i], le.ca.published);
        }
        ghost var a, partial, before := Answered(NO_AUTHORIZATION, "", ""), [], le.ca.valid;
        ok, a, partial := Authorize(urls[i]);
        assert urls[..i + 1] == urls[..i] + [urls[i]];
        QuietConcat(trace, partial);
        trace := trace + partial;
        if !ok {
          return;
        }
        OneMore(le.ca, done, a, urls[..i], urls[i], testing);
        MoreValid(le.ca, before, le.ca.valid, urls, i);
        done := done + [a];
      }
      assert urls[..|urls|] == urls;
      ok := true;
    }

    /** Everything before the loop: the cloud client, the write test, the account, the order. */
    method OpenOrder(email: string, dnsNames: seq<string>) returns (ok: bool)
      modifies le, le.ca
      ensures ok <==> Cleared(le.ca, old(le.ca.calls)) && le.ca.answers(old(le.ca.calls) + 3)
      ensures old(le.ca.calls) <= le.ca.calls
      ensures ok ==>
                && le.ca.calls == old(le.ca.calls) + 4
                && le.ca.events == old(le.ca.events) + [OrderCreated(le.order)]
                && le.order == le.ca.offers(old(le.ca.calls) + 3, dnsNames)
                && le.ca.account == email
      ensures !ok ==> le.ca.events == old(le.ca.events)
    {
      var n;
      ok, n := le.ca.Call();
      if !ok {
        return;
      }
      ok, n := le.ca.Call();
      if !ok {
        return;
      }
      if !le.ca.proceeds(n) {
        return false;
      }
      ok := le.UpdateAccount(email);
      if !ok {
        return;
      }
      ok := le.CreateOrder(dnsNames);
    }

    lemma SmoothClears(from: nat, urls: seq<string>)
      ensures Smooth(from, urls) && le.ca.proceeds(from + 1) ==> Cleared(le.ca, from) && le.ca.answers(from + 3)
      ensures Smooth(from, urls) ==> Smooth(from + 4, urls)
    {
      SmoothLater(from, urls, from + 4);
      hide Smooth;
    }

    /** Up to the last accepted challenge. */
    method Prepare(email: string, dnsNames: seq<string>) returns (ok: bool, ghost begun: bool, ghost done: seq<Answered>, ghost trace: seq<Event>)
      modifies le, le.ca
      ensures le.ca.events == if begun then old(le.ca.events) + [OrderCreated(le.order)] + trace else old(le.ca.events)
      ensures ok ==> begun
      ensures begun ==>
                && NoOrder(trace) && Cleared(le.ca, old(le.ca.calls))
                && le.order == le.ca.offers(old(le.ca.calls) + 3, dnsNames)
      ensures ok ==> trace == Blocks(done, testing) && Own(le.ca, done, le.order.authorizations)
      ensures ok && OffersAll(le.ca, le.order.authorizations) ==> AllValid(le.ca.valid, le.order.authorizations)
      ensures NoZones(zoneLists) ==> Unpublished(trace) && (begun && le.order.authorizations != [] ==> !ok)
      ensures var from := old(le.ca.calls);
              Smooth(from, le.ca.offers(from + 3, dnsNames).authorizations) && le.ca.proceeds(from + 1) ==> ok
      ensures old(le.ca.calls) <= le.ca.calls
    {
      ghost var from := le.ca.calls;
      SmoothClears(from, le.ca.offers(from + 3, dnsNames).authorizations);
      hide Smooth, Cleared, NoZones, OffersAll, AllValid, Own, NoOrder, Blocks;
      begun, done, trace := false, [], [];
      ok := OpenOrder(email, dnsNames);
      if !ok {
        return;
      }
      begun := true;
      ok, done, trace := AuthorizeAll();
    }

    /** IssueCertificate. Ghost results: the answered authorizations, the fetched chain, the private key. */
    method IssueCertificate(name: string, email: string, dnsNames: seq<string>, secret: SecretObject)
      returns (result: Outcome<()>, ghost done: seq<Answered>, ghost chain: seq<Certificate>, ghost key: nat)
      modifies le, le.ca, secret
      ensures old(le.ca.events) <= le.ca.events
      ensures Proper(le.ca, le.ca.valid, le.ca.events, |old(le.ca.events)|, done, testing, dnsNames)
      ensures Orders(le.ca.events) <= Orders(old(le.ca.events)) + 1
      ensures le.ca.events != old(le.ca.events) ==> Cleared(le.ca, old(le.ca.calls))
      // without a zone nothing is published, and only an order without authorizations can complete
      ensures NoZones(zoneLists) ==> Unpublished(le.ca.events[|old(le.ca.events)|..])
      ensures NoZones(zoneLists) && (forall n, ids :: le.ca.offers(n, ids).authorizations != []) ==> !result.Ok?
      // nothing in the way: the certificate is issued
      ensures var from := old(le.ca.calls);
              (&& Smooth(from, le.ca.offers(from + 3, dnsNames).authorizations) && le.ca.proceeds(from + 1)
               && dnsNames != [] && (forall n, csr :: |le.ca.chains(n, csr)| >= 2)) ==> result.Ok?
      // all or nothing
      ensures result.Err? ==> unchanged(secret)
      ensures result.Panic? ==> secret.tlsCert == old(secret.tlsCert) && secret.tlsKey == old(secret.tlsKey)
      ensures result.Ok? ==> Holds(secret.labels, secret.tlsCert, secret.tlsKey, name, chain, key)
      ensures result.Ok? ==> |le.ca.events| >= |old(le.ca.events)| + 4 && Delivered(le.ca, le.ca.events, dnsNames, chain, key)
      ensures result.Ok? && le.ca.Follows8555() ==> chain[0].dnsNames == dnsNames && chain[0].publicKey == key
    {
      hide NoZones, OffersAll, AllValid, Own, NoOrder, Blocks, Orders, Holds, Outside.Follows8555, Unpublished, Cleared, Delivered, Proper, Smooth;
      ghost var events, trace, begun, from := le.ca.events, [], false, le.ca.calls;
      ghost var urls := le.ca.offers(from + 3, dnsNames).authorizations;
      SmoothLater(from, urls, from);
      chain, key := [], 0;
      var ok;
      ok, begun, done, trace := Prepare(email, dnsNames);
      if !ok {
        if begun {
          StoppedTrace(le.ca, le.ca.valid, events, le.order, trace, done, testing, dnsNames);
        } else {
          EmptyTrace(le.ca, le.ca.valid, events, done, testing, dnsNames);
        }
        return Err, done, chain, key;
      }
      ghost var order, csr, valid := le.order, Csr("", [], 0), le.ca.valid;
      StoppedTrace(le.ca, valid, events, order, trace, done, testing, dnsNames);
      ReadyWhenSmooth(from, urls, order, dnsNames);
      result, chain, csr := Complete(name, dnsNames, secret);
      key := csr.key;
      WholeTrace(le.ca, valid, events, order, trace, done, testing, result, csr, chain);
      if result.Ok? {
        DeliveredNow(le.ca, events + [OrderCreated(order)] + trace, order, csr, chain);
      }
    }

    /** An order of these names whose authorizations are all valid is ready for a CSR with these names. */
    lemma ReadyWhenSmooth(from: nat, urls: seq<string>, order: Order, dnsNames: seq<string>)
      requires order == le.ca.offers(from + 3, dnsNames) && urls == order.authorizations
      ensures Smooth(from, urls) ==> OffersAll(le.ca, urls)
      ensures Smooth(from, urls) && AllValid(le.ca.valid, urls) ==> forall csr: Csr :: csr.dnsNames == dnsNames ==> le.ca.Ready(order, csr, le.ca.valid)
    {
      SmoothLater(from, urls, from);
    }

    /** What follows the loop: the key, the CSR, and the order's completion. */
    method Complete(name: string, dnsNames: seq<string>, secret: SecretObject)
      returns (result: Outcome<()>, ghost chain: seq<Certificate>, ghost csr: Csr)
      modifies le, le.ca, secret
      ensures le.ca.valid == old(le.ca.valid)
      ensures csr.dnsNames == dnsNames
      ensures le.ca.events == old(le.ca.events) || le.ca.events == old(le.ca.events) + Ending(result, old(le.order), csr, chain)
      ensures dnsNames == [] ==> result == (if le.ca.answers(old(le.ca.calls)) then Panic else Err) && le.ca.events == old(le.ca.events)
      ensures var from := old(le.ca.calls);
              dnsNames != [] ==>
                (!result.Err? <==> && le.ca.answers(from) && le.ca.answers(from + 1) && le.ca.answers(from + 2) && le.ca.answers(from + 3)
                                   && le.ca.Ready(old(le.order), csr, le.ca.valid))
      ensures dnsNames != [] && !result.Err? ==>
                && le.ca.events == old(le.ca.events) + Ending(result, old(le.order), csr, chain)
                && (exists n :: chain == le.ca.chains(n, csr))
                && (result.Panic? <==> |chain| < 2)
                && csr == Csr(dnsNames[0], dnsNames, le.ca.keys(old(le.ca.calls)))
      ensures result.Err? ==> unchanged(secret)
      ensures result.Panic? ==> secret.tlsCert == old(secret.tlsCert) && secret.tlsKey == old(secret.tlsKey)
      ensures result.Ok? ==> Holds(secret.labels, secret.tlsCert, secret.tlsKey, name, chain, csr.key)
      ensures result.Ok? && le.ca.Follows8555() ==> chain[0].dnsNames == dnsNames && chain[0].publicKey == csr.key
    {
      chain, csr := [], Csr("", dnsNames, 0);
      var ok, n := le.ca.Call();
      if !ok {
        return Err, chain, csr;
      }
      var certKey := le.ca.keys(n);
      if |dnsNames| == 0 {
        return Panic, chain, csr;
      }
      ok, n := le.ca.Call();
      if !ok {
        return Err, chain, csr;
      }
      var request := Csr(dnsNames[0], dnsNames, certKey);
      SameReadiness(le.ca, le.order, csr, request);
      csr := request;
      result, chain := Obtain(name, request, secret);
    }

    /** From FinalizeOrder to the secret. */
    method Obtain(name: string, csr: Csr, secret: SecretObject) returns (result: Outcome<()>, ghost chain: seq<Certificate>)
      modifies le, le.ca, secret
      ensures le.ca.events == old(le.ca.events) + Ending(result, old(le.order), csr, chain)
      ensures le.ca.valid == old(le.ca.valid)
      ensures !result.Err? <==> && le.ca.answers(old(le.ca.calls)) && le.ca.answers(old(le.ca.calls) + 1)
                                && le.ca.Ready(old(le.order), csr, le.ca.valid)
      ensures !result.Err? ==> (exists n :: chain == le.ca.chains(n, csr)) && (result.Panic? <==> |chain| < 2)
      ensures result.Err? ==> unchanged(secret)
      ensures result.Panic? ==> secret.tlsCert == old(secret.tlsCert) && secret.tlsKey == old(secret.tlsKey)
      ensures result.Ok? ==> Holds(secret.labels, secret.tlsCert, secret.tlsKey, name, chain, csr.key)
      ensures result.Ok? && le.ca.Follows8555() ==> chain[0].dnsNames == csr.dnsNames && chain[0].publicKey == csr.key
    {
      chain := [];
      var ok := le.FinalizeOrder(csr);
      if !ok {
        return Err, chain;
      }
      var certs;
      ok, certs := le.FetchCertificates();
      if !ok {
        return Err, chain;
      }
      secret.labels := map[REQUEST_LABEL := name];
      if |certs| < 2 {
        return Panic, certs;
      }
      secret.tlsCert, secret.tlsKey := Some([CertBlock(certs[0]), CertBlock(certs[1])]), Some(csr.key);
      ok := le.ca.CleanUp();
      return Ok(()), certs;
    }
  }

  lemma {:induction false} OrdersConcat(a: seq<Event>, b: seq<Event>)
    ensures Orders(a + b) == Orders(a) + Orders(b)
    ensures NoOrder(b) ==> Orders(b) == 0
  {
    if b == [] {
      assert a + b == a;
    } else {
      OrdersConcat(a, b[..|b| - 1]);
      assert (a + b)[..|a + b| - 1] == a + b[..|b| - 1];
    }
  }

  lemma OneOrder(events: seq<Event>, order: Order, trace: seq<Event>)
    requires NoOrder(trace)
    ensures var now := events + [OrderCreated(order)] + trace;
            Orders(now) == Orders(events) + 1 && NoFinalize(now, |events|)
  {
    hide NoOrder;
    OrdersConcat(events, [OrderCreated(order)]);
    OrdersConcat(events + [OrderCreated(order)], trace);
    SingleOrder(order);
    TraceWithoutFinalize(events + [OrderCreated(order)], trace, |events|);
  }

  ghost predicate NoFinalize(events: seq<Event>, start: nat) {
    forall i :: start <= i < |events| ==> !events[i].FinalizeRequested?
  }

  lemma TraceWithoutFinalize(events: seq<Event>, trace: seq<Event>, start: nat)
    requires NoOrder(trace) && NoFinalize(events, start)
    ensures NoFinalize(events + trace, start)
  {
  }

  lemma SingleOrder(order: Order)
    ensures Orders([OrderCreated(order)]) == 1
  {
    assert [OrderCreated(order)][..0] == [];
  }

  lemma EmptyTrace(ca: Outside, valid: set<string>, events: seq<Event>, done: seq<Answered>, testing: bool, dnsNames: seq<string>)
    ensures Proper(ca, valid, events, |events|, done, testing, dnsNames)
    ensures Unpublished(events[|events|..])
  {
  }

  /** The events of an issuance that stops before it asks for the certificate. */
  lemma StoppedTrace(ca: Outside, valid: set<string>, events: seq<Event>, order: Order, trace: seq<Event>, done: seq<Answered>,
                     testing: bool, dnsNames: seq<string>)
    requires NoOrder(trace)
    ensures var now := events + [OrderCreated(order)] + trace;
            && Orders(now) == Orders(events) + 1
            && Proper(ca, valid, now, |events|, done, testing, dnsNames)
            && (Unpublished(trace) ==> Unpublished(now[|events|..]))
  {
    hide NoOrder, Orders, OffersAll, AllValid, Own, Blocks;
    OneOrder(events, order, trace);
    assert (events + [OrderCreated(order)] + trace)[|events|..] == [OrderCreated(order)] + trace;
  }

  /** The events of one that asks for it. */
  lemma WholeTrace(ca: Outside, valid: set<string>, events: seq<Event>, order: Order, trace: seq<Event>, done: seq<Answered>,
                   testing: bool, result: Outcome<()>, csr: Csr, chain: seq<Certificate>)
    requires NoOrder(trace) && trace == Blocks(done, testing) && Own(ca, done, order.authorizations)
    requires OffersAll(ca, order.authorizations) ==> AllValid(valid, order.authorizations)
    ensures var now := events + [OrderCreated(order)] + trace + Ending(result, order, csr, chain);
            && Orders(now) == Orders(events) + 1
            && Proper(ca, valid, now, |events|, done, testing, csr.dnsNames)
            && (Unpublished(trace) ==> Unpublished(now[|events|..]))
  {
    var was, e := events + [OrderCreated(order)] + trace, Ending(result, order, csr, chain);
    EndingParts(result, order, csr, chain);
    OneOrder(events, order, trace);
    OrdersConcat(was, e);
    FinalizeAt(events, order, trace, csr, e);
    StaysUnpublished(events, order, trace, e);
    hide *;
    ProperAt(ca, valid, was + e, |events|, done, testing, csr.dnsNames, |was|);
  }

  lemma ProperAt(ca: Outside, valid: set<string>, now: seq<Event>, start: nat, done: seq<Answered>, testing: bool, dnsNames: seq<string>, at: nat)
    requires start <= at < |now| && now[at].FinalizeRequested? && now[at].csr.dnsNames == dnsNames
    requires forall i :: start <= i < |now| && now[i].FinalizeRequested? ==> i == at
    requires now[start..at] == [OrderCreated(now[at].order)] + Blocks(done, testing) && Own(ca, done, now[at].order.authorizations)
    requires OffersAll(ca, now[at].order.authorizations) ==> AllValid(valid, now[at].order.authorizations)
    ensures Proper(ca, valid, now, start, done, testing, dnsNames)
  {
    hide OffersAll, AllValid, Own, Blocks;
  }

  lemma StaysUnpublished(events: seq<Event>, order: Order, trace: seq<Event>, e: seq<Event>)
    requires Unpublished(e)
    ensures Unpublished(trace) ==> Unpublished((events + [OrderCreated(order)] + trace + e)[|events|..])
  {
    assert (events + [OrderCreated(order)] + trace + e)[|events|..] == [OrderCreated(order)] + trace + e;
  }

  lemma FinalizeAt(events: seq<Event>, order: Order, trace: seq<Event>, csr: Csr, e: seq<Event>)
    requires NoOrder(trace) && e != [] && e[0] == FinalizeRequested(order, csr)
    requires forall i :: 0 < i < |e| ==> !e[i].FinalizeRequested?
    ensures var was := events + [OrderCreated(order)] + trace;
            && (was + e)[|events|..|was|] == [OrderCreated(order)] + trace
            && (was + e)[|was|] == FinalizeRequested(order, csr)
            && forall i :: |events| <= i < |was + e| && (was + e)[i].FinalizeRequested? ==> i == |was|
  {
  }

  lemma EndingParts(result: Outcome<()>, order: Order, csr: Csr, chain: seq<Certificate>)
    ensures var e := Ending(result, order, csr, chain);
            && e != [] && e[0] == FinalizeRequested(order, csr)
            && (forall i :: 0 < i < |e| ==> !e[i].FinalizeRequested?)
            && Orders(e) == 0 && Unpublished(e)
  {
    var e := Ending(result, order, csr, chain);
    assert e == [FinalizeRequested(order, csr)] + e[1..];
    OrdersConcat([FinalizeRequested(order, csr)], e[1..]);
    assert NoOrder(e[1..]);
    assert [FinalizeRequested(order, csr)][..0] == [];
  }

  lemma DeliveredNow(ca: Outside, was: seq<Event>, order: Order, csr: Csr, chain: seq<Certificate>)
    requires (exists n :: chain == ca.chains(n, csr)) && csr.dnsNames != [] && csr.commonName == csr.dnsNames[0]
    ensures var e := Ending(Ok(()), order, csr, chain);
            |e| == 3 && Delivered(ca, was + e, csr.dnsNames, chain, csr.key)
  {
  }
}
