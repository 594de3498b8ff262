/** The certificate authority, public DNS and the cloud client as one outside object, and the stateful
    ACME client on top of it. Numbered calls may go unanswered; every other choice of the outside is an
    arbitrary function. The CA follows RFC 8555: authorizations and challenges are fixed resources with a
    status (7.1.4), a dns-01 challenge is accepted only if the record is there (7.5.1, 8.4), an order is
    finalized only when all its authorizations are valid and the CSR names its identifiers (7.4), and
    the chain starts with the end-entity certificate (7.4.2). */
module Acme {
  import opened GoStrings
  import opened Certificates
  import opened ChallengeNames
  import opened Propagation

  const DNS01 := "dns-01"

  datatype Challenge = Challenge(url: string, keyAuthorization: string)
  datatype Authorization = Authorization(url: string, identifier: string, challenges: map<string, Challenge>)
  datatype Order = Order(url: string, identifiers: seq<string>, authorizations: seq<string>, certificate: string)
  datatype Csr = Csr(commonName: string, dnsNames: seq<string>, key: nat)

  /** The zero values Go's client leaves behind on an error or a missing map entry. */
  const NO_CHALLENGE := Challenge("", "")
  const NO_AUTHORIZATION := Authorization("", "", map[])
  const NO_ORDER := Order("", [], [], "")

  function ChallengeOf(a: Authorization): Challenge {
    if DNS01 in a.challenges then a.challenges[DNS01] else NO_CHALLENGE
  }

  datatype Event =
    | OrderCreated(order: Order)
    | Fetched(authorization: Authorization)
    | Published(fqdn: string, value: string)
    | Verified(fqdn: string, value: string)
    | ChallengeAccepted(challenge: Challenge)
    | FinalizeRequested(order: Order, csr: Csr)
    | ChainFetched(chain: seq<Certificate>)
    | CleanUpRequested

  class Outside {
    const answers: nat -> bool
    const proceeds: nat -> bool
    const offers: (nat, seq<string>) -> Order
    const lookup: string -> Authorization
    const owner: string -> string
    const encode: string -> string
    const fqdnOf: string -> string
    const chains: (nat, Csr) -> seq<Certificate>
    const keys: nat -> nat
    const dns: nat -> nat -> Attempt

    var calls: nat
    var account: string
    var valid: set<string>
    var published: map<string, string>
    var certificates: map<string, seq<Certificate>>
    var events: seq<Event>

    /** What RFC 8555 fixes about the resources: a URL names one authorization, a challenge belongs to
        one authorization, an order lists the requested identifiers, a chain starts with a certificate
        for the CSR. */
    ghost predicate Follows8555() {
      && (forall u :: lookup(u).url == u)
      && (forall u :: DNS01 in lookup(u).challenges ==> owner(lookup(u).challenges[DNS01].url) == u)
      && (forall n, ids :: offers(n, ids).identifiers == ids)
      && (forall n, csr :: |chains(n, csr)| > 0 && chains(n, csr)[0].dnsNames == csr.dnsNames && chains(n, csr)[0].publicKey == csr.key)
    }

    constructor (answers: nat -> bool, proceeds: nat -> bool, offers: (nat, seq<string>) -> Order,
                 lookup: string -> Authorization, owner: string -> string, encode: string -> string,
                 fqdnOf: string -> string, chains: (nat, Csr) -> seq<Certificate>, keys: nat -> nat, dns: nat -> nat -> Attempt)
      ensures events == [] && valid == {} && published == map[] && calls == 0
    {
      this.answers, this.proceeds, this.offers, this.lookup, this.owner := answers, proceeds, offers, lookup, owner;
      this.encode, this.fqdnOf, this.chains, this.keys, this.dns := encode, fqdnOf, chains, keys, dns;
      this.calls, this.account, this.valid, this.published, this.certificates, this.events := 0, "", {}, map[], map[], [];
    }

    method Call() returns (ok: bool, n: nat)
      modifies this`calls
      ensures n == old(calls) && calls == n + 1 && ok == answers(n)
    {
      n := calls;
      ok := answers(n);
      calls := calls + 1;
    }

    method UpdateAccount(email: string) returns (ok: bool)
      modifies this`calls, this`account
      ensures calls == old(calls) + 1 && ok == answers(old(calls))
      ensures account == if ok then email else old(account)
    {
      var n;
      ok, n := Call();
      if ok {
        account := email;
      }
    }

    method NewOrder(ids: seq<string>) returns (ok: bool, order: Order)
      modifies this`calls, this`events
      ensures calls == old(calls) + 1 && ok == answers(old(calls))
      ensures ok ==> events == old(events) + [OrderCreated(order)] && order == offers(old(calls), ids)
      ensures !ok ==> events == old(events) && order == NO_ORDER
    {
      var n;
      ok, n := Call();
      order := if ok then offers(n, ids) else NO_ORDER;
      if ok {
        events := events + [OrderCreated(order)];
      }
    }

    method FetchAuthorization(url: string) returns (ok: bool, a: Authorization)
      modifies this`calls, this`events
      ensures calls == old(calls) + 1 && ok == answers(old(calls))
      ensures ok ==> a == lookup(url) && events == old(events) + [Fetched(a)]
      ensures !ok ==> a == NO_AUTHORIZATION && events == old(events)
    {
      var n;
      ok, n := Call();
      a := if ok then lookup(url) else NO_AUTHORIZATION;
      if ok {
        events := events + [Fetched(a)];
      }
    }

    /** The CA finds the answer to this challenge under these published records (section 8.4). */
    predicate Accepts(c: Challenge, published: map<string, string>) {
      var a := lookup(owner(c.url));
      && ChallengeOf(a) == c
      && ValidationName(a.identifier) in published
      && published[ValidationName(a.identifier)] == encode(c.keyAuthorization)
    }

    /** The order is ready for this CSR: all its authorizations are valid, and the names are the same (section 7.4). */
    predicate Ready(order: Order, csr: Csr, valid: set<string>) {
      && (forall u :: u in order.authorizations ==> u in valid)
      && (set d | d in csr.dnsNames) == (set d | d in order.identifiers)
    }

    /** Section 7.5.1: the client says it is ready, the CA validates as in section 8.4. */
    method UpdateChallenge(c: Challenge) returns (ok: bool, after: Challenge)
      modifies this`calls, this`valid, this`events
      ensures calls == old(calls) + 1
      ensures ok <==> answers(old(calls)) && Accepts(c, published)
      ensures ok ==> after == c && valid == old(valid) + {owner(c.url)} && events == old(events) + [ChallengeAccepted(c)]
      ensures !ok ==> after == NO_CHALLENGE && events == old(events) && valid == old(valid)
    {
      var n;
      ok, n := Call();
      ok := ok && Accepts(c, published);
      after := if ok then c else NO_CHALLENGE;
      if ok {
        valid := valid + {owner(c.url)};
        events := events + [ChallengeAccepted(c)];
      }
    }

    /** Section 7.4. The request itself is recorded even when the CA refuses it. */
    method FinalizeOrder(order: Order, csr: Csr) returns (ok: bool, after: Order)
      modifies this`calls, this`certificates, this`events
      ensures events == old(events) + [FinalizeRequested(order, csr)]
      ensures calls == old(calls) + 1
      ensures ok <==> answers(old(calls)) && Ready(order, csr, valid)
      ensures ok ==> after == order && certificates == old(certificates)[after.certificate := chains(old(calls), csr)]
      ensures !ok ==> after == NO_ORDER && certificates == old(certificates)
    {
      var n;
      ok, n := Call();
      events := events + [FinalizeRequested(order, csr)];
      ok := ok && Ready(order, csr, valid);
      after := if ok then order else NO_ORDER;
      if ok {
        certificates := certificates[after.certificate := chains(n, csr)];
      }
    }

    method FetchCertificates(url: string) returns (ok: bool, chain: seq<Certificate>)
      modifies this`calls, this`events
      ensures calls == old(calls) + 1
      ensures ok <==> answers(old(calls)) && url in certificates
      ensures ok ==> chain == certificates[url] && events == old(events) + [ChainFetched(chain)]
      ensures !ok ==> events == old(events)
    {
      var n;
      ok, n := Call();
      ok := ok && url in certificates;
      chain := if ok then certificates[url] else [];
      if ok {
        events := events + [ChainFetched(chain)];
      }
    }

    /** AnswerDNSChallenge of whichever cloud client: the value becomes visible under the client's FQDN. */
    method AnswerDNSChallenge(value: string, domain: string) returns (fqdn: Option<string>)
      modifies this`calls, this`published, this`events
      ensures calls == old(calls) + 1 && fqdn.Some? == answers(old(calls))
      ensures fqdn.Some? ==> fqdn.value == fqdnOf(domain) && published == old(published)[fqdn.value := value]
                             && events == old(events) + [Published(fqdn.value, value)]
      ensures fqdn.None? ==> published == old(published) && events == old(events)
    {
      var ok, n := Call();
      if !ok {
        return None;
      }
      fqdn := Some(fqdnOf(domain));
      published := published[fqdn.value := value];
      events := events + [Published(fqdn.value, value)];
    }

    /** DeleteAcmeChallengeResourceRecords of the cloud client, recorded as asked for. */
    method CleanUp() returns (ok: bool)
      modifies this`calls, this`events
      ensures calls == old(calls) + 1 && events == old(events) + [CleanUpRequested]
    {
      var n;
      ok, n := Call();
      events := events + [CleanUpRequested];
    }

    /** The propagation check, recorded when it succeeds. */
    method VerifyDns(fqdn: string, value: string) returns (verified: bool)
      modifies this`calls, this`events
      ensures calls == old(calls) + 1
      ensures verified ==> events == old(events) + [Verified(fqdn, value)]
      ensures verified <==> Propagates(dns(old(calls)), fqdn, value)
      ensures !verified ==> events == old(events)
    {
      var n := calls;
      calls := calls + 1;
      var sleeps, requests;
      verified, sleeps, requests := VerifyDnsResourceRecordUpdate(dns(n), fqdn, value);
      if verified {
        events := events + [Verified(fqdn, value)];
      }
    }
  }

  /** LetsEncryptClient: each call overwrites the client's field with what it got back. */
  class LetsEncryptClient {
    const ca: Outside
    var order: Order
    var authorization: Authorization
    var challenge: Challenge

    constructor (ca: Outside)
      ensures this.ca == ca && order == NO_ORDER && authorization == NO_AUTHORIZATION && challenge == NO_CHALLENGE
    {
      this.ca, this.order, this.authorization, this.challenge := ca, NO_ORDER, NO_AUTHORIZATION, NO_CHALLENGE;
    }

    method UpdateAccount(email: string) returns (ok: bool)
      modifies ca`calls, ca`account
      ensures ca.calls == old(ca.calls) + 1 && ok == ca.answers(old(ca.calls))
      ensures ok ==> ca.account == email
    {
      ok := ca.UpdateAccount(email);
    }

    method CreateOrder(domains: seq<string>) returns (ok: bool)
      modifies this`order, ca`calls, ca`events
      ensures ca.calls == old(ca.calls) + 1 && ok == ca.answers(old(ca.calls))
      ensures ok ==> ca.events == old(ca.events) + [OrderCreated(order)] && order == ca.offers(old(ca.calls), domains)
      ensures !ok ==> ca.events == old(ca.events)
    {
      ok, order := ca.NewOrder(domains);
    }

    method FetchAuthorization(url: string) returns (ok: bool)
      modifies this`authorization, ca`calls, ca`events
      ensures ca.calls == old(ca.calls) + 1 && ok == ca.answers(old(ca.calls))
      ensures ok ==> authorization == ca.lookup(url) && ca.events == old(ca.events) + [Fetched(authorization)]
      ensures !ok ==> ca.events == old(ca.events)
    {
      ok, authorization := ca.FetchAuthorization(url);
    }

    /** GetAuthorizationIndentifier; None is its error. */
    function GetAuthorizationIdentifier(): Option<string>
      reads this`authorization
    {
      if authorization.identifier == "" then None else Some(authorization.identifier)
    }

    method SetChallengeType()
      modifies this`challenge
      ensures challenge == ChallengeOf(authorization)
    {
      challenge := if DNS01 in authorization.challenges then authorization.challenges[DNS01] else NO_CHALLENGE;
    }

    /** GetDNS01KeyAuthorization; None is its error. */
    function GetDNS01KeyAuthorization(): Option<string>
      reads this`challenge
    {
      var keyAuth := ca.encode(challenge.keyAuthorization);
      if keyAuth == "" then None else Some(keyAuth)
    }

    method UpdateChallenge() returns (ok: bool)
      modifies this`challenge, ca`calls, ca`valid, ca`events
      ensures ca.calls == old(ca.calls) + 1
      ensures ok <==> ca.answers(old(ca.calls)) && ca.Accepts(old(challenge), ca.published)
      ensures ok ==> var c := old(challenge);
                challenge == c && ca.valid == old(ca.valid) + {ca.owner(c.url)} && ca.events == old(ca.events) + [ChallengeAccepted(c)]
      ensures !ok ==> ca.valid == old(ca.valid)
      ensures !ok ==> ca.events == old(ca.events)
    {
      ok, challenge := ca.UpdateChallenge(challenge);
    }

    method FinalizeOrder(csr: Csr) returns (ok: bool)
      modifies this`order, ca`calls, ca`certificates, ca`events
      ensures ca.events == old(ca.events) + [FinalizeRequested(old(order), csr)]
      ensures ca.calls == old(ca.calls) + 1
      ensures ok <==> ca.answers(old(ca.calls)) && ca.Ready(old(order), csr, ca.valid)
      ensures ok ==> order.certificate in ca.certificates && ca.certificates[order.certificate] == ca.chains(old(ca.calls), csr)
    {
      ok, order := ca.FinalizeOrder(order, csr);
    }

    method FetchCertificates() returns (ok: bool, chain: seq<Certificate>)
      modifies ca`calls, ca`events
      ensures ca.calls == old(ca.calls) + 1
      ensures ok <==> ca.answers(old(ca.calls)) && order.certificate in ca.certificates
      ensures ok ==>
                && chain == ca.certificates[order.certificate]
                && ca.events == old(ca.events) + [ChainFetched(chain)]
      ensures !ok ==> ca.events == old(ca.events)
    {
      ok, chain := ca.FetchCertificates(order.certificate);
    }
  }
}
