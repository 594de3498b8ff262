/** The DNS propagation check: query public DNS, honour negative-cache times (section 5 of
    RFC 2308), give up on long ones. Responses are an arbitrary function of the attempt. */
module Propagation {
  import opened GoStrings

  const MAX_ATTEMPTS := 10
  const WAIT_PERIOD := 30
  const MAX_NEGATIVE_TTL := 600
  const NAME_ERROR := 3

  /** A Go int on a 64-bit platform. */
  type Int64 = x: int | -0x8000_0000_0000_0000 <= x < 0x8000_0000_0000_0000

  /** ttl + 5 in 64-bit arithmetic. */
  function PlusFive(ttl: Int64): (r: Int64) {
    if ttl + 5 < 0x8000_0000_0000_0000 then ttl + 5 else ttl + 5 - 0x1_0000_0000_0000_0000
  }

  datatype Answer = Answer(name: string, ttl: Int64, data: string)
  datatype Response = Response(status: Int64, answers: seq<Answer>, authority: seq<Answer>)

  /** What the two endpoints would say at one attempt; None is a failed request. */
  datatype Attempt = Attempt(cloudflare: Option<Response>, google: Option<Response>)

  /** TryFetchResourceRecordUsingPublicDNS: the second endpoint only when the first failed. */
  method TryFetch(attempt: Attempt) returns (response: Option<Response>, requests: nat)
    ensures response == Fetched(attempt)
    ensures attempt.cloudflare.Some? ==> response == attempt.cloudflare
    ensures attempt.cloudflare.None? ==> response == attempt.google
    ensures requests == if attempt.cloudflare.Some? then 1 else 2
  {
    response, requests := attempt.cloudflare, 1;
    if response == None {
      response, requests := attempt.google, 2;
    }
  }

  function Fetched(attempt: Attempt): Option<Response> {
    if attempt.cloudflare.Some? then attempt.cloudflare else attempt.google
  }

  predicate IsNegative(r: Response) {
    r.status == NAME_ERROR && |r.authority| > 0
  }

  /** Seconds the next attempt has to wait for the negative cache, five more than its TTL. */
  function NegativeWait(attempt: Attempt): Int64 {
    var r := Fetched(attempt);
    if r.Some? && IsNegative(r.value) then PlusFive(r.value.authority[0].ttl) else 0
  }

  predicate GivesUp(attempt: Attempt) {
    NegativeWait(attempt) > MAX_NEGATIVE_TTL
  }

  predicate Confirms(attempt: Attempt, fqdn: string, value: string) {
    var r := Fetched(attempt);
    && r.Some?
    && !IsNegative(r.value)
    && |r.value.answers| > 0
    && EqualFold(TrimSuffix(r.value.answers[0].name, "."), fqdn)
    && Trim(r.value.answers[0].data, "\"") == value
  }

  /** In the fields of the responses: a name error is status 3 and counts with an authority section, its wait
      is five seconds more than the authority's TTL, and above 600 seconds it makes the check give up. */
  lemma NegativeWaitExactly(attempt: Attempt, r: Response)
    requires attempt.cloudflare == Some(r) || (attempt.cloudflare.None? && attempt.google == Some(r))
    ensures var negative := r.status == 3 && |r.authority| > 0;
            && (!negative ==> NegativeWait(attempt) == 0 && !GivesUp(attempt))
            && (negative && r.authority[0].ttl + 5 < 0x8000_0000_0000_0000 ==>
                  && NegativeWait(attempt) == r.authority[0].ttl + 5
                  && (GivesUp(attempt) <==> r.authority[0].ttl + 5 > 600))
            && (negative && r.authority[0].ttl + 5 >= 0x8000_0000_0000_0000 ==> NegativeWait(attempt) < 0 && !GivesUp(attempt))
  {
  }

  /** A response confirms the record if it is no such name error and its first answer has the name, up to case
      and a trailing dot, and the value, without outer quotes. */
  lemma ConfirmsExactly(attempt: Attempt, fqdn: string, value: string)
    ensures attempt == Attempt(None, None) ==> !Confirms(attempt, fqdn, value) && NegativeWait(attempt) == 0
    ensures forall r :: attempt.cloudflare == Some(r) || (attempt.cloudflare.None? && attempt.google == Some(r)) ==>
              (Confirms(attempt, fqdn, value) <==>
                 && !(r.status == 3 && |r.authority| > 0)
                 && |r.answers| > 0
                 && ToLower(TrimSuffix(r.answers[0].name, ".")) == ToLower(fqdn)
                 && Trim(r.answers[0].data, "\"") == value)
  {
  }

  /** Attempt i is reached and confirms the record. */
  predicate ConfirmedAt(dns: nat -> Attempt, fqdn: string, value: string, i: nat) {
    && 1 <= i <= 9
    && Confirms(dns(i), fqdn, value)
    && forall j :: 1 <= j < i ==> !GivesUp(dns(j))
  }

  /** The reference for the loop: some attempt in time confirms the record. */
  ghost predicate Propagates(dns: nat -> Attempt, fqdn: string, value: string) {
    exists i :: ConfirmedAt(dns, fqdn, value, i)
  }

  function Sum(xs: seq<nat>): nat {
    if xs == [] then 0 else Sum(xs[..|xs| - 1]) + xs[|xs| - 1]
  }

  lemma {:induction false} SumBound(xs: seq<nat>)
    requires forall i :: 0 <= i < |xs| ==> WAIT_PERIOD <= xs[i] <= MAX_NEGATIVE_TTL
    requires |xs| > 0 ==> xs[0] == WAIT_PERIOD
    ensures WAIT_PERIOD * |xs| <= Sum(xs)
    ensures |xs| > 0 ==> Sum(xs) <= WAIT_PERIOD + MAX_NEGATIVE_TTL * (|xs| - 1)
  {
    if |xs| > 0 {
      SumBound(xs[..|xs| - 1]);
      if |xs| == 1 {
        assert xs[..0] == [];
      }
    }
  }

  /** The wait before attempt i, given the attempt before it. */
  function SleepBefore(dns: nat -> Attempt, i: nat): nat {
    if i > 1 && NegativeWait(dns(i - 1)) > WAIT_PERIOD then NegativeWait(dns(i - 1)) else WAIT_PERIOD
  }

  /** One pass of the loop after its wait: the fetch and the inspection of the response. */
  method Inspect(attempt: Attempt, fqdn: string, value: string)
    returns (confirmed: bool, negativeCacheTTL: Int64, requests: nat)
    ensures confirmed <==> Confirms(attempt, fqdn, value)
    ensures negativeCacheTTL == NegativeWait(attempt)
    ensures 1 <= requests <= 2
  {
    confirmed, negativeCacheTTL := false, 0;
    var response;
    response, requests := TryFetch(attempt);
    if response == None {
      return;
    }
    if IsNegative(response.value) {
      negativeCacheTTL := PlusFive(response.value.authority[0].ttl);
      return;
    }
    if |response.value.answers| == 0 {
      return;
    }
    var cfName := TrimSuffix(response.value.answers[0].name, ".");
    var cfData := Trim(response.value.answers[0].data, "\"");
    confirmed := EqualFold(cfName, fqdn) && cfData == value;
  }

  /** The waits of a run that has made |sleeps| fetches. */
  ghost predicate Waits(dns: nat -> Attempt, sleeps: seq<nat>) {
    && (forall i :: 0 <= i < |sleeps| ==> sleeps[i] == SleepBefore(dns, i + 1))
    && (forall i :: 0 <= i < |sleeps| ==> WAIT_PERIOD <= sleeps[i] <= MAX_NEGATIVE_TTL)
  }

  /** No attempt before this one confirmed the record. */
  ghost predicate NotYet(dns: nat -> Attempt, fqdn: string, value: string, attempt: nat) {
    attempt <= 1 || (!Confirms(dns(attempt - 1), fqdn, value) && NotYet(dns, fqdn, value, attempt - 1))
  }

  lemma {:induction false} NotYetBefore(dns: nat -> Attempt, fqdn: string, value: string, attempt: nat, j: nat)
    requires NotYet(dns, fqdn, value, attempt) && 1 <= j < attempt
    ensures !Confirms(dns(j), fqdn, value)
  {
    if j < attempt - 1 {
      NotYetBefore(dns, fqdn, value, attempt - 1, j);
    }
  }

  ghost predicate Patient(dns: nat -> Attempt, attempt: int) {
    forall j :: 1 <= j < attempt ==> !GivesUp(dns(j))
  }

  /** VerifyDnsResourceRecordUpdate. `sleeps` lists the waits, one before each fetch. */
  method VerifyDnsResourceRecordUpdate(dns: nat -> Attempt, fqdn: string, value: string)
    returns (verified: bool, sleeps: seq<nat>, requests: nat)
    ensures verified <==> Propagates(dns, fqdn, value)
    ensures |sleeps| <= 9 && |sleeps| <= requests <= 2 * |sleeps|
    ensures forall i :: 0 <= i < |sleeps| ==> sleeps[i] == SleepBefore(dns, i + 1)
    ensures forall i :: 0 <= i < |sleeps| ==>
              sleeps[i] == if i > 0 && NegativeWait(dns(i)) > 30 then NegativeWait(dns(i)) else 30
    ensures Sum(sleeps) <= 30 + 8 * 600
  {
    hide Confirms, NegativeWait;
    var negativeCacheTTL: Int64 := 0;
    sleeps, requests := [], 0;
    var attempt := 1;
    while attempt < MAX_ATTEMPTS
      invariant 1 <= attempt <= MAX_ATTEMPTS
      invariant |sleeps| == attempt - 1 && |sleeps| <= requests <= 2 * |sleeps|
      invariant negativeCacheTTL == if attempt > 1 then NegativeWait(dns(attempt - 1)) else 0
      invariant Waits(dns, sleeps)
      invariant NotYet(dns, fqdn, value, attempt)
      invariant Patient(dns, attempt - 1)
    {
      var sleepDuration := WAIT_PERIOD;
      if attempt > 1 && negativeCacheTTL > 0 {
        if negativeCacheTTL > MAX_NEGATIVE_TTL {
          SumBound(sleeps);
          GaveUp(dns, fqdn, value, attempt);
          return false, sleeps, requests;
        }
        if negativeCacheTTL > sleepDuration {
          sleepDuration := negativeCacheTTL;
        }
      }
      sleeps := sleeps + [sleepDuration];
      var confirmed, n;
      confirmed, negativeCacheTTL, n := Inspect(dns(attempt), fqdn, value);
      requests := requests + n;
      if confirmed {
        SumBound(sleeps);
        Found(dns, fqdn, value, attempt);
        return true, sleeps, requests;
      }
      attempt := attempt + 1;
    }
    SumBound(sleeps);
    RanOut(dns, fqdn, value);
    verified := false;
  }

  lemma Found(dns: nat -> Attempt, fqdn: string, value: string, attempt: nat)
    requires 1 <= attempt < MAX_ATTEMPTS && Confirms(dns(attempt), fqdn, value) && Patient(dns, attempt)
    ensures Propagates(dns, fqdn, value)
  {
    assert ConfirmedAt(dns, fqdn, value, attempt);
  }

  lemma RanOut(dns: nat -> Attempt, fqdn: string, value: string)
    requires NotYet(dns, fqdn, value, MAX_ATTEMPTS)
    ensures !Propagates(dns, fqdn, value)
  {
    forall i: nat | 1 <= i < MAX_ATTEMPTS
      ensures !ConfirmedAt(dns, fqdn, value, i)
    {
      NotYetBefore(dns, fqdn, value, MAX_ATTEMPTS, i);
    }
  }

  lemma GaveUp(dns: nat -> Attempt, fqdn: string, value: string, attempt: nat)
    requires attempt > 1 && GivesUp(dns(attempt - 1)) && NotYet(dns, fqdn, value, attempt)
    ensures !Propagates(dns, fqdn, value)
  {
    forall i: nat
      ensures !ConfirmedAt(dns, fqdn, value, i)
    {
      if i >= attempt {
        assert 1 <= attempt - 1 < i;
      } else if i >= 1 {
        NotYetBefore(dns, fqdn, value, attempt, i);
      }
    }
  }

  /** A negative answer that does not make the check give up delays the next query past its own expiry, exactly
      unless five more seconds overflow the TTL. */
  lemma NegativeCacheIsHonoured(dns: nat -> Attempt, i: nat)
    requires Fetched(dns(i)).Some? && IsNegative(Fetched(dns(i)).value)
    requires i >= 1 && !GivesUp(dns(i))
    ensures var ttl := Fetched(dns(i)).value.authority[0].ttl;
            SleepBefore(dns, i + 1) > ttl <==> ttl <= 0x7FFF_FFFF_FFFF_FFFF - 5
  {
  }
}
