/** When a certificate is reissued: the truncated-day test and name coverage of ShouldReissue,
    and the rounded-day gauge of UpdateCertValidDuration. */
module Renewal {
  import opened GoStrings
  import opened Certificates

  const DAY := 24 * 3600 * 1_000_000_000
  const MAX_DURATION := 0x7FFF_FFFF_FFFF_FFFF
  const REISSUE_BEFORE_DAYS := 45

  /** Whole days in the longest time.Duration. */
  const MAX_DAYS := MAX_DURATION / DAY

  /** time.Time.Sub saturates at the ends of the 64-bit duration. */
  function Sub(a: int, b: int): int {
    if a - b > MAX_DURATION then MAX_DURATION
    else if a - b < -MAX_DURATION - 1 then -MAX_DURATION - 1
    else a - b
  }

  /** int(x / DAY): truncation toward zero. */
  function TruncDays(d: int): int {
    if d >= 0 then d / DAY else -((-d) / DAY)
  }

  /** math.Round(x / DAY): half away from zero. */
  function RoundDays(d: int): int {
    if d >= 0 then (2 * d + DAY) / (2 * DAY) else -((2 * -d + DAY) / (2 * DAY))
  }

  function ReissueBefore(configured: int): (n: int)
    ensures n > 0
  {
    if configured <= 0 then REISSUE_BEFORE_DAYS else configured
  }

  predicate ExpiresSoon(notAfter: int, now: int, n: int) {
    TruncDays(Sub(notAfter, now)) <= n
  }

  predicate Covers(c: Certificate, dnsNames: seq<string>) {
    forall d :: d in dnsNames ==> d in c.dnsNames
  }

  /** The decision of ShouldReissue for a parsed certificate. */
  predicate NeedsReissue(c: Certificate, dnsNames: seq<string>, n: int, now: int) {
    ExpiresSoon(c.notAfter, now, n) || !Covers(c, dnsNames)
  }

  /** ShouldReissue for a fetched secret. */
  function Reissue(secret: Secret, dnsNames: seq<string>, configured: int, now: int): Outcome<bool> {
    if secret.tlsCert == None then Ok(true)
    else
      match ParseCertificateData(secret.tlsCert.value)
      case Ok(c) => Ok(NeedsReissue(c, dnsNames, ReissueBefore(configured), now))
      case Err => Err
      case Panic => Panic
  }

  method ShouldReissue(secret: Secret, dnsNames: seq<string>, configured: int, now: int)
    returns (decision: Outcome<bool>)
    ensures decision == Reissue(secret, dnsNames, configured, now)
    ensures secret.tlsCert == None ==> decision == Ok(true)
    ensures secret.tlsCert == Some([]) ==> decision == Panic
    ensures secret.tlsCert.Some? && secret.tlsCert.value != [] && secret.tlsCert.value[0].OpaqueBlock? ==> decision == Err
    // with the configured days, or 45, in nanoseconds; 106751 days is what a time.Duration holds
    ensures secret.tlsCert.Some? && secret.tlsCert.value != [] && secret.tlsCert.value[0].CertBlock? ==>
              var c := secret.tlsCert.value[0].certificate;
              var days := if configured <= 0 then 45 else configured;
              && decision.Ok?
              && (decision.value <==> || days >= 106_751
                                      || c.notAfter - now < (days + 1) * 86_400_000_000_000
                                      || exists d :: d in dnsNames && d !in c.dnsNames)
  {
    if secret.tlsCert.Some? && secret.tlsCert.value != [] && secret.tlsCert.value[0].CertBlock? {
      ReissueExactly(secret, dnsNames, configured, now);
    }
    hide Sub, TruncDays;
    var before := configured;
    if before <= 0 {
      before := REISSUE_BEFORE_DAYS;
    }
    if secret.tlsCert == None {
      return Ok(true);
    }
    var parsed := ParseCertificateData(secret.tlsCert.value);
    if parsed.Panic? {
      return Panic;
    }
    if parsed.Err? {
      return Err;
    }
    var certificate := parsed.value;
    var days := TruncDays(Sub(certificate.notAfter, now));
    var should := days <= before;
    for i := 0 to |dnsNames|
      invariant should <==> days <= before || !Covers(certificate, dnsNames[..i])
    {
      assert dnsNames[..i + 1] == dnsNames[..i] + [dnsNames[i]];
      var listed := ContainsString(certificate.dnsNames, dnsNames[i]);
      if !listed {
        should := true;
      }
    }
    assert dnsNames[..|dnsNames|] == dnsNames;
    return Ok(should);
  }

  /** The decision in the terms of the certificate alone. */
  lemma ReissueExactly(secret: Secret, dnsNames: seq<string>, configured: int, now: int)
    requires secret.tlsCert.Some? && secret.tlsCert.value != [] && secret.tlsCert.value[0].CertBlock?
    ensures var c := secret.tlsCert.value[0].certificate;
            var days := if configured <= 0 then 45 else configured;
            Reissue(secret, dnsNames, configured, now)
            == Ok(|| days >= 106_751
                  || c.notAfter - now < (days + 1) * 86_400_000_000_000
                  || exists d :: d in dnsNames && d !in c.dnsNames)
  {
    var c, days := secret.tlsCert.value[0].certificate, ReissueBefore(configured);
    assert MAX_DAYS == 106_751;
    if days < MAX_DAYS {
      ExpiresBelow(c.notAfter, now, days);
    } else {
      TruncMonotone(Sub(c.notAfter, now), MAX_DURATION);
    }
  }

  lemma TruncBelow(d: int, n: int)
    requires n >= 0
    ensures TruncDays(d) <= n <==> d < (n + 1) * DAY
  {
    if d >= 0 {
      DayBounds(d, n);
    }
  }

  lemma DayBounds(d: int, n: int)
    requires d >= 0 && n >= 0
    ensures d / DAY <= n <==> d < (n + 1) * DAY
  {
    var q := d / DAY;
    assert q * DAY <= d < q * DAY + DAY;
  }

  /** "Less than n+1 days left" is what the test decides, for every pair of instants, exactly as
      long as n+1 days fit a time.Duration. */
  lemma ReissueThreshold(n: int)
    requires n > 0
    ensures (forall notAfter, now :: ExpiresSoon(notAfter, now, n) <==> notAfter - now < (n + 1) * DAY)
            <==> n < MAX_DAYS
  {
    if n < MAX_DAYS {
      forall notAfter, now
        ensures ExpiresSoon(notAfter, now, n) <==> notAfter - now < (n + 1) * DAY
      {
        ExpiresBelow(notAfter, now, n);
      }
    } else {
      var notAfter := (n + 1) * DAY;
      TruncBelow(Sub(notAfter, 0), n);
      assert ExpiresSoon(notAfter, 0, n) && !(notAfter - 0 < (n + 1) * DAY);
    }
  }

  lemma ExpiresBelow(notAfter: int, now: int, n: int)
    requires 0 < n < MAX_DAYS
    ensures ExpiresSoon(notAfter, now, n) <==> notAfter - now < (n + 1) * DAY
  {
    TruncBelow(Sub(notAfter, now), n);
    assert (n + 1) * DAY <= MAX_DURATION;
  }

  lemma TruncMonotone(a: int, b: int)
    requires a <= b
    ensures TruncDays(a) <= TruncDays(b)
  {
    if 0 <= a {
      DayMonotone(a, b);
    } else if b < 0 {
      DayMonotone(-b, -a);
    }
  }

  lemma DayMonotone(a: nat, b: nat)
    requires a <= b
    ensures a / DAY <= b / DAY
  {
  }

  /** Once a certificate is due it stays due. */
  lemma ReissueIsMonotone(secret: Secret, dnsNames: seq<string>, configured: int, now: int, later: int)
    requires now <= later && Reissue(secret, dnsNames, configured, now) == Ok(true)
    ensures Reissue(secret, dnsNames, configured, later) == Ok(true)
  {
    if secret.tlsCert.Some? {
      var c := ParseCertificateData(secret.tlsCert.value).value;
      TruncMonotone(Sub(c.notAfter, later), Sub(c.notAfter, now));
    }
  }

  /** A certificate that covers the names is left alone up to n+1 days before it expires. */
  lemma FreshCertificateIsKept(c: Certificate, rest: seq<PemBlock>, secret: Secret, dnsNames: seq<string>, configured: int, now: int)
    requires secret.tlsCert == Some([CertBlock(c)] + rest)
    requires Covers(c, dnsNames) && ReissueBefore(configured) < MAX_DAYS
    ensures Reissue(secret, dnsNames, configured, now) == Ok(false)
            <==> now <= c.notAfter - (ReissueBefore(configured) + 1) * DAY
  {
    ExpiresBelow(c.notAfter, now, ReissueBefore(configured));
  }

  /** The value UpdateCertValidDuration reports. */
  function ValidDays(notAfter: int, now: int): int {
    var r := RoundDays(Sub(notAfter, now));
    if r < 0 then 0 else r
  }

  lemma RoundBounds(d: int)
    requires d >= 0
    ensures 2 * RoundDays(d) * DAY <= 2 * d + DAY < 2 * RoundDays(d) * DAY + 2 * DAY
  {
    var q := (2 * d + DAY) / (2 * DAY);
    assert q * (2 * DAY) <= 2 * d + DAY < q * (2 * DAY) + 2 * DAY;
  }

  /** The gauge and the test, read on the same clock, differ by at most one day; at n+1 the
      gauge does not decide and the time left does. */
  lemma GaugeAgreesWithTest(notAfter: int, now: int, n: int)
    requires n > 0
    ensures var m := ValidDays(notAfter, now);
            && (m <= n ==> ExpiresSoon(notAfter, now, n))
            && (m >= n + 2 ==> !ExpiresSoon(notAfter, now, n))
            && (m == n + 1 ==> (ExpiresSoon(notAfter, now, n) <==> Sub(notAfter, now) < m * DAY))
  {
    var d := Sub(notAfter, now);
    TruncBelow(d, n);
    if d >= 0 {
      RoundBounds(d);
      var m := RoundDays(d);
      if m <= n {
        assert 2 * d + DAY < 2 * n * DAY + 2 * DAY;
      } else if m >= n + 2 {
        assert 2 * (n + 2) * DAY <= 2 * d + DAY;
      }
    }
  }

  /** Until a certificate has expired the gauge shows the truncated days or one more, from then on zero. */
  lemma GaugeBracketsTruncation(notAfter: int, now: int)
    ensures now <= notAfter ==>
              TruncDays(Sub(notAfter, now)) <= ValidDays(notAfter, now) <= TruncDays(Sub(notAfter, now)) + 1
    ensures notAfter <= now ==> ValidDays(notAfter, now) == 0
  {
    var d := Sub(notAfter, now);
    if d >= 0 {
      RoundBounds(d);
      var t, m := d / DAY, RoundDays(d);
      assert t * DAY <= d < t * DAY + DAY;
    } else {
      assert (2 * -d + DAY) / (2 * DAY) >= 0;
    }
  }
}
