/** Names of the dns-01 challenge records: what is written when a challenge is answered and
    what cleanup later looks for. */
module ChallengeNames {
  import opened GoStrings

  const ACME_CHALLENGE := "_acme-challenge"
  const WRITE_VALIDATION := "_certman_access_test"

  /** The authorization identifier of a requested name: a wildcard loses its leading "*."
      (section 7.1.4 of RFC 8555). */
  function Identifier(dnsName: string): string {
    TrimPrefix(dnsName, "*.")
  }

  /** Where a CA looks for the dns-01 answer (section 8.4 of RFC 8555). */
  function ValidationName(identifier: string): string {
    "_acme-challenge." + identifier
  }

  /** Record name published by AnswerDNSChallenge on Route53 and Cloud DNS. */
  function AnswerName(identifier: string): string {
    ACME_CHALLENGE + "." + identifier
  }

  /** Route53 and Cloud DNS are answered where the CA looks. */
  lemma AnswersWhereTheCALooks(identifier: string)
    ensures AnswerName(identifier) == ValidationName(identifier)
  {
    assert ACME_CHALLENGE + "." == "_acme-challenge.";
  }

  /** Record name DeleteAcmeChallengeResourceRecords derives from a requested name on Route53. */
  function CleanupName(dnsName: string): string {
    var domain := TrimPrefix(dnsName, "*");
    ACME_CHALLENGE + (if HasPrefix(domain, ".") then domain else "." + domain)
  }

  /** The names for which Route53 cleanup looks at the record that was written. */
  predicate CleanableName(dnsName: string) {
    HasPrefix(dnsName, "*.") || !(HasPrefix(dnsName, "*") || HasPrefix(dnsName, "."))
  }

  /** Cleanup meets the answered name exactly for names that are a wildcard "*.rest"
      or start with neither a star nor a dot. */
  lemma CleanupMeetsAnswer(dnsName: string)
    ensures CleanupName(dnsName) == AnswerName(Identifier(dnsName)) <==> CleanableName(dnsName)
  {
    var written, looked := AnswerName(Identifier(dnsName)), CleanupName(dnsName);
    var n := |ACME_CHALLENGE| + 1;
    assert written[n..] == Identifier(dnsName);
    if HasPrefix(dnsName, "*.") {
      assert dnsName == "*." + dnsName[2..] && dnsName[1..] == "." + dnsName[2..];
    } else if HasPrefix(dnsName, "*") {
      var rest := dnsName[1..];
      assert !HasPrefix(rest, ".");
      assert looked[n..] == rest;
    } else if HasPrefix(dnsName, ".") {
      assert looked[n..] == dnsName[1..];
    }
  }

  /** generateTxtRecordName of the Azure client. */
  function AzureRecordName(domain: string, rootDomain: string): string {
    var d := TrimSuffix(TrimSuffix(domain, rootDomain), ".");
    ACME_CHALLENGE + "." + TrimPrefix(TrimPrefix(d, "*"), ".")
  }

  /** The FQDN AnswerDNSChallenge of the Azure client returns: it strips the zone's name as Azure spells it
      and appends the one of the CertificateRequest. */
  function AzureFqdn(domain: string, zoneName: string, acmeDnsDomain: string): string {
    AzureRecordName(domain, zoneName) + "." + acmeDnsDomain
  }

  /** Starts like a host name: neither with a dot nor with a star. */
  predicate PlainStart(s: string) {
    s == [] || (s[0] != '.' && s[0] != '*')
  }

  predicate WellFormed(dnsName: string) {
    Identifier(dnsName) != [] && PlainStart(Identifier(dnsName))
  }

  lemma AzureTail(domain: string)
    requires PlainStart(domain)
    ensures PlainStart(TrimSuffix(domain, "."))
    ensures TrimPrefix(TrimPrefix(TrimSuffix(domain, "."), "*"), ".") == TrimSuffix(domain, ".")
  {
  }

  /** With one spelling of the zone, a requested name, wildcard or not, and its authorization identifier make
      the same record name. */
  lemma AzureWildcardIsStripped(dnsName: string, rootDomain: string)
    requires WellFormed(dnsName) && PlainStart(rootDomain)
    ensures AzureRecordName(dnsName, rootDomain) == AzureRecordName(Identifier(dnsName), rootDomain)
  {
    if HasPrefix(dnsName, "*.") {
      var base := dnsName[2..];
      assert dnsName == "*." + base;
      AzureSuffixOfWildcard(base, rootDomain);
      var stripped := TrimSuffix(base, rootDomain);
      assert PlainStart(stripped);
      AzureTail(stripped);
      var t := TrimSuffix(stripped, ".");
      if stripped != [] {
        AzureWildcardDot(stripped);
        assert TrimPrefix("*." + t, "*") == "." + t;
        assert TrimPrefix("." + t, ".") == t;
      } else {
        assert TrimSuffix("*.", ".") == "*";
      }
    }
  }

  lemma AzureWildcardDot(stripped: string)
    requires stripped != [] && PlainStart(stripped)
    ensures TrimSuffix("*." + stripped, ".") == "*." + TrimSuffix(stripped, ".")
  {
    var w := "*." + stripped;
    assert w[|w| - 1..] == stripped[|stripped| - 1..];
    assert w[..|w| - 1] == "*." + stripped[..|stripped| - 1];
  }

  lemma AzureSuffixOfWildcard(base: string, rootDomain: string)
    requires base != [] && PlainStart(base) && PlainStart(rootDomain)
    ensures TrimSuffix("*." + base, rootDomain) == "*." + TrimSuffix(base, rootDomain)
  {
    var w := "*." + base;
    if HasSuffix(w, rootDomain) {
      var at := |w| - |rootDomain|;
      assert at >= 2;
      assert w[at..] == base[at - 2..];
      assert w[..at] == "*." + base[..at - 2];
    } else {
      assert |rootDomain| <= |base| ==> w[|w| - |rootDomain|..] == base[|base| - |rootDomain|..];
    }
  }

  /** What is left of an identifier once the zone and a dot are off. */
  function AzureStem(identifier: string, zoneName: string): string {
    TrimSuffix(TrimSuffix(identifier, zoneName), ".")
  }

  lemma AzureStemNames(identifier: string, zoneName: string)
    requires PlainStart(identifier)
    ensures AzureRecordName(identifier, zoneName) == ACME_CHALLENGE + "." + AzureStem(identifier, zoneName)
  {
    assert PlainStart(TrimSuffix(identifier, zoneName));
    AzureTail(TrimSuffix(identifier, zoneName));
  }

  /** Two spellings of which only one ends the identifier leave stems of different lengths. */
  lemma AzureStemLengths(identifier: string, zoneName: string, other: string)
    requires EqualFold(zoneName, other) && HasSuffix(identifier, zoneName) && !HasSuffix(identifier, other)
    ensures |AzureStem(identifier, zoneName)| < |AzureStem(identifier, other)|
  {
    assert |zoneName| == |ToLower(zoneName)| == |other|;
    if |zoneName| == 1 {
      assert ToLower(zoneName)[0] == ToLower(other)[0];
      assert identifier[|identifier| - 1..] == zoneName;
    }
  }

  /** On Azure, cleanup of a well-formed requested name, wildcard or not, deletes the very record its
      authorization identifier was answered with if and only if both spellings of the zone are the same, or
      neither ends the identifier. */
  lemma AzureCleanupMeetsAnswer(dnsName: string, zoneName: string, acmeDnsDomain: string)
    requires WellFormed(dnsName) && PlainStart(acmeDnsDomain) && EqualFold(zoneName, acmeDnsDomain)
    ensures EqualFold(AzureRecordName(Identifier(dnsName), zoneName), AzureRecordName(dnsName, acmeDnsDomain))
            <==> AzureMeets(Identifier(dnsName), zoneName, acmeDnsDomain)
  {
    var id := Identifier(dnsName);
    AzureWildcardIsStripped(dnsName, acmeDnsDomain);
    AzureStemNames(id, zoneName);
    AzureStemNames(id, acmeDnsDomain);
    AzureStemsMeet(id, zoneName, acmeDnsDomain);
    hide *;
    FoldedTails(AzureStem(id, zoneName), AzureStem(id, acmeDnsDomain));
  }

  lemma AzureStemsMeet(identifier: string, zoneName: string, acmeDnsDomain: string)
    requires EqualFold(zoneName, acmeDnsDomain)
    ensures EqualFold(AzureStem(identifier, zoneName), AzureStem(identifier, acmeDnsDomain))
            <==> AzureMeets(identifier, zoneName, acmeDnsDomain)
  {
    var a, b := AzureStem(identifier, zoneName), AzureStem(identifier, acmeDnsDomain);
    assert |ToLower(a)| == |a| && |ToLower(b)| == |b|;
    if AzureMeets(identifier, zoneName, acmeDnsDomain) {
      assert a == b;
    } else if HasSuffix(identifier, zoneName) {
      if HasSuffix(identifier, acmeDnsDomain) {
        SuffixesOfOneLength(identifier, zoneName, acmeDnsDomain);
      } else {
        AzureStemLengths(identifier, zoneName, acmeDnsDomain);
      }
    } else {
      AzureStemLengths(identifier, acmeDnsDomain, zoneName);
    }
  }

  lemma FoldedTails(a: string, b: string)
    ensures EqualFold(ACME_CHALLENGE + "." + a, ACME_CHALLENGE + "." + b) <==> EqualFold(a, b)
  {
    LowerConcat(ACME_CHALLENGE + ".", a);
    LowerConcat(ACME_CHALLENGE + ".", b);
    SameTail(ToLower(ACME_CHALLENGE + "."), ToLower(a), ToLower(b));
  }

  /** Checkable before the call: the two spellings agree where it matters. */
  predicate AzureMeets(identifier: string, zoneName: string, acmeDnsDomain: string) {
    zoneName == acmeDnsDomain || (!HasSuffix(identifier, zoneName) && !HasSuffix(identifier, acmeDnsDomain))
  }

  lemma SuffixesOfOneLength(s: string, a: string, b: string)
    requires EqualFold(a, b) && HasSuffix(s, a) && HasSuffix(s, b)
    ensures a == b
  {
    assert |a| == |ToLower(a)| == |b|;
  }

  /** The Azure client answers where the CA will look, names compared without regard to case, exactly for
      identifiers strictly below the zone as Azure spells it, on a label boundary; letter by letter, exactly if
      the CertificateRequest spells it the same. An identifier equal to the zone is answered elsewhere. */
  lemma AzureAnswersValidationName(identifier: string, zoneName: string, acmeDnsDomain: string)
    requires identifier != [] && PlainStart(identifier) && EqualFold(zoneName, acmeDnsDomain)
    ensures EqualFold(AzureFqdn(identifier, zoneName, acmeDnsDomain), ValidationName(identifier))
            <==> HasSuffix(identifier, "." + zoneName)
    ensures AzureFqdn(identifier, zoneName, acmeDnsDomain) == ValidationName(identifier)
            <==> HasSuffix(identifier, "." + zoneName) && zoneName == acmeDnsDomain
  {
    var t := AzureStem(identifier, zoneName);
    AnswersWhereTheCALooks(identifier);
    AzureFqdnParts(identifier, zoneName, acmeDnsDomain);
    AzureSplitFolded(identifier, zoneName, acmeDnsDomain);
    hide *;
    SamePrefix(t + "." + acmeDnsDomain, identifier);
    FoldedTails(t + "." + acmeDnsDomain, identifier);
    assert AnswerName(identifier) == ACME_CHALLENGE + "." + identifier by { AnswerNameIs(identifier); }
  }

  lemma AnswerNameIs(identifier: string)
    ensures AnswerName(identifier) == ACME_CHALLENGE + "." + identifier
  {
  }

  lemma AzureFqdnParts(identifier: string, zoneName: string, acmeDnsDomain: string)
    requires PlainStart(identifier)
    ensures AzureFqdn(identifier, zoneName, acmeDnsDomain) == ACME_CHALLENGE + "." + (AzureStem(identifier, zoneName) + "." + acmeDnsDomain)
  {
    AzureStemNames(identifier, zoneName);
    hide AzureStem, AzureRecordName, PlainStart;
  }

  lemma SameTail(p: string, a: string, b: string)
    ensures p + a == p + b <==> a == b
  {
    assert (p + a)[|p|..] == a && (p + b)[|p|..] == b;
  }

  lemma AzureSplitFolded(identifier: string, zoneName: string, acmeDnsDomain: string)
    requires EqualFold(zoneName, acmeDnsDomain)
    ensures var back := AzureStem(identifier, zoneName) + "." + acmeDnsDomain;
            && (EqualFold(back, identifier) <==> HasSuffix(identifier, "." + zoneName))
            && (back == identifier <==> HasSuffix(identifier, "." + zoneName) && zoneName == acmeDnsDomain)
  {
    var t := AzureStem(identifier, zoneName);
    AzureSplit(identifier, zoneName);
    LowerConcat(t + ".", acmeDnsDomain);
    LowerConcat(t + ".", zoneName);
    assert EqualFold(t + "." + acmeDnsDomain, t + "." + zoneName);
    if !HasSuffix(identifier, "." + zoneName) {
      AzureOffBoundary(identifier, zoneName);
      assert |ToLower(t + "." + acmeDnsDomain)| != |ToLower(identifier)|;
    } else {
      SameTail(t + ".", acmeDnsDomain, zoneName);
    }
  }

  /** Off a label boundary the parts do not even add up in length. */
  lemma AzureOffBoundary(identifier: string, zoneName: string)
    requires !HasSuffix(identifier, "." + zoneName)
    ensures |AzureStem(identifier, zoneName)| + 1 + |zoneName| != |identifier|
  {
    if HasSuffix(identifier, zoneName) {
      var p := TrimSuffix(identifier, zoneName);
      if HasSuffix(p, ".") {
        assert identifier == TrimSuffix(p, ".") + "." + zoneName;
        AzureBoundary(TrimSuffix(p, "."), zoneName);
      }
    }
  }

  lemma SamePrefix(a: string, b: string)
    ensures ACME_CHALLENGE + "." + a == ACME_CHALLENGE + "." + b <==> a == b
  {
    var n := |ACME_CHALLENGE| + 1;
    assert (ACME_CHALLENGE + "." + a)[n..] == a && (ACME_CHALLENGE + "." + b)[n..] == b;
  }

  /** Stripping the zone and then a dot takes off exactly "." and the zone if and only if that is how the
      identifier ends. */
  lemma AzureSplit(identifier: string, rootDomain: string)
    ensures AzureStem(identifier, rootDomain) + "." + rootDomain == identifier
            <==> HasSuffix(identifier, "." + rootDomain)
  {
    var t := TrimSuffix(TrimSuffix(identifier, rootDomain), ".");
    if HasSuffix(identifier, "." + rootDomain) {
      var sub := TrimSuffix(identifier, "." + rootDomain);
      AzureBoundary(sub, rootDomain);
      assert identifier == sub + "." + rootDomain;
    } else if t + "." + rootDomain == identifier {
      AzureBoundary(t, rootDomain);
    }
  }

  lemma AzureBoundary(sub: string, rootDomain: string)
    ensures HasSuffix(sub + "." + rootDomain, "." + rootDomain)
    ensures HasSuffix(sub + "." + rootDomain, rootDomain)
    ensures TrimSuffix(sub + "." + rootDomain, rootDomain) == sub + "."
    ensures TrimSuffix(sub + ".", ".") == sub
  {
    var d := sub + "." + rootDomain;
    assert d[|d| - |rootDomain|..] == rootDomain;
    assert d[|sub|..] == "." + rootDomain;
    assert d[..|d| - |rootDomain|] == sub + ".";
  }

  /** The apex case: the published name has an empty label. */
  lemma AzureApexIsMissed()
    ensures AzureFqdn("example.com", "example.com", "example.com") == "_acme-challenge..example.com"
    ensures AzureFqdn("example.com", "example.com", "example.com") != ValidationName("example.com")
  {
    var d := "example.com";
    assert TrimSuffix(d, d) == [];
    assert TrimPrefix(TrimPrefix(TrimSuffix([], "."), "*"), ".") == [];
    assert ValidationName(d)[16] == 'e' && AzureFqdn(d, d, d)[16] == '.';
  }
}
