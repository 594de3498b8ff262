/** Answering a challenge and checking it in public DNS, taken together: the name and the value the cloud
    client writes are what the propagation check accepts. */
module AnswerThenVerify {
  import opened GoStrings
  import opened ChallengeNames
  import opened Propagation
  import Route53
  import CloudDns
  import AzureDns

  /** What a public resolver says once it sees this record set. */
  function Serve(name: string, values: seq<string>): Response {
    Response(0, seq(|values|, i requires 0 <= i < |values| => Answer(name, 60, values[i])), [])
  }

  function Seen(name: string, values: seq<string>): Attempt {
    Attempt(Some(Serve(name, values)), None)
  }

  /** No quotation mark at either end, as in every base64url key authorization. */
  predicate Unquoted(token: string) {
    token == [] || (token[0] != '"' && token[|token| - 1] != '"')
  }

  lemma {:induction false} TrimRightStops(s: string, cutset: string)
    ensures TrimRight(s, cutset) <= s
    ensures var r := TrimRight(s, cutset); r == [] || r[|r| - 1] !in cutset
  {
    if s != [] && s[|s| - 1] in cutset {
      TrimRightStops(s[..|s| - 1], cutset);
    }
  }

  lemma QuotesComeOff(token: string)
    ensures Trim("\"" + token + "\"", "\"") == token <==> Unquoted(token)
  {
    var quoted := "\"" + token + "\"";
    if token == [] {
      assert quoted[1..] == "\"" && quoted[1..][1..] == [];
      assert TrimLeft(quoted[1..], "\"") == [];
    } else if Unquoted(token) {
      TrimUnquotes(token);
    } else {
      TrimLeftStops(quoted, "\"");
      TrimRightStops(TrimLeft(quoted, "\""), "\"");
    }
  }

  /** The published name, made absolute and perhaps lower-cased, compares equal to the FQDN exactly if the
      FQDN did not already end in a dot. */
  lemma NameComparesIff(fqdn: string)
    ensures EqualFold(TrimSuffix(Route53.Canon(fqdn), "."), fqdn) <==> !HasSuffix(fqdn, ".")
    ensures EqualFold(TrimSuffix(CloudDns.Absolute(fqdn), "."), fqdn) <==> !HasSuffix(fqdn, ".")
  {
    if HasSuffix(fqdn, ".") {
      var c := ToLower(fqdn);
      assert c[|c| - 1..] == ".";
      assert |TrimSuffix(c, ".")| == |fqdn| - 1;
    } else {
      LowerConcat(fqdn, ".");
      var c := ToLower(fqdn) + ToLower(".");
      assert ToLower(".") == ".";
      assert c[..|c| - 1] == ToLower(fqdn) && c[|c| - 1..] == ".";
      assert ToLower(ToLower(fqdn)) == ToLower(fqdn);
      var a := fqdn + ".";
      assert a[..|a| - 1] == fqdn && a[|a| - 1..] == ".";
    }
  }

  lemma DotAtTheEnd(identifier: string)
    ensures HasSuffix(AnswerName(identifier), ".") <==> identifier == "" || HasSuffix(identifier, ".")
  {
    var name := AnswerName(identifier);
    assert name == ACME_CHALLENGE + "." + identifier;
    if identifier != "" {
      assert name[|name| - 1..] == identifier[|identifier| - 1..];
    } else {
      assert name[|name| - 1..] == ".";
    }
  }

  /** Checkable before answering: an identifier that is not absolute, and a token without outer quotes. */
  predicate Answerable(identifier: string, token: string) {
    identifier != "" && !HasSuffix(identifier, ".") && Unquoted(token)
  }

  /** The Route53 answer, once visible, passes the check exactly for answerable challenges. */
  lemma Route53AnswerIsConfirmed(z: Route53.Zone, identifier: string, token: string)
    ensures var key := Route53.TxtKey(AnswerName(identifier));
            var after := Route53.Answered(z, identifier, token);
            Confirms(Seen(key.name, after[key].values), AnswerName(identifier), token) <==> Answerable(identifier, token)
  {
    NameComparesIff(AnswerName(identifier));
    DotAtTheEnd(identifier);
    QuotesComeOff(token);
  }

  /** So does the Cloud DNS answer. */
  lemma CloudDnsAnswerIsConfirmed(z: CloudDns.Zone, identifier: string, token: string)
    ensures var key := CloudDns.ChallengeRecord(identifier, token).Key();
            var after := CloudDns.Answered(z, identifier, token);
            Confirms(Seen(key.name, after[key].rrdatas), AnswerName(identifier), token) <==> Answerable(identifier, token)
  {
    NameComparesIff(AnswerName(identifier));
    DotAtTheEnd(identifier);
    QuotesComeOff(token);
  }

  /** The absolute name public DNS gives a record set of an Azure zone. */
  function AzurePublicName(slot: string, zoneName: string): string {
    CloudDns.Absolute(slot + "." + zoneName)
  }

  /** The Azure answer, stored as it is and shown by public DNS in quotes, passes the check under the FQDN the
      client returns exactly if the zone is not spelled with a trailing dot and the token has no outer quotes. */
  lemma AzureAnswerIsConfirmed(z: AzureDns.Zone, zoneName: string, acmeDnsDomain: string, identifier: string, token: string)
    requires EqualFold(zoneName, acmeDnsDomain)
    ensures var slot := AzureDns.Slot(AzureRecordName(identifier, zoneName));
            var after := AzureDns.Answered(z, zoneName, identifier, token);
            && after[slot].values == [token]
            && (Confirms(Seen(AzurePublicName(slot, zoneName), ["\"" + after[slot].values[0] + "\""]),
                         AzureFqdn(identifier, zoneName, acmeDnsDomain), token)
                <==> acmeDnsDomain != "" && !HasSuffix(acmeDnsDomain, ".") && Unquoted(token))
  {
    var name := AzureRecordName(identifier, zoneName);
    hide AzureRecordName;
    var slot, fqdn := AzureDns.Slot(name), name + "." + acmeDnsDomain;
    QuotesComeOff(token);
    PublicNameFolds(name, zoneName, acmeDnsDomain);
    NameComparesIff(slot + "." + zoneName);
    DotAtTheEndOf(slot + ".", zoneName);
    SameEnd(zoneName, acmeDnsDomain);
    hide Trim, Unquoted, HasSuffix, TrimSuffix;
  }

  lemma PublicNameFolds(name: string, zoneName: string, acmeDnsDomain: string)
    requires EqualFold(zoneName, acmeDnsDomain)
    ensures EqualFold(ToLower(name) + "." + zoneName, name + "." + acmeDnsDomain)
  {
    LowerConcat(ToLower(name) + ".", zoneName);
    LowerConcat(ToLower(name), ".");
    LowerConcat(name + ".", acmeDnsDomain);
    LowerConcat(name, ".");
    assert ToLower(ToLower(name)) == ToLower(name);
  }

  lemma DotAtTheEndOf(front: string, s: string)
    requires HasSuffix(front, ".")
    ensures HasSuffix(front + s, ".") <==> s == "" || HasSuffix(s, ".")
  {
    if s == "" {
      assert front + s == front;
    } else {
      assert (front + s)[|front + s| - 1..] == s[|s| - 1..];
    }
  }

  lemma SameEnd(a: string, b: string)
    requires EqualFold(a, b)
    ensures (a == "" <==> b == "") && (HasSuffix(a, ".") <==> HasSuffix(b, "."))
  {
    assert |a| == |ToLower(a)| == |b|;
    if a != "" {
      assert ToLower(a)[|a| - 1] == ToLower(b)[|a| - 1];
      assert a[|a| - 1..] == [a[|a| - 1]] && b[|b| - 1..] == [b[|b| - 1]];
    }
  }

  /** An answerable challenge written to Route53 is verified if the record becomes visible at one of the
      first nine attempts and no earlier reply made the check give up. */
  lemma Route53AnswerPropagates(z: Route53.Zone, identifier: string, token: string, dns: nat -> Attempt, i: nat)
    requires Answerable(identifier, token)
    requires var key := Route53.TxtKey(AnswerName(identifier));
             1 <= i <= 9 && dns(i) == Seen(key.name, Route53.Answered(z, identifier, token)[key].values)
    requires forall j :: 1 <= j < i ==> !GivesUp(dns(j))
    ensures Propagates(dns, AnswerName(identifier), token)
  {
    Route53AnswerIsConfirmed(z, identifier, token);
    assert ConfirmedAt(dns, AnswerName(identifier), token, i);
  }
}
