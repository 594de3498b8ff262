/** The Route53 client: hosted zones hold record sets, changes are conditional on exact contents,
    and a challenge is validated, answered and cleaned up through them. */
module Route53 {
  import opened GoStrings
  import opened ChallengeNames

  const RECORD_TTL := 60
  const TXT := "TXT"

  datatype RRKey = RRKey(name: string, rtype: string)
  datatype RRSet = RRSet(ttl: int, values: seq<string>)
  type Zone = map<RRKey, RRSet>
  datatype ZoneInfo = ZoneInfo(id: string, name: string, isPrivate: bool)

  /** The name under which Route53 stores a record set: absolute and in lower case. */
  function Canon(name: string): string {
    ToLower(if HasSuffix(name, ".") then name else name + ".")
  }

  function TxtKey(name: string): RRKey {
    RRKey(Canon(name), TXT)
  }

  /** Route53 refuses a name that ends in an empty label. */
  predicate Storable(name: string) {
    !HasSuffix(Canon(name), "..")
  }

  predicate ValidZone(z: Zone) {
    forall k :: k in z ==> k.name == Canon(k.name) && Storable(k.name)
  }

  function Quoted(token: string): string {
    "\"" + token + "\""
  }

  function BaseDomain(acmeDnsDomain: string): string {
    if HasSuffix(acmeDnsDomain, ".") then acmeDnsDomain else acmeDnsDomain + "."
  }

  /** The zone a base domain selects: same name up to case, and public. */
  predicate Selects(base: string, z: ZoneInfo) {
    EqualFold(base, z.name) && !z.isPrivate
  }

  /** In the fields of the zone: the name up to case, with or without its last dot in the request, and public. */
  lemma SelectsExactly(acmeDnsDomain: string, z: ZoneInfo)
    ensures Selects(BaseDomain(acmeDnsDomain), z) <==>
              && !z.isPrivate
              && ToLower(z.name) == (if acmeDnsDomain != "" && acmeDnsDomain[|acmeDnsDomain| - 1] == '.' then ToLower(acmeDnsDomain)
                                     else ToLower(acmeDnsDomain) + ".")
  {
    LowerConcat(acmeDnsDomain, ".");
    assert ToLower(".") == ".";
    if acmeDnsDomain != "" {
      assert acmeDnsDomain[|acmeDnsDomain| - 1..] == [acmeDnsDomain[|acmeDnsDomain| - 1]];
    }
  }

  function AccessTestName(zoneName: string): string {
    WRITE_VALIDATION + "." + zoneName
  }

  // ----- what the three operations do to the records, when every call succeeds -----

  function Answered(z: Zone, identifier: string, token: string): Zone {
    z[TxtKey(AnswerName(identifier)) := RRSet(RECORD_TTL, [Quoted(token)])]
  }

  function Validated(z: Zone, zoneName: string): Zone {
    z - {TxtKey(AccessTestName(zoneName))}
  }

  /** Route53 cleanup compares the returned name, as stored, with the requested spelling. */
  predicate CleanupSees(z: Zone, dnsName: string) {
    TxtKey(CleanupName(dnsName)) in z && Canon(CleanupName(dnsName)) == CleanupName(dnsName) + "."
  }

  predicate Deletable(s: RRSet) {
    s.ttl == RECORD_TTL && |s.values| == 1
  }

  /** Cleanup of one zone. The flag tells that a refused delete made the client stop for good. */
  function Cleaned(z: Zone, dnsNames: seq<string>): (Zone, bool) {
    if dnsNames == [] then (z, false)
    else
      var key := TxtKey(CleanupName(dnsNames[0]));
      if !CleanupSees(z, dnsNames[0]) || z[key].values == [] then Cleaned(z, dnsNames[1..])
      else if Deletable(z[key]) then Cleaned(z - {key}, dnsNames[1..])
      else (z, true)
  }

  function CleanedZones(records: map<string, Zone>, page: seq<ZoneInfo>, base: string, dnsNames: seq<string>): (map<string, Zone>, bool)
    requires forall z :: z in page ==> z.id in records
  {
    if page == [] then (records, false)
    else if Selects(base, page[0]) then
      var (after, stopped) := Cleaned(records[page[0].id], dnsNames);
      var rs := records[page[0].id := after];
      if stopped then (rs, true) else CleanedZones(rs, page[1..], base, dnsNames)
    else CleanedZones(records, page[1..], base, dnsNames)
  }

  function ValidatedZones(records: map<string, Zone>, zones: seq<ZoneInfo>, base: string): (map<string, Zone>, bool)
    requires forall z :: z in zones ==> z.id in records
  {
    if zones == [] then (records, false)
    else if Selects(base, zones[0]) then
      (records[zones[0].id := Validated(records[zones[0].id], zones[0].name)], true)
    else ValidatedZones(records, zones[1..], base)
  }

  /** The record sets cleanup may touch for the requested names. */
  function CleanupKeys(dnsNames: seq<string>): set<RRKey> {
    set d | d in dnsNames :: TxtKey(CleanupName(d))
  }

  function AccessTestKeys(zones: seq<ZoneInfo>): set<RRKey> {
    set z | z in zones :: TxtKey(AccessTestName(z.name))
  }

  /** Same zones, and outside the given keys every record set is as before. */
  ghost predicate SameOutside(was: map<string, Zone>, now: map<string, Zone>, keys: set<RRKey>) {
    && now.Keys == was.Keys
    && (forall id :: id in was ==> now[id] - keys == was[id] - keys)
  }

  lemma SameOutsideStep(was: map<string, Zone>, now: map<string, Zone>, id: string, keys: set<RRKey>, key: RRKey, s: RRSet)
    requires SameOutside(was, now, keys) && id in now && key in keys
    ensures SameOutside(was, now[id := now[id] - {key}], keys)
    ensures SameOutside(was, now[id := now[id][key := s]], keys)
  {
    assert now[id] - {key} - keys == now[id] - keys;
    assert now[id][key := s] - keys == now[id] - keys;
  }

  lemma NothingOutside(records: map<string, Zone>, keys: set<RRKey>)
    ensures SameOutside(records, records, keys)
  {
  }

  /** The record written for a challenge, in full, and the test record's key. */
  lemma RecordsExactly(z: Zone, identifier: string, token: string, zoneName: string)
    ensures var name := "_acme-challenge." + identifier;
            Answered(z, identifier, token)
            == z[RRKey(ToLower(if HasSuffix(name, ".") then name else name + "."), "TXT") := RRSet(60, ["\"" + token + "\""])]
    ensures var test := "_certman_access_test." + zoneName;
            Validated(z, zoneName) == z - {RRKey(ToLower(if HasSuffix(test, ".") then test else test + "."), "TXT")}
  {
    assert AnswerName(identifier) == "_acme-challenge." + identifier;
    assert AccessTestName(zoneName) == "_certman_access_test." + zoneName;
  }

  datatype Action = Upsert | Delete

  class Route53Client {
    const zones: seq<ZoneInfo>
    const firstPage: nat
    const fails: nat -> bool
    var records: map<string, Zone>
    var calls: nat

    ghost predicate Valid()
      reads this`records
    {
      && firstPage <= |zones|
      && (forall z :: z in zones ==> z.id in records)
      && (forall id :: id in records ==> ValidZone(records[id]))
      && (forall z :: z in zones ==> Storable(AccessTestName(z.name)))
    }

    /** No call numbered from `since` on has failed. */
    ghost predicate Undisturbed(since: nat)
      reads this`calls
    {
      forall c :: since <= c < calls ==> !fails(c)
    }

    constructor (zones: seq<ZoneInfo>, firstPage: nat, fails: nat -> bool, records: map<string, Zone>)
      requires firstPage <= |zones|
      requires forall z :: z in zones ==> z.id in records
      requires forall id :: id in records ==> ValidZone(records[id])
      requires forall z :: z in zones ==> Storable(AccessTestName(z.name))
      ensures Valid() && this.zones == zones && this.records == records && this.firstPage == firstPage && this.fails == fails
    {
      this.zones, this.firstPage, this.fails, this.records, this.calls := zones, firstPage, fails, records, 0;
    }

    method Call() returns (ok: bool)
      modifies this`calls
      ensures calls == old(calls) + 1 && ok == !fails(old(calls))
    {
      ok := !fails(calls);
      calls := calls + 1;
    }

    /** ChangeResourceRecordSets with one TXT change. A delete must name the stored set exactly. */
    method ChangeResourceRecordSets(id: string, action: Action, name: string, s: RRSet) returns (ok: bool)
      requires Valid() && id in records
      modifies this`records, this`calls
      ensures Valid() && calls == old(calls) + 1
      ensures ok <==> !fails(old(calls)) && match action
                      case Upsert => Storable(name)
                      case Delete => TxtKey(name) in old(records)[id] && old(records)[id][TxtKey(name)] == s
      ensures records == if !ok then old(records)
                         else if action.Upsert? then old(records)[id := old(records)[id][TxtKey(name) := s]]
                         else old(records)[id := old(records)[id] - {TxtKey(name)}]
    {
      StoredName(name);
      hide Canon, Storable;
      ok := Call();
      if ok {
        var key := TxtKey(name);
        match action
        case Upsert =>
          if Storable(name) {
            records := records[id := records[id][key := s]];
          } else {
            ok := false;
          }
        case Delete =>
          if key in records[id] && records[id][key] == s {
            records := records[id := records[id] - {key}];
          } else {
            ok := false;
          }
      }
    }

    /** ListResourceRecordSets from a name: the set itself when it exists, else some later one or none. */
    method ListResourceRecordSets(id: string, name: string) returns (ok: bool, first: Option<(RRKey, RRSet)>)
      requires Valid() && id in records
      modifies this`calls
      ensures calls == old(calls) + 1 && ok == !fails(old(calls))
      ensures TxtKey(name) in records[id] ==> first == Some((TxtKey(name), records[id][TxtKey(name)]))
      ensures first.Some? ==> first.value.0 in records[id] && records[id][first.value.0] == first.value.1
    {
      ok := Call();
      var key := TxtKey(name);
      if key in records[id] {
        first := Some((key, records[id][key]));
      } else if records[id] == map[] {
        first := None;
      } else {
        var later :| later in records[id];
        first := Some((later, records[id][later]));
      }
    }

    /** AnswerDNSChallenge; None is a returned error. */
    method AnswerDNSChallenge(token: string, domain: string, zoneId: string) returns (fqdn: Option<string>)
      requires Valid() && zoneId in records
      modifies this`records, this`calls
      ensures Valid() && calls == old(calls) + 1
      ensures fqdn == if fails(old(calls)) || !Storable(AnswerName(domain)) then None else Some(AnswerName(domain))
      ensures records == if fqdn.None? then old(records)
                         else old(records)[zoneId := Answered(old(records)[zoneId], domain, token)]
    {
      hide Canon, Storable, TxtKey, ValidZone;
      var name := AnswerName(domain);
      var ok := ChangeResourceRecordSets(zoneId, Upsert, name, RRSet(RECORD_TTL, [Quoted(token)]));
      fqdn := if ok then Some(name) else None;
    }

    /** The write test inside one zone: put the access-test record, take it away again. */
    method TestWriteAccess(z: ZoneInfo) returns (ok: bool)
      requires Valid() && z in zones
      modifies this`records, this`calls
      ensures Valid() && old(calls) <= calls
      ensures Undisturbed(old(calls)) ==> ok
      ensures ok ==> records == old(records)[z.id := Validated(old(records)[z.id], z.name)]
      ensures SameOutside(old(records), records, AccessTestKeys(zones))
    {
      hide Canon, TxtKey, AccessTestName, ValidZone, Storable;
      var test, name := RRSet(RECORD_TTL, ["\"txt_entry\""]), AccessTestName(z.name);
      var was := records[z.id];
      assert TxtKey(name) in AccessTestKeys(zones);
      SameOutsideStep(records, records, z.id, AccessTestKeys(zones), TxtKey(name), test);
      ok := ChangeResourceRecordSets(z.id, Upsert, name, test);
      if ok {
        SameOutsideStep(old(records), records, z.id, AccessTestKeys(zones), TxtKey(name), test);
        ok := ChangeResourceRecordSets(z.id, Delete, name, test);
        assert was[TxtKey(name) := test] - {TxtKey(name)} == Validated(was, z.name);
      }
    }

    /** ValidateDNSWriteAccess over all hosted zones; None is a returned error. */
    method ValidateDNSWriteAccess(acmeDnsDomain: string) returns (proceed: Option<bool>)
      requires Valid()
      modifies this`records, this`calls
      ensures Valid() && old(calls) <= calls
      ensures Undisturbed(old(calls)) ==> proceed.Some?
      ensures proceed.Some? ==>
                (records, proceed.value) == ValidatedZones(old(records), zones, BaseDomain(acmeDnsDomain))
      ensures SameOutside(old(records), records, AccessTestKeys(zones))
    {
      hide EqualFold, ValidZone, Storable, Validated, AccessTestName, AccessTestKeys;
      var ok := Call();
      if !ok {
        return None;
      }
      var baseDomain := BaseDomain(acmeDnsDomain);
      for i := 0 to |zones|
        invariant Valid() && records == old(records) && old(calls) < calls
        invariant ValidatedZones(records, zones, baseDomain) == ValidatedZones(records, zones[i..], baseDomain)
      {
        assert zones[i..][1..] == zones[i + 1..];
        if EqualFold(baseDomain, zones[i].name) {
          ok := Call();
          if !ok {
            return None;
          }
          if !zones[i].isPrivate {
            ok := TestWriteAccess(zones[i]);
            return if ok then Some(true) else None;
          }
        }
      }
      return Some(false);
    }

    /** DeleteAcmeChallengeResourceRecords, which looks at the first page of hosted zones only. */
    method DeleteAcmeChallengeResourceRecords(acmeDnsDomain: string, dnsNames: seq<string>) returns (ok: bool)
      requires Valid()
      modifies this`records, this`calls
      ensures Valid() && old(calls) <= calls
      ensures Undisturbed(old(calls)) ==>
                ok && records == CleanedZones(old(records), zones[..firstPage], BaseDomain(acmeDnsDomain), dnsNames).0
      ensures SameOutside(old(records), records, CleanupKeys(dnsNames))
    {
      hide EqualFold, ValidZone, Storable, Cleaned, CleanupKeys;
      ok := Call();
      if !ok {
        return;
      }
      var page := zones[..firstPage];
      var baseDomain := BaseDomain(acmeDnsDomain);
      for i := 0 to |page|
        invariant Valid() && old(calls) < calls && SameOutside(old(records), records, CleanupKeys(dnsNames))
        invariant Undisturbed(old(calls)) ==>
            CleanedZones(old(records), page, baseDomain, dnsNames) == CleanedZones(records, page[i..], baseDomain, dnsNames)
      {
        assert page[i] in zones;
        assert page[i..][1..] == page[i + 1..];
        if EqualFold(baseDomain, page[i].name) {
          ok := Call();
          if !ok {
            return false;
          }
          if !page[i].isPrivate {
            var stopped;
            ok, stopped := CleanZone(page[i].id, dnsNames);
            if !ok || stopped {
              return;
            }
          }
        }
      }
      return true;
    }

    /** The loop over the requested names inside one zone. A refused delete ends cleanup without an error. */
    method CleanZone(id: string, dnsNames: seq<string>) returns (ok: bool, stopped: bool)
      requires Valid() && id in records
      modifies this`records, this`calls
      ensures Valid() && old(calls) <= calls && id in records
      ensures stopped ==> ok
      ensures Undisturbed(old(calls)) ==>
                ok && (records[id], stopped) == Cleaned(old(records)[id], dnsNames)
      ensures records == old(records)[id := records[id]]
      ensures SameOutside(old(records), records, CleanupKeys(dnsNames))
    {
      hide ValidZone, Storable, Deletable, TxtKey, CleanupName, CleanupSees, CleanupKeys, Cleaned, SameOutside;
      assert dnsNames[0..] == dnsNames;
      NothingOutside(records, CleanupKeys(dnsNames));
      for n := 0 to |dnsNames|
        invariant Valid() && id in records && old(calls) <= calls
        invariant SameOutside(old(records), records, CleanupKeys(dnsNames))
        invariant records == old(records)[id := records[id]]
        invariant Undisturbed(old(calls)) ==> Cleaned(old(records)[id], dnsNames) == Cleaned(records[id], dnsNames[n..])
      {
        KeyOfName(dnsNames, n);
        CleanedStep(records[id], dnsNames, n);
        SameOutsideStep(old(records), records, id, CleanupKeys(dnsNames), TxtKey(CleanupName(dnsNames[n])), RRSet(0, []));
        ok, stopped := CleanName(id, dnsNames[n]);
        if !ok || stopped {
          return;
        }
      }
      assert dnsNames[|dnsNames|..] == [];
      CleanedNothing(records[id]);
      return true, false;
    }

    /** One requested name: look the record set up, delete its values one by one. */
    method CleanName(id: string, dnsName: string) returns (ok: bool, stopped: bool)
      requires Valid() && id in records
      modifies this`records, this`calls
      ensures Valid() && old(calls) <= calls
      ensures stopped ==> ok
      ensures records == old(records) || records == old(records)[id := old(records)[id] - {TxtKey(CleanupName(dnsName))}]
      ensures Undisturbed(old(calls)) ==>
                ok && (records[id], stopped) == Cleaned(old(records)[id], [dnsName])
    {
      hide Storable, EqualFold, AccessTestName, Canon;
      var domain := TrimPrefix(dnsName, "*");
      if !HasPrefix(domain, ".") {
        domain := "." + domain;
      }
      var fqdn := ACME_CHALLENGE + domain;
      assert fqdn == CleanupName(dnsName);
      var fqdnWithDot := fqdn + ".";
      var first;
      ok, first := ListResourceRecordSets(id, fqdn);
      if !ok {
        return false, false;
      }
      SeenExactly(records[id], dnsName);
      if first.Some? && first.value.0.name == fqdnWithDot && first.value.0.rtype == TXT && |first.value.1.values| > 0 {
        ok, stopped := DeleteValues(id, fqdn, first.value.1);
      } else {
        return true, false;
      }
    }

    /** Every value of the found set is deleted as if it were the whole set, with the operator's TTL. */
    method DeleteValues(id: string, fqdn: string, found: RRSet) returns (ok: bool, stopped: bool)
      requires Valid() && id in records && |found.values| > 0
      requires TxtKey(fqdn) in records[id] && records[id][TxtKey(fqdn)] == found
      modifies this`records, this`calls
      ensures Valid() && old(calls) <= calls && ok
      ensures records == old(records) || records == old(records)[id := old(records)[id] - {TxtKey(fqdn)}]
      ensures Undisturbed(old(calls)) ==>
                if Deletable(found) then !stopped && records == old(records)[id := old(records)[id] - {TxtKey(fqdn)}]
                else stopped && records == old(records)
    {
      hide Canon, TxtKey, ValidZone, Storable;
      var j := 0;
      while j < |found.values|
        invariant j <= |found.values| && j <= 1
        invariant Valid() && id in records && old(calls) <= calls
        invariant j == 0 ==> records == old(records)
        invariant j > 0 ==> Deletable(found) && records == old(records)[id := old(records)[id] - {TxtKey(fqdn)}]
      {
        var done := ChangeResourceRecordSets(id, Delete, fqdn, RRSet(RECORD_TTL, [found.values[j]]));
        if !done {
          return true, true;
        }
        j := j + 1;
      }
      return true, false;
    }
  }

  lemma CleanedNothing(z: Zone)
    ensures Cleaned(z, []) == (z, false)
  {
  }

  /** Cleanup goes name by name and stops where one name makes it stop. */
  lemma CleanedStep(z: Zone, dnsNames: seq<string>, n: nat)
    requires n < |dnsNames|
    ensures var (after, stopped) := Cleaned(z, [dnsNames[n]]);
            Cleaned(z, dnsNames[n..]) == if stopped then (after, true) else Cleaned(after, dnsNames[n + 1..])
  {
    hide CleanupSees, TxtKey, CleanupName, Deletable;
    assert dnsNames[n..][0] == dnsNames[n] && dnsNames[n..][1..] == dnsNames[n + 1..];
    assert [dnsNames[n]][1..] == [];
    CleanedNothing(z);
    CleanedNothing(z - {TxtKey(CleanupName(dnsNames[n]))});
  }

  lemma CanonIdempotent(name: string)
    ensures Canon(Canon(name)) == Canon(name)
  {
    var s := if HasSuffix(name, ".") then name else name + ".";
    assert s[|s| - 1] == '.' by {
      assert s[|s| - 1..] == ".";
    }
    LowerEnds(s);
    LowerTwice(s);
  }

  lemma LowerTwice(s: string)
    ensures ToLower(ToLower(s)) == ToLower(s)
  {
  }

  lemma LowerEnds(s: string)
    requires s != [] && s[|s| - 1] == '.'
    ensures HasSuffix(ToLower(s), ".")
  {
    assert ToLower(s)[|s| - 1] == '.';
    assert ToLower(s)[|s| - 1..] == ".";
  }

  lemma StoredName(name: string)
    ensures Canon(Canon(name)) == Canon(name)
    ensures Storable(Canon(name)) == Storable(name)
  {
    CanonIdempotent(name);
  }

  lemma KeyOfName(dnsNames: seq<string>, n: nat)
    requires n < |dnsNames|
    ensures TxtKey(CleanupName(dnsNames[n])) in CleanupKeys(dnsNames)
  {
    assert dnsNames[n] in dnsNames;
  }

  /** A stored record carries the requested spelling exactly when it is the one cleanup means. */
  lemma SeenExactly(z: Zone, dnsName: string)
    requires ValidZone(z)
    ensures forall k :: k in z && k.name == CleanupName(dnsName) + "." && k.rtype == TXT ==>
              CleanupSees(z, dnsName) && k == TxtKey(CleanupName(dnsName))
  {
    hide CleanupName, Canon, Storable;
    forall k | k in z && k.name == CleanupName(dnsName) + "." && k.rtype == TXT
      ensures Canon(CleanupName(dnsName)) == k.name
    {
      DottedIsCanonical(CleanupName(dnsName));
    }
  }

  lemma DottedIsCanonical(c: string)
    requires Canon(c + ".") == c + "." && Storable(c + ".")
    ensures Canon(c) == c + "."
  {
    hide ToLower;
    var dotted := c + ".";
    assert dotted[|c|..] == ".";
    assert |c| > 0 ==> dotted[|dotted| - 2..] == [c[|c| - 1], '.'];
  }

  // ----- validate, answer, clean up: what is left in the zone -----

  datatype Reply = Reply(identifier: string, token: string)

  function AnsweredAll(z: Zone, replies: seq<Reply>): Zone {
    if replies == [] then z
    else Answered(AnsweredAll(z, replies[..|replies| - 1]), replies[|replies| - 1].identifier, replies[|replies| - 1].token)
  }

  /** Cleanup finds what was written for this name: the name is cleanable, in lower case, not empty
      and not spelled with a trailing dot. */
  predicate RoundTrips(dnsName: string) {
    CleanableName(dnsName) && IsLower(dnsName) && dnsName != "" && !HasSuffix(dnsName, ".")
  }

  /** The replies answer exactly the authorizations of the requested names. */
  ghost predicate AnswersFor(replies: seq<Reply>, dnsNames: seq<string>) {
    && (forall d :: d in dnsNames ==> exists i :: 0 <= i < |replies| && replies[i].identifier == Identifier(d))
    && (forall i :: 0 <= i < |replies| ==> exists d :: d in dnsNames && replies[i].identifier == Identifier(d))
  }

  lemma CleanupNameCanonical(dnsName: string)
    requires CleanableName(dnsName)
    ensures CleanupName(dnsName) == AnswerName(Identifier(dnsName))
    ensures Canon(CleanupName(dnsName)) == CleanupName(dnsName) + "."
            <==> IsLower(dnsName) && dnsName != "" && !HasSuffix(dnsName, ".")
  {
    hide Canon, IsLower;
    CleanupMeetsAnswer(dnsName);
    var base := Identifier(dnsName);
    ConstantsAreLower();
    LastCharacter(ACME_CHALLENGE + ".", base);
    LowerAfter(ACME_CHALLENGE + ".", base);
    CanonKeeps(CleanupName(dnsName));
    if HasPrefix(dnsName, "*.") {
      assert dnsName == "*." + base;
      LastCharacter("*.", base);
      LowerAfter("*.", base);
    }
  }

  lemma ConstantsAreLower()
    ensures IsLower(ACME_CHALLENGE + ".") && IsLower("*.")
  {
  }

  lemma LastCharacter(prefix: string, base: string)
    ensures base != [] ==> (HasSuffix(prefix + base, ".") <==> HasSuffix(base, "."))
    ensures base == [] && HasSuffix(prefix, ".") ==> HasSuffix(prefix + base, ".")
  {
    var s := prefix + base;
    if base != [] {
      assert s[|s| - 1..] == [s[|s| - 1]] && base[|base| - 1..] == [base[|base| - 1]];
    } else {
      assert s == prefix;
    }
  }

  lemma LowerAfter(prefix: string, base: string)
    requires IsLower(prefix)
    ensures IsLower(prefix + base) <==> IsLower(base)
  {
    LowerConcat(prefix, base);
    assert (prefix + base)[|prefix|..] == base;
    assert (ToLower(prefix) + ToLower(base))[|prefix|..] == ToLower(base);
  }

  lemma CanonKeeps(c: string)
    ensures Canon(c) == c + "." <==> IsLower(c) && !HasSuffix(c, ".")
  {
    LowerConcat(c, ".");
    assert ToLower(".") == ".";
    assert (ToLower(c) + ".")[..|c|] == ToLower(c) && (c + ".")[..|c|] == c;
    assert HasSuffix(c, ".") ==> |Canon(c)| != |c + "."|;
  }

  lemma RoundTripKey(dnsName: string)
    requires RoundTrips(dnsName)
    ensures CleanupName(dnsName) == AnswerName(Identifier(dnsName))
    ensures forall z: Zone :: TxtKey(CleanupName(dnsName)) in z ==> CleanupSees(z, dnsName)
  {
    CleanupNameCanonical(dnsName);
  }

  lemma {:induction false} AnsweredAllOutside(z: Zone, replies: seq<Reply>, keys: set<RRKey>)
    requires forall i :: 0 <= i < |replies| ==> TxtKey(AnswerName(replies[i].identifier)) in keys
    ensures AnsweredAll(z, replies) - keys == z - keys
  {
    hide TxtKey, AnswerName;
    if replies != [] {
      AnsweredAllOutside(z, replies[..|replies| - 1], keys);
    }
  }

  lemma {:induction false} AnsweredAllHolds(z: Zone, replies: seq<Reply>, i: nat)
    requires i < |replies|
    ensures var key := TxtKey(AnswerName(replies[i].identifier));
            key in AnsweredAll(z, replies) && Deletable(AnsweredAll(z, replies)[key])
  {
    hide TxtKey, AnswerName;
    if i < |replies| - 1 {
      AnsweredAllHolds(z, replies[..|replies| - 1], i);
    }
  }

  lemma {:induction false} CleanedRemovesAll(z: Zone, dnsNames: seq<string>)
    requires forall d :: d in dnsNames ==> RoundTrips(d)
    requires forall d :: d in dnsNames && TxtKey(CleanupName(d)) in z ==> Deletable(z[TxtKey(CleanupName(d))])
    ensures Cleaned(z, dnsNames) == (z - CleanupKeys(dnsNames), false)
  {
    hide TxtKey, CleanupName, RoundTrips;
    if dnsNames == [] {
      assert z - CleanupKeys(dnsNames) == z;
    } else {
      var key := TxtKey(CleanupName(dnsNames[0]));
      RoundTripKey(dnsNames[0]);
      var rest := dnsNames[1..];
      forall d | d in rest ensures d in dnsNames {}
      assert CleanupKeys(dnsNames) == {key} + CleanupKeys(rest) by {
        assert forall d :: d in dnsNames <==> d == dnsNames[0] || d in rest;
      }
      CleanedRemovesAll(z - {key}, rest);
      assert key !in z ==> z - {key} == z;
      assert z - {key} - CleanupKeys(rest) == z - CleanupKeys(dnsNames);
    }
  }

  /** Inside the answered zone: validate, answer every authorization, clean up. What is left is the
      initial zone without the access-test record and the challenge records; nothing else moved. */
  lemma ZoneLifecycle(z: Zone, zoneName: string, dnsNames: seq<string>, replies: seq<Reply>)
    requires AnswersFor(replies, dnsNames) && forall d :: d in dnsNames ==> RoundTrips(d)
    ensures Cleaned(AnsweredAll(Validated(z, zoneName), replies), dnsNames)
            == (z - {TxtKey(AccessTestName(zoneName))} - CleanupKeys(dnsNames), false)
  {
    hide TxtKey, CleanupName, AnswerName, RoundTrips, Identifier, Deletable, AccessTestName, CleanupKeys;
    var answered, keys := AnsweredAll(Validated(z, zoneName), replies), CleanupKeys(dnsNames);
    forall i | 0 <= i < |replies|
      ensures TxtKey(AnswerName(replies[i].identifier)) in keys
    {
      var d :| d in dnsNames && replies[i].identifier == Identifier(d);
      RoundTripKey(d);
      var n :| 0 <= n < |dnsNames| && dnsNames[n] == d;
      KeyOfName(dnsNames, n);
    }
    AnsweredAllOutside(Validated(z, zoneName), replies, keys);
    forall d | d in dnsNames
      ensures TxtKey(CleanupName(d)) in answered && Deletable(answered[TxtKey(CleanupName(d))])
    {
      var i :| 0 <= i < |replies| && replies[i].identifier == Identifier(d);
      RoundTripKey(d);
      AnsweredAllHolds(Validated(z, zoneName), replies, i);
    }
    CleanedRemovesAll(answered, dnsNames);
  }

  /** For one name, the exact condition under which cleanup takes back the record that was written. */
  lemma CleanupRemovesAnswerIff(z: Zone, dnsName: string, token: string)
    ensures var written := TxtKey(AnswerName(Identifier(dnsName)));
            written !in Cleaned(Answered(z, Identifier(dnsName), token), [dnsName]).0 <==> RoundTrips(dnsName)
  {
    if CleanableName(dnsName) {
      CleanupNameCanonical(dnsName);
    } else {
      OtherRecord(dnsName);
    }
    OneName(Answered(z, Identifier(dnsName), token), dnsName, TxtKey(AnswerName(Identifier(dnsName))));
  }

  /** Cleaning one name removes a deletable record exactly when it is the record cleanup sees. */
  lemma OneName(z: Zone, dnsName: string, key: RRKey)
    requires key in z && Deletable(z[key])
    ensures key !in Cleaned(z, [dnsName]).0 <==> key == TxtKey(CleanupName(dnsName)) && CleanupSees(z, dnsName)
  {
    hide TxtKey, CleanupName, CleanupSees;
    assert [dnsName][1..] == [];
  }

  /** Which of the records cleanup sees it deletes: those with the operator's TTL and a single value; any other
      one with values makes it stop. */
  lemma CleanedExactly(z: Zone, dnsName: string)
    requires RoundTrips(dnsName) && TxtKey(AnswerName(Identifier(dnsName))) in z
    ensures var key := TxtKey(AnswerName(Identifier(dnsName)));
            Cleaned(z, [dnsName]) == if z[key].values == [] then (z, false)
                                     else if z[key].ttl == 60 && |z[key].values| == 1 then (z - {key}, false)
                                     else (z, true)
  {
    RoundTripKey(dnsName);
    hide TxtKey, CleanupName, AnswerName, RoundTrips, CleanupSees;
    assert [dnsName][1..] == [];
  }

  lemma CanonLength(name: string)
    ensures |Canon(name)| == |name| + if HasSuffix(name, ".") then 0 else 1
  {
  }

  lemma OtherRecord(dnsName: string)
    requires !CleanableName(dnsName)
    ensures TxtKey(AnswerName(Identifier(dnsName))) != TxtKey(CleanupName(dnsName))
  {
    var written, looked := AnswerName(Identifier(dnsName)), CleanupName(dnsName);
    OtherLength(dnsName);
    CanonLength(written);
    CanonLength(looked);
    hide Canon, CleanupName, AnswerName, Identifier, HasSuffix, CleanableName;
    assert |Canon(written)| != |Canon(looked)|;
  }

  /** Cleanup looks for a name that is one character short. */
  lemma OtherLength(dnsName: string)
    requires !CleanableName(dnsName)
    ensures var written, looked := AnswerName(Identifier(dnsName)), CleanupName(dnsName);
            |written| == |looked| + 1 && (dnsName != "*" ==> (HasSuffix(written, ".") <==> HasSuffix(looked, ".")))
    ensures dnsName == "*" ==> !HasSuffix(AnswerName("*"), ".") && HasSuffix(CleanupName("*"), ".")
  {
  }

  /** Zone i is the only public zone with the base domain's name. */
  ghost predicate OnlyZone(zones: seq<ZoneInfo>, base: string, i: nat) {
    i < |zones| && forall j :: 0 <= j < |zones| ==> (Selects(base, zones[j]) <==> j == i)
  }

  lemma {:induction false} ValidatedOnly(records: map<string, Zone>, zones: seq<ZoneInfo>, base: string, i: nat)
    requires (forall z :: z in zones ==> z.id in records) && OnlyZone(zones, base, i)
    ensures ValidatedZones(records, zones, base)
            == (records[zones[i].id := Validated(records[zones[i].id], zones[i].name)], true)
  {
    hide Selects, Validated;
    if i > 0 {
      assert OnlyZone(zones[1..], base, i - 1);
      ValidatedOnly(records, zones[1..], base, i - 1);
    }
  }

  lemma {:induction false} CleanedNone(records: map<string, Zone>, page: seq<ZoneInfo>, base: string, dnsNames: seq<string>)
    requires forall z :: z in page ==> z.id in records && !Selects(base, z)
    ensures CleanedZones(records, page, base, dnsNames) == (records, false)
  {
    hide Selects;
    if page != [] {
      CleanedNone(records, page[1..], base, dnsNames);
    }
  }

  lemma {:induction false} CleanedOnly(records: map<string, Zone>, page: seq<ZoneInfo>, base: string, dnsNames: seq<string>, i: nat)
    requires (forall z :: z in page ==> z.id in records) && OnlyZone(page, base, i)
    ensures CleanedZones(records, page, base, dnsNames).0
            == records[page[i].id := Cleaned(records[page[i].id], dnsNames).0]
  {
    hide Selects, Cleaned;
    if i > 0 {
      assert OnlyZone(page[1..], base, i - 1);
      CleanedOnly(records, page[1..], base, dnsNames, i - 1);
    } else {
      var rs := records[page[0].id := Cleaned(records[page[0].id], dnsNames).0];
      forall z | z in page[1..] ensures z.id in rs && !Selects(base, z) {}
      CleanedNone(rs, page[1..], base, dnsNames);
    }
  }

  /** All hosted zones: with one matching public zone, the answered one, the whole sequence leaves the
      initial records minus the operator's own when that zone is listed on the first page, and
      leaves every answered record behind when it is not. */
  lemma RecordsLifecycle(records: map<string, Zone>, zones: seq<ZoneInfo>, firstPage: nat, base: string, i: nat,
                         dnsNames: seq<string>, replies: seq<Reply>)
    requires firstPage <= |zones| && i < |zones| && (forall z :: z in zones ==> z.id in records) && OnlyZone(zones, base, i)
    requires AnswersFor(replies, dnsNames) && forall d :: d in dnsNames ==> RoundTrips(d)
    ensures var id := zones[i].id;
            var validated := Validated(records[id], zones[i].name);
            var answered := records[id := AnsweredAll(validated, replies)];
            && ValidatedZones(records, zones, base) == (records[id := validated], true)
            && CleanedZones(answered, zones[..firstPage], base, dnsNames).0
               == if i < firstPage then
                    records[id := records[id] - {TxtKey(AccessTestName(zones[i].name))} - CleanupKeys(dnsNames)]
                  else answered
  {
    hide *;
    ValidatedOnly(records, zones, base, i);
    var id := zones[i].id;
    var answered := records[id := AnsweredAll(Validated(records[id], zones[i].name), replies)];
    ZoneLifecycle(records[id], zones[i].name, dnsNames, replies);
    PageOutcome(answered, zones, firstPage, base, i, dnsNames);
  }

  /** Cleanup over the first page reaches the one selected zone exactly when it is on that page. */
  lemma PageOutcome(records: map<string, Zone>, zones: seq<ZoneInfo>, firstPage: nat, base: string, i: nat, dnsNames: seq<string>)
    requires firstPage <= |zones| && (forall z :: z in zones ==> z.id in records) && OnlyZone(zones, base, i)
    ensures CleanedZones(records, zones[..firstPage], base, dnsNames).0
            == if i < firstPage then records[zones[i].id := Cleaned(records[zones[i].id], dnsNames).0] else records
  {
    hide Selects, Cleaned, CleanedZones;
    var page := zones[..firstPage];
    if i < firstPage {
      assert OnlyZone(page, base, i);
      CleanedOnly(records, page, base, dnsNames, i);
    } else {
      forall z | z in page ensures z.id in records && !Selects(base, z) {}
      CleanedNone(records, page, base, dnsNames);
    }
  }
}
