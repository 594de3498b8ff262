/** The Google Cloud DNS client: atomic changes over a zone that is listed page by page. */
module CloudDns {
  import opened GoStrings
  import opened ChallengeNames

  const RECORD_TTL := 60
  const TXT := "TXT"

  datatype RecordKey = RecordKey(name: string, rtype: string)
  datatype RecordSet = RecordSet(name: string, rtype: string, ttl: int, rrdatas: seq<string>) {
    function Key(): RecordKey {
      RecordKey(name, rtype)
    }
  }
  type Zone = map<RecordKey, RecordSet>
  datatype ManagedZone = ManagedZone(name: string, dnsName: string, isPublic: bool)

  function Flatten(pages: seq<seq<RecordSet>>): seq<RecordSet> {
    if pages == [] then [] else pages[0] + Flatten(pages[1..])
  }

  predicate Distinct(rs: seq<RecordSet>) {
    forall i, j :: 0 <= i < j < |rs| ==> rs[i].Key() != rs[j].Key()
  }

  /** The pages list every record set of the zone once. */
  ghost predicate Lists(pages: seq<seq<RecordSet>>, z: Zone) {
    && pages != []
    && Distinct(Flatten(pages))
    && (forall k :: k in z ==> z[k] in Flatten(pages))
    && (forall r :: r in Flatten(pages) ==> r.Key() in z && z[r.Key()] == r)
  }

  ghost predicate ValidZone(z: Zone) {
    forall k :: k in z ==> z[k].Key() == k
  }

  /** A way of splitting any zone's listing into pages. */
  ghost predicate Paginates(paginate: Zone -> seq<seq<RecordSet>>) {
    forall z :: ValidZone(z) ==> Lists(paginate(z), z)
  }

  function Keys(rs: seq<RecordSet>): set<RecordKey> {
    set r | r in rs :: r.Key()
  }

  /** Whether Cloud DNS accepts a change: deletions name stored sets exactly, and additions do not
      collide with what remains. */
  predicate Accepts(z: Zone, additions: seq<RecordSet>, deletions: seq<RecordSet>) {
    && Distinct(deletions) && Distinct(additions)
    && (forall r :: r in deletions ==> r.Key() in z && z[r.Key()] == r)
    && (forall r :: r in additions ==> r.Key() !in z || r.Key() in Keys(deletions))
  }

  /** The TXT sets cleanup takes for the operator's: their name contains one of its two labels anywhere. */
  predicate OperatorTxt(k: RecordKey) {
    k.rtype == TXT && (Contains(k.name, ACME_CHALLENGE) || Contains(k.name, WRITE_VALIDATION))
  }

  lemma OperatorTxtExactly(k: RecordKey)
    ensures OperatorTxt(k) <==>
              k.rtype == "TXT" && ((exists a, b :: k.name == a + "_acme-challenge" + b)
                                   || (exists a, b :: k.name == a + "_certman_access_test" + b))
  {
    ContainsExactly(k.name, "_acme-challenge");
    ContainsExactly(k.name, "_certman_access_test");
  }

  lemma AllOperatorTxt()
    ensures forall k :: OperatorTxt(k) <==>
              k.rtype == "TXT" && ((exists a, b :: k.name == a + "_acme-challenge" + b)
                                   || (exists a, b :: k.name == a + "_certman_access_test" + b))
  {
    forall k
      ensures OperatorTxt(k) <==>
                k.rtype == "TXT" && ((exists a, b :: k.name == a + "_acme-challenge" + b)
                                     || (exists a, b :: k.name == a + "_certman_access_test" + b))
    {
      OperatorTxtExactly(k);
    }
  }

  function Cleaned(z: Zone): Zone {
    map k | k in z && !OperatorTxt(k) :: z[k]
  }

  function Absolute(name: string): string {
    if HasSuffix(name, ".") then name else name + "."
  }

  function ChallengeRecord(domain: string, token: string): RecordSet {
    RecordSet(Absolute(AnswerName(domain)), TXT, RECORD_TTL, ["\"" + token + "\""])
  }

  function Answered(z: Zone, domain: string, token: string): Zone {
    z[ChallengeRecord(domain, token).Key() := ChallengeRecord(domain, token)]
  }

  function AccessTestRecord(zone: ManagedZone): RecordSet {
    RecordSet(WRITE_VALIDATION + "." + zone.dnsName, TXT, RECORD_TTL, ["txt_entry"])
  }

  predicate Matches(z: ManagedZone, baseDomain: string) {
    EqualFold(Absolute(baseDomain), z.dnsName) && z.isPublic
  }

  /** In the fields of the zone: the DNS name up to case, with or without its last dot in the request, and public. */
  lemma MatchesExactly(z: ManagedZone, baseDomain: string)
    ensures Matches(z, baseDomain) <==>
              && z.isPublic
              && ToLower(z.dnsName) == (if baseDomain != "" && baseDomain[|baseDomain| - 1] == '.' then ToLower(baseDomain)
                                        else ToLower(baseDomain) + ".")
  {
    LowerConcat(baseDomain, ".");
    assert ToLower(".") == ".";
    if baseDomain != "" {
      assert baseDomain[|baseDomain| - 1..] == [baseDomain[|baseDomain| - 1]];
    }
  }

  /** The records the client writes, in full. */
  lemma RecordsExactly(domain: string, token: string, zone: ManagedZone)
    ensures var name := "_acme-challenge." + domain;
            ChallengeRecord(domain, token)
            == RecordSet(if HasSuffix(name, ".") then name else name + ".", "TXT", 60, ["\"" + token + "\""])
    ensures AccessTestRecord(zone) == RecordSet("_certman_access_test." + zone.dnsName, "TXT", 60, ["txt_entry"])
  {
    assert AnswerName(domain) == "_acme-challenge." + domain;
    assert WRITE_VALIDATION + "." + zone.dnsName == "_certman_access_test." + zone.dnsName;
  }

  /** The first public zone whose DNS name is the base domain up to case. */
  function FirstMatch(zones: seq<ManagedZone>, baseDomain: string): (found: Option<ManagedZone>)
    ensures found.Some? ==> found.value in zones && Matches(found.value, baseDomain)
    ensures found.Some? <==> exists z :: z in zones && Matches(z, baseDomain)
  {
    if zones == [] then None
    else if Matches(zones[0], baseDomain) then Some(zones[0])
    else FirstMatch(zones[1..], baseDomain)
  }

  /** A set of this key is absent, or stands on the first page of the listing. */
  predicate CanUpsert(paginate: Zone -> seq<seq<RecordSet>>, z: Zone, key: RecordKey)
    requires paginate(z) != []
  {
    key !in z || z[key] in paginate(z)[0]
  }

  class CloudDnsClient {
    const zones: seq<ManagedZone>
    const paginate: Zone -> seq<seq<RecordSet>>
    const fails: nat -> bool
    var records: map<string, Zone>
    var calls: nat

    ghost predicate Valid()
      reads this`records
    {
      && (forall z :: z in zones ==> z.name in records)
      && (forall n :: n in records ==> ValidZone(records[n]))
      && Paginates(paginate)
    }

    constructor (zones: seq<ManagedZone>, paginate: Zone -> seq<seq<RecordSet>>, fails: nat -> bool, records: map<string, Zone>)
      requires forall z :: z in zones ==> z.name in records
      requires forall n :: n in records ==> ValidZone(records[n])
      requires Paginates(paginate)
      ensures Valid() && this.zones == zones && this.records == records && this.paginate == paginate && this.fails == fails
    {
      this.zones, this.paginate, this.fails, this.records, this.calls := zones, paginate, fails, records, 0;
    }

    ghost predicate Undisturbed(since: nat)
      reads this`calls
    {
      forall c :: since <= c < calls ==> !fails(c)
    }

    method Call() returns (ok: bool)
      modifies this`calls
      ensures calls == old(calls) + 1 && ok == !fails(old(calls))
    {
      ok := !fails(calls);
      calls := calls + 1;
    }

    /** Changes.Create with at most one addition. */
    method ChangesCreate(zone: string, addition: Option<RecordSet>, deletions: seq<RecordSet>) returns (ok: bool)
      requires Valid() && zone in records
      modifies this`records, this`calls
      ensures Valid() && calls == old(calls) + 1
      ensures ok <==> !fails(old(calls)) && Accepts(old(records)[zone], if addition.Some? then [addition.value] else [], deletions)
      ensures records == if !ok then old(records)
                         else var kept := old(records)[zone] - Keys(deletions);
                              old(records)[zone := if addition.Some? then kept[addition.value.Key() := addition.value] else kept]
    {
      hide Accepts, Lists, Paginates;
      ok := Call();
      if ok {
        var z := records[zone];
        ok := Accepts(z, if addition.Some? then [addition.value] else [], deletions);
        if ok {
          var kept := z - Keys(deletions);
          records := records[zone := if addition.Some? then kept[addition.value.Key() := addition.value] else kept];
        }
      }
    }

    /** upsertDnsRecord, which looks for an older set on the first page of the listing only. */
    method UpsertDnsRecord(zone: string, record: RecordSet) returns (ok: bool)
      requires Valid() && zone in records
      modifies this`records, this`calls
      ensures Valid() && old(calls) <= calls
      ensures ok ==> records == old(records)[zone := old(records)[zone][record.Key() := record]]
      ensures !ok ==> records == old(records)
      ensures paginate(old(records)[zone]) != []
      ensures Undisturbed(old(calls)) ==> (ok <==> CanUpsert(paginate, old(records)[zone], record.Key()))
    {
      hide Accepts, Lists;
      var z := records[zone];
      FirstPage(z, paginate(z));
      ok := Call();
      if !ok {
        return;
      }
      hide Distinct, Paginates, ValidZone;
      var deletions := Older(paginate(z)[0], record);
      OlderAccepted(z, record, paginate(z)[0], deletions);
      ok := ChangesCreate(zone, Some(record), deletions);
    }

    /** deleteDnsRecords */
    method DeleteDnsRecords(zone: string, rs: seq<RecordSet>) returns (ok: bool)
      requires Valid() && zone in records
      modifies this`records, this`calls
      ensures Valid() && old(calls) <= calls
      ensures Undisturbed(old(calls)) && Accepts(old(records)[zone], [], rs) ==> ok
      ensures ok ==> records == old(records)[zone := old(records)[zone] - Keys(rs)]
      ensures !ok ==> records == old(records)
    {
      if |rs| == 0 {
        assert records[zone] - Keys(rs) == records[zone];
        return true;
      }
      ok := ChangesCreate(zone, None, rs);
    }

    /** getManagedZone: the first public zone whose DNS name is the base domain up to case. */
    method GetManagedZone(baseDomain: string) returns (found: Option<ManagedZone>)
      modifies this`calls
      ensures old(calls) <= calls
      ensures found.Some? || Undisturbed(old(calls)) ==> found == FirstMatch(zones, baseDomain)
    {
      var ok := Call();
      if !ok {
        return None;
      }
      assert zones[0..] == zones;
      for i := 0 to |zones|
        invariant old(calls) < calls
        invariant FirstMatch(zones, baseDomain) == FirstMatch(zones[i..], baseDomain)
      {
        assert zones[i..][1..] == zones[i + 1..];
        if EqualFold(Absolute(baseDomain), zones[i].dnsName) && zones[i].isPublic {
          ok := Call();
          return if ok then Some(zones[i]) else None;
        }
      }
      return None;
    }

    /** AnswerDNSChallenge; None is a returned error. */
    method AnswerDNSChallenge(token: string, domain: string, acmeDnsDomain: string) returns (fqdn: Option<string>)
      requires Valid()
      modifies this`records, this`calls
      ensures Valid()
      ensures fqdn.Some? ==>
                && fqdn.value == AnswerName(domain)
                && FirstMatch(zones, acmeDnsDomain).Some?
                && var name := FirstMatch(zones, acmeDnsDomain).value.name;
                   records == old(records)[name := Answered(old(records)[name], domain, token)]
      ensures fqdn.None? ==> records == old(records)
      ensures Undisturbed(old(calls)) ==>
                (fqdn.Some? <==> Writable(old(records), acmeDnsDomain, ChallengeRecord(domain, token).Key()))
    {
      hide Matches, ValidZone, Lists, ChallengeRecord, FirstMatch, CanUpsert;
      ZonesStored();
      var name := AnswerName(domain);
      var zone := GetManagedZone(acmeDnsDomain);
      if zone == None {
        return None;
      }
      var ok := UpsertDnsRecord(zone.value.name, ChallengeRecord(domain, token));
      fqdn := if ok then Some(name) else None;
    }

    /** There is a matching zone, and nothing off its first page is in the way of a record with this key. */
    ghost predicate Writable(records: map<string, Zone>, acmeDnsDomain: string, key: RecordKey) {
      var found := FirstMatch(zones, acmeDnsDomain);
      && found.Some? && found.value.name in records
      && paginate(records[found.value.name]) != []
      && CanUpsert(paginate, records[found.value.name], key)
    }

    /** Every listed zone has its records. */
    lemma ZonesStored()
      requires Valid()
      ensures forall base :: FirstMatch(zones, base).Some? ==> FirstMatch(zones, base).value.name in records
    {
    }

    /** ValidateDNSWriteAccess; None is a returned error, which at worst leaves the test record behind. */
    method ValidateDNSWriteAccess(acmeDnsDomain: string) returns (proceed: Option<bool>)
      requires Valid()
      modifies this`records, this`calls
      ensures Valid()
      ensures proceed != Some(false)
      ensures proceed == Some(true) ==>
                && FirstMatch(zones, acmeDnsDomain).Some?
                && var z := FirstMatch(zones, acmeDnsDomain).value;
                   records == old(records)[z.name := old(records)[z.name] - {AccessTestRecord(z).Key()}]
      ensures proceed == None ==>
                || records == old(records)
                || (FirstMatch(zones, acmeDnsDomain).Some? &&
                    var z := FirstMatch(zones, acmeDnsDomain).value;
                    records == old(records)[z.name := old(records)[z.name][AccessTestRecord(z).Key() := AccessTestRecord(z)]])
      ensures Undisturbed(old(calls)) ==>
                (proceed.Some? <==> FirstMatch(zones, acmeDnsDomain).Some?
                                    && Writable(old(records), acmeDnsDomain, AccessTestRecord(FirstMatch(zones, acmeDnsDomain).value).Key()))
    {
      hide Matches, ValidZone, AccessTestRecord, Lists, FirstMatch, CanUpsert, Accepts;
      ZonesStored();
      var zone := GetManagedZone(acmeDnsDomain);
      if zone == None {
        return None;
      }
      var record, name := AccessTestRecord(zone.value), zone.value.name;
      var ok := UpsertDnsRecord(name, record);
      if !ok {
        return None;
      }
      OwnRecordGoes(records[name], record);
      ok := DeleteDnsRecords(name, [record]);
      assert Keys([record]) == {record.Key()};
      assert old(records)[name][record.Key() := record] - {record.Key()} == old(records)[name] - {record.Key()};
      return if ok then Some(true) else None;
    }

    /** DeleteAcmeChallengeResourceRecords over all pages. */
    method DeleteAcmeChallengeResourceRecords(acmeDnsDomain: string) returns (ok: bool)
      requires Valid()
      modifies this`records, this`calls
      ensures Valid()
      ensures ok ==>
                && FirstMatch(zones, acmeDnsDomain).Some?
                && var name := FirstMatch(zones, acmeDnsDomain).value.name;
                   records == old(records)[name := Cleaned(old(records)[name])]
      // of the zone exactly the TXT sets go whose name contains one of the two prefixes somewhere
      ensures ok ==>
                var name := FirstMatch(zones, acmeDnsDomain).value.name;
                forall k :: k in old(records)[name] ==>
                  if k.rtype == "TXT" && ((exists a, b :: k.name == a + "_acme-challenge" + b)
                                          || (exists a, b :: k.name == a + "_certman_access_test" + b))
                  then k !in records[name] else k in records[name] && records[name][k] == old(records)[name][k]
      ensures ok ==> var name := FirstMatch(zones, acmeDnsDomain).value.name; records[name].Keys <= old(records)[name].Keys
      ensures !ok ==> records == old(records)
      ensures Undisturbed(old(calls)) ==> (ok <==> FirstMatch(zones, acmeDnsDomain).Some?)
    {
      hide Matches, ValidZone, Accepts, FirstMatch;
      ZonesStored();
      AllOperatorTxt();
      hide OperatorTxt;
      var zone := GetManagedZone(acmeDnsDomain);
      if zone == None {
        return false;
      }
      var z := records[zone.value.name];
      var changes;
      ok, changes := CollectPages(paginate(z));
      if !ok {
        return;
      }
      SelectedDeletes(z, paginate(z));
      hide Paginates;
      ok := DeleteDnsRecords(zone.value.name, changes);
    }

    /** Walking the pages, one call each. */
    method CollectPages(pages: seq<seq<RecordSet>>) returns (ok: bool, changes: seq<RecordSet>)
      modifies this`calls
      ensures old(calls) <= calls
      ensures Undisturbed(old(calls)) ==> ok
      ensures ok ==> changes == Selected(Flatten(pages))
    {
      changes := [];
      for p := 0 to |pages|
        invariant changes == Selected(Flatten(pages[..p]))
        invariant old(calls) <= calls
      {
        ok := Call();
        if !ok {
          return;
        }
        FlattenAppend(pages[..p], pages[p]);
        assert pages[..p] + [pages[p]] == pages[..p + 1];
        SelectedConcat(Flatten(pages[..p]), pages[p]);
        changes := CollectPage(changes, pages[p]);
      }
      assert pages[..|pages|] == pages;
      ok := true;
    }
  }

  method CollectPage(before: seq<RecordSet>, page: seq<RecordSet>) returns (changes: seq<RecordSet>)
    ensures changes == before + Selected(page)
    ensures forall r :: r in changes <==>
              || r in before
              || (r in page && r.rtype == "TXT" && ((exists a, b :: r.name == a + "_acme-challenge" + b)
                                                    || (exists a, b :: r.name == a + "_certman_access_test" + b)))
  {
    SelectedMembers(page);
    AllOperatorTxt();
    hide Contains;
    changes := before;
    for i := 0 to |page|
      invariant changes == before + Selected(page[..i])
    {
      assert page[..i + 1][..i] == page[..i];
      if page[i].rtype == TXT {
        if Contains(page[i].name, ACME_CHALLENGE) || Contains(page[i].name, WRITE_VALIDATION) {
          changes := changes + [page[i]];
        }
      }
    }
    assert page[..|page|] == page;
  }

  /** The loop of upsertDnsRecord that looks for sets of the same name and type. */
  method Older(page: seq<RecordSet>, record: RecordSet) returns (deletions: seq<RecordSet>)
    requires Distinct(page)
    ensures forall r :: r in deletions <==> r in page && r.Key() == record.Key()
    ensures |deletions| <= 1
  {
    deletions := [];
    for i := 0 to |page|
      invariant forall r :: r in deletions <==> r in page[..i] && r.Key() == record.Key()
      invariant |deletions| <= 1
      invariant deletions != [] ==> exists j :: 0 <= j < i && page[j].Key() == record.Key()
    {
      assert page[..i + 1] == page[..i] + [page[i]];
      if page[i].rtype != record.rtype || page[i].name != record.name {
        continue;
      }
      deletions := deletions + [page[i]];
    }
    assert page[..|page|] == page;
  }

  /** A record that is in the zone as it is can be deleted. */
  lemma OwnRecordGoes(z: Zone, record: RecordSet)
    requires record.Key() in z && z[record.Key()] == record
    ensures Accepts(z, [], [record])
  {
  }

  lemma OlderAccepted(z: Zone, record: RecordSet, page: seq<RecordSet>, deletions: seq<RecordSet>)
    requires ValidZone(z) && forall r :: r in page ==> r.Key() in z && z[r.Key()] == r
    requires |deletions| <= 1 && forall r :: r in deletions <==> r in page && r.Key() == record.Key()
    ensures Accepts(z, [record], deletions) <==> record.Key() !in z || z[record.Key()] in page
    ensures (z - Keys(deletions))[record.Key() := record] == z[record.Key() := record]
  {
    if record.Key() in z && z[record.Key()] in page {
      assert z[record.Key()] in deletions;
    }
    assert Keys(deletions) <= {record.Key()};
  }

  /** The listed sets that cleanup collects, in listing order. */
  function Selected(rs: seq<RecordSet>): seq<RecordSet> {
    if rs == [] then []
    else
      var last := rs[|rs| - 1];
      Selected(rs[..|rs| - 1]) + (if OperatorTxt(last.Key()) then [last] else [])
  }

  lemma {:induction false} SelectedConcat(a: seq<RecordSet>, b: seq<RecordSet>)
    ensures Selected(a + b) == Selected(a) + Selected(b)
  {
    hide OperatorTxt;
    if b == [] {
      assert a + b == a;
    } else {
      SelectedConcat(a, b[..|b| - 1]);
      assert (a + b)[..|a + b| - 1] == a + b[..|b| - 1];
    }
  }

  lemma {:induction false} FlattenAppend(pages: seq<seq<RecordSet>>, page: seq<RecordSet>)
    ensures Flatten(pages + [page]) == Flatten(pages) + page
  {
    if pages == [] {
      assert Flatten([page]) == page + Flatten([]);
    } else {
      FlattenAppend(pages[1..], page);
      assert (pages + [page])[1..] == pages[1..] + [page];
    }
  }

  lemma FirstPage(z: Zone, pages: seq<seq<RecordSet>>)
    requires Lists(pages, z)
    ensures pages != [] && Distinct(pages[0])
    ensures forall r :: r in pages[0] ==> r.Key() in z && z[r.Key()] == r
  {
    var all := Flatten(pages);
    assert forall i :: 0 <= i < |pages[0]| ==> all[i] == pages[0][i];
    forall r | r in pages[0] ensures r in all {}
  }

  lemma {:induction false} SelectedMembers(rs: seq<RecordSet>)
    ensures forall r :: r in Selected(rs) <==> r in rs && OperatorTxt(r.Key())
    ensures Distinct(rs) ==> Distinct(Selected(rs))
  {
    hide OperatorTxt;
    if rs != [] {
      var front, last := rs[..|rs| - 1], rs[|rs| - 1];
      SelectedMembers(front);
      assert rs == front + [last];
      if Distinct(rs) {
        assert Distinct(front);
        forall r | r in Selected(front) ensures r.Key() != last.Key() {
          assert r in front;
        }
      }
    }
  }

  /** Deleting the collected sets is accepted and leaves exactly the other ones, however the zone was paged. */
  lemma SelectedDeletes(z: Zone, pages: seq<seq<RecordSet>>)
    requires ValidZone(z) && Lists(pages, z)
    ensures Accepts(z, [], Selected(Flatten(pages)))
    ensures z - Keys(Selected(Flatten(pages))) == Cleaned(z)
    ensures forall k :: k in Keys(Selected(Flatten(pages))) <==>
              k in z && k.rtype == "TXT" && ((exists a, b :: k.name == a + "_acme-challenge" + b)
                                             || (exists a, b :: k.name == a + "_certman_access_test" + b))
  {
    AllOperatorTxt();
    hide OperatorTxt;
    var all := Flatten(pages);
    SelectedMembers(all);
    forall k | k in z
      ensures k in Keys(Selected(all)) <==> OperatorTxt(k)
    {
      assert z[k] in all;
    }
  }

  // ----- validate, answer, clean up -----

  datatype Reply = Reply(domain: string, token: string)

  function AnsweredAll(z: Zone, replies: seq<Reply>): Zone {
    if replies == [] then z
    else
      var r := replies[|replies| - 1];
      Answered(AnsweredAll(z, replies[..|replies| - 1]), r.domain, r.token)
  }

  lemma ChallengeIsOperatorTxt(domain: string, token: string)
    ensures OperatorTxt(ChallengeRecord(domain, token).Key())
  {
    var name := Absolute(AnswerName(domain));
    var rest := name[|ACME_CHALLENGE|..];
    assert name == [] + ACME_CHALLENGE + rest;
    ContainsMiddle([], ACME_CHALLENGE, rest);
  }

  lemma AccessTestIsOperatorTxt(zone: ManagedZone)
    ensures OperatorTxt(AccessTestRecord(zone).Key())
  {
    var name := WRITE_VALIDATION + "." + zone.dnsName;
    assert name == [] + WRITE_VALIDATION + ("." + zone.dnsName);
    ContainsMiddle([], WRITE_VALIDATION, "." + zone.dnsName);
  }

  /** Whatever was answered, in any order and for any CertificateRequest, validate-answer-cleanup leaves
      the initial zone without its operator TXT sets: challenges of other CertificateRequests go too. */
  lemma {:induction false} ZoneLifecycle(z: Zone, zone: ManagedZone, replies: seq<Reply>)
    ensures Cleaned(AnsweredAll(z - {AccessTestRecord(zone).Key()}, replies)) == Cleaned(z)
  {
    hide OperatorTxt, ChallengeRecord, AccessTestRecord;
    if replies == [] {
      AccessTestIsOperatorTxt(zone);
    } else {
      var r := replies[|replies| - 1];
      ZoneLifecycle(z, zone, replies[..|replies| - 1]);
      ChallengeIsOperatorTxt(r.domain, r.token);
      var before := AnsweredAll(z - {AccessTestRecord(zone).Key()}, replies[..|replies| - 1]);
      var record := ChallengeRecord(r.domain, r.token);
      assert Cleaned(before[record.Key() := record]) == Cleaned(before);
    }
  }
}
