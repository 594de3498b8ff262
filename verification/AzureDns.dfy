/** The Azure DNS client: record sets are named relative to their zone, put without conditions, and
    deleting an absent one succeeds. */
module AzureDns {
  import opened GoStrings
  import opened ChallengeNames

  const RECORD_TTL := 60

  datatype TxtSet = TxtSet(ttl: int, values: seq<string>)
  type Zone = map<string, TxtSet>
  datatype ZoneInfo = ZoneInfo(name: string, isPrivate: bool)

  const ACCESS_TEST := TxtSet(RECORD_TTL, ["\"txt_entry\""])

  function AccessTestName(zoneName: string): string {
    WRITE_VALIDATION + "." + zoneName
  }

  lemma AccessTestExactly(zoneName: string)
    ensures AccessTestName(zoneName) == "_certman_access_test." + zoneName
  {
    assert WRITE_VALIDATION + "." == "_certman_access_test.";
  }

  /** Azure compares names without regard to case. */
  function Slot(name: string): string {
    ToLower(name)
  }

  // ----- what the three operations do to one zone, when every call succeeds -----

  function Answered(z: Zone, zoneName: string, identifier: string, token: string): Zone {
    z[Slot(AzureRecordName(identifier, zoneName)) := TxtSet(RECORD_TTL, [token])]
  }

  function CleanupSlots(dnsNames: seq<string>, acmeDnsDomain: string): set<string> {
    set d | d in dnsNames :: Slot(AzureRecordName(d, acmeDnsDomain))
  }

  /** Outside the given slots of the given zone every record set is as before. */
  ghost predicate SameOutside(was: map<string, Zone>, now: map<string, Zone>, zone: string, slots: set<string>) {
    && now.Keys == was.Keys
    && (forall id :: id in was && id != zone ==> now[id] == was[id])
    && (zone in was ==> now[zone] - slots == was[zone] - slots)
  }

  class AzureDnsClient {
    const zones: map<string, ZoneInfo>
    const fails: nat -> bool
    var records: map<string, Zone>
    var calls: nat

    ghost predicate Valid()
      reads this`records
    {
      && zones.Keys == records.Keys
      && forall id :: id in zones ==> Slot(zones[id].name) == id
    }

    /** No call numbered from `since` on has failed. */
    ghost predicate Undisturbed(since: nat)
      reads this`calls
    {
      forall c :: since <= c < calls ==> !fails(c)
    }

    constructor (zones: map<string, ZoneInfo>, fails: nat -> bool, records: map<string, Zone>)
      requires zones.Keys == records.Keys && forall id :: id in zones ==> Slot(zones[id].name) == id
      ensures Valid() && this.zones == zones && this.records == records && this.fails == fails && calls == 0
    {
      this.zones, this.fails, this.records, this.calls := zones, fails, records, 0;
    }

    method Call() returns (ok: bool)
      modifies this`calls
      ensures calls == old(calls) + 1 && ok == !fails(old(calls))
    {
      ok := !fails(calls);
      calls := calls + 1;
    }

    /** zonesClient.Get; None is an error, also when there is no such zone. */
    method GetZone(name: string) returns (zone: Option<ZoneInfo>)
      requires Valid()
      modifies this`calls
      ensures calls == old(calls) + 1
      ensures zone == if fails(old(calls)) || Slot(name) !in zones then None else Some(zones[Slot(name)])
    {
      var ok := Call();
      zone := if ok && Slot(name) in zones then Some(zones[Slot(name)]) else None;
    }

    method CreateTxtRecord(zone: string, name: string, value: string) returns (ok: bool)
      requires Valid() && Slot(zone) in records
      modifies this`records, this`calls
      ensures Valid() && calls == old(calls) + 1 && ok == !fails(old(calls))
      ensures var id := Slot(zone);
              records == if ok then old(records)[id := old(records)[id][Slot(name) := TxtSet(RECORD_TTL, [value])]] else old(records)
    {
      ok := Call();
      if ok {
        records := records[Slot(zone) := records[Slot(zone)][Slot(name) := TxtSet(RECORD_TTL, [value])]];
      }
    }

    method DeleteRecord(zone: string, name: string) returns (ok: bool)
      requires Valid() && Slot(zone) in records
      modifies this`records, this`calls
      ensures Valid() && calls == old(calls) + 1 && ok == !fails(old(calls))
      ensures var id := Slot(zone);
              records == if ok then old(records)[id := old(records)[id] - {Slot(name)}] else old(records)
    {
      ok := Call();
      if ok {
        records := records[Slot(zone) := records[Slot(zone)] - {Slot(name)}];
      }
    }

    /** AnswerDNSChallenge; None is a returned error. */
    method AnswerDNSChallenge(token: string, domain: string, acmeDnsDomain: string) returns (fqdn: Option<string>)
      requires Valid()
      modifies this`records, this`calls
      ensures Valid() && old(calls) <= calls
      ensures Slot(acmeDnsDomain) in zones && Undisturbed(old(calls)) ==> fqdn.Some?
      ensures fqdn.Some? ==>
                && Slot(acmeDnsDomain) in zones
                && var id := Slot(acmeDnsDomain);
                   && fqdn.value == AzureFqdn(domain, zones[id].name, acmeDnsDomain)
                   && records == old(records)[id := Answered(old(records)[id], zones[id].name, domain, token)]
      ensures fqdn.Some? ==>
                var name := AzureRecordName(domain, zones[Slot(acmeDnsDomain)].name);
                records[Slot(acmeDnsDomain)] == old(records)[Slot(acmeDnsDomain)][ToLower(name) := TxtSet(60, [token])]
      ensures fqdn.None? ==> records == old(records)
    {
      hide AzureRecordName, ToLower;
      var zone := GetZone(acmeDnsDomain);
      if zone.None? {
        return None;
      }
      var name := AzureRecordName(domain, zone.value.name);
      var ok := CreateTxtRecord(zone.value.name, name, token);
      fqdn := if ok then Some(name + "." + acmeDnsDomain) else None;
    }

    /** ValidateDNSWriteAccess; None is a returned error. */
    method ValidateDNSWriteAccess(acmeDnsDomain: string) returns (proceed: Option<bool>)
      requires Valid()
      modifies this`records, this`calls
      ensures Valid() && old(calls) <= calls
      ensures Slot(acmeDnsDomain) in zones && Undisturbed(old(calls)) ==>
                proceed == Some(!zones[Slot(acmeDnsDomain)].isPrivate)
      ensures proceed == Some(true) ==>
                && Slot(acmeDnsDomain) in zones
                && var id := Slot(acmeDnsDomain);
                   records == old(records)[id := old(records)[id] - {Slot(AccessTestName(zones[id].name))}]
      ensures proceed == Some(false) ==> records == old(records)
      ensures Slot(acmeDnsDomain) in zones ==>
                var id := Slot(acmeDnsDomain);
                SameOutside(old(records), records, id, {Slot(AccessTestName(zones[id].name))})
    {
      hide Slot, AccessTestName;
      var zone := GetZone(acmeDnsDomain);
      if zone.None? {
        return None;
      }
      ghost var id, was := Slot(acmeDnsDomain), records;
      var key := AccessTestName(zone.value.name);
      if zone.value.isPrivate {
        return Some(false);
      }
      var ok := CreateTxtRecord(zone.value.name, key, "\"txt_entry\"");
      assert SameOutside(was, records, id, {Slot(key)});
      if !ok {
        return None;
      }
      ok := DeleteRecord(zone.value.name, key);
      assert was[id][Slot(key) := ACCESS_TEST] - {Slot(key)} == was[id] - {Slot(key)};
      proceed := if ok then Some(true) else None;
    }

    /** DeleteAcmeChallengeResourceRecords: stops at the first delete that fails. */
    method DeleteAcmeChallengeResourceRecords(acmeDnsDomain: string, dnsNames: seq<string>) returns (ok: bool)
      requires Valid()
      modifies this`records, this`calls
      ensures Valid() && old(calls) <= calls
      ensures Slot(acmeDnsDomain) in zones && Undisturbed(old(calls)) ==> ok
      ensures ok ==>
                && Slot(acmeDnsDomain) in zones
                && var id := Slot(acmeDnsDomain);
                   records == old(records)[id := old(records)[id] - CleanupSlots(dnsNames, acmeDnsDomain)]
      ensures SameOutside(old(records), records, Slot(acmeDnsDomain), CleanupSlots(dnsNames, acmeDnsDomain))
    {
      hide Slot, AzureRecordName;
      var zone := GetZone(acmeDnsDomain);
      if zone.None? {
        return false;
      }
      ghost var id, was := Slot(acmeDnsDomain), records;
      assert CleanupSlots(dnsNames[..0], acmeDnsDomain) == {} && was[id] - {} == was[id];
      for i := 0 to |dnsNames|
        invariant Valid() && old(calls) < calls
        invariant records == was[id := was[id] - CleanupSlots(dnsNames[..i], acmeDnsDomain)]
      {
        SlotsGrow(dnsNames, i, acmeDnsDomain);
        ghost var slots, slot := CleanupSlots(dnsNames[..i], acmeDnsDomain), Slot(AzureRecordName(dnsNames[i], acmeDnsDomain));
        assert was[id] - slots - {slot} == was[id] - (slots + {slot});
        ok := DeleteRecord(zone.value.name, AzureRecordName(dnsNames[i], acmeDnsDomain));
        if !ok {
          return;
        }
      }
      assert dnsNames[..|dnsNames|] == dnsNames;
      ok := true;
    }
  }

  lemma SlotsGrow(dnsNames: seq<string>, i: nat, acmeDnsDomain: string)
    requires i < |dnsNames|
    ensures CleanupSlots(dnsNames[..i + 1], acmeDnsDomain)
            == CleanupSlots(dnsNames[..i], acmeDnsDomain) + {Slot(AzureRecordName(dnsNames[i], acmeDnsDomain))}
    ensures CleanupSlots(dnsNames[..i], acmeDnsDomain) <= CleanupSlots(dnsNames, acmeDnsDomain)
  {
    assert dnsNames[..i + 1] == dnsNames[..i] + [dnsNames[i]];
  }

  // ----- validate, answer, clean up: what is left in the zone -----

  datatype Reply = Reply(identifier: string, token: string)

  function AnsweredAll(z: Zone, zoneName: string, replies: seq<Reply>): Zone {
    if replies == [] then z
    else
      var last := replies[|replies| - 1];
      Answered(AnsweredAll(z, zoneName, replies[..|replies| - 1]), zoneName, last.identifier, last.token)
  }

  lemma {:induction false} AnsweredAllOutside(z: Zone, zoneName: string, replies: seq<Reply>, slots: set<string>)
    requires forall i :: 0 <= i < |replies| ==> Slot(AzureRecordName(replies[i].identifier, zoneName)) in slots
    ensures AnsweredAll(z, zoneName, replies) - slots == z - slots
  {
    hide Slot, AzureRecordName;
    if replies != [] {
      AnsweredAllOutside(z, zoneName, replies[..|replies| - 1], slots);
    }
  }

  /** For authorizations of the requested names, wildcards included, the three operations together leave
      the initial zone without the access-test record and the challenge records, and nothing else moved, as
      long as the two spellings of the zone agree where it matters for every name. */
  lemma ZoneLifecycle(z: Zone, zoneName: string, acmeDnsDomain: string, dnsNames: seq<string>, replies: seq<Reply>)
    requires Slot(zoneName) == Slot(acmeDnsDomain) && PlainStart(acmeDnsDomain)
    requires forall d :: d in dnsNames ==> WellFormed(d) && AzureMeets(Identifier(d), zoneName, acmeDnsDomain)
    requires forall i :: 0 <= i < |replies| ==> exists d :: d in dnsNames && replies[i].identifier == Identifier(d)
    ensures AnsweredAll(z - {Slot(AccessTestName(zoneName))}, zoneName, replies) - CleanupSlots(dnsNames, acmeDnsDomain)
            == z - {Slot(AccessTestName(zoneName))} - CleanupSlots(dnsNames, acmeDnsDomain)
  {
    forall i | 0 <= i < |replies|
      ensures Slot(AzureRecordName(replies[i].identifier, zoneName)) in CleanupSlots(dnsNames, acmeDnsDomain)
    {
      var d :| d in dnsNames && replies[i].identifier == Identifier(d);
      AzureCleanupMeetsAnswer(d, zoneName, acmeDnsDomain);
      hide Slot, AzureRecordName, Identifier, WellFormed, AzureMeets;
      SlotOf(dnsNames, d, acmeDnsDomain);
    }
    hide Slot, AzureRecordName, Identifier, WellFormed, AzureMeets, AccessTestName;
    AnsweredAllOutside(z - {Slot(AccessTestName(zoneName))}, zoneName, replies, CleanupSlots(dnsNames, acmeDnsDomain));
  }

  /** For one name, cleanup takes back the record that was written exactly under that condition. */
  lemma CleanupRemovesAnswerIff(z: Zone, zoneName: string, acmeDnsDomain: string, dnsName: string, token: string)
    requires Slot(zoneName) == Slot(acmeDnsDomain) && PlainStart(acmeDnsDomain) && WellFormed(dnsName)
    ensures var id := Identifier(dnsName);
            Slot(AzureRecordName(id, zoneName)) !in Answered(z, zoneName, id, token) - CleanupSlots([dnsName], acmeDnsDomain)
            <==> AzureMeets(id, zoneName, acmeDnsDomain)
  {
    hide AzureRecordName, Identifier, WellFormed, PlainStart, AzureMeets, ToLower, CleanupSlots;
    AzureCleanupMeetsAnswer(dnsName, zoneName, acmeDnsDomain);
    OnlySlot(dnsName, acmeDnsDomain);
  }

  lemma OnlySlot(dnsName: string, acmeDnsDomain: string)
    ensures CleanupSlots([dnsName], acmeDnsDomain) == {Slot(AzureRecordName(dnsName, acmeDnsDomain))}
  {
    hide Slot, AzureRecordName;
  }

  lemma SlotOf(dnsNames: seq<string>, d: string, acmeDnsDomain: string)
    requires d in dnsNames
    ensures Slot(AzureRecordName(d, acmeDnsDomain)) in CleanupSlots(dnsNames, acmeDnsDomain)
  {
    hide Slot, AzureRecordName;
  }

  /** An input that misses: the zone is X.io, the CertificateRequest says x.io. */
  lemma SpellingMatters()
    ensures Slot("X.io") == Slot("x.io")
    ensures !AzureMeets(Identifier("a.x.io"), "X.io", "x.io")
  {
    var d := "a.x.io";
    assert Slot("X.io") == "x.io" == Slot("x.io");
    assert d[0] == 'a' && "*."[0] == '*';
    assert Identifier(d) == d;
    assert HasSuffix(d, "x.io") by { assert d[2..] == "x.io"; }
    assert "X.io"[0] == 'X' && "x.io"[0] == 'x';
  }
}
