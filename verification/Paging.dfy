/** Hosted-zone listing: the paging server of mockroute53.go and the loop of
    listAllHostedZones that walks its pages. */
module Paging {
  import opened GoStrings

  datatype HostedZone = HostedZone(callerReference: string, id: string, name: string)

  datatype Page = Page(zones: seq<HostedZone>, isTruncated: Option<bool>, nextMarker: Option<string>)

  const DEFAULT_MAX_ITEMS := 100

  function Digit(d: nat): char
    requires d < 10
  {
    ('0' as int + d) as char
  }

  predicate IsDigit(c: char) {
    '0' <= c <= '9'
  }

  function Digits(n: nat): (s: string)
    ensures s != [] && forall c :: c in s ==> IsDigit(c)
  {
    if n < 10 then [Digit(n)] else Digits(n / 10) + [Digit(n % 10)]
  }

  /** strconv.Itoa */
  function Itoa(n: int): string {
    if n < 0 then "-" + Digits(-n) else Digits(n)
  }

  predicate Signed(s: string) {
    s != [] && (s[0] == '-' || s[0] == '+')
  }

  /** strconv.Atoi with its error dropped, as the server does: an optional sign and digits, else zero. */
  function Atoi(s: string): int {
    var digits := if Signed(s) then s[1..] else s;
    if digits == [] || exists c :: c in digits && !IsDigit(c) then 0
    else
      var value: int := Value(digits);
      if s[0] == '-' then -value else value
  }

  function Value(s: string): nat
    requires forall c :: c in s ==> IsDigit(c)
  {
    if s == [] then 0
    else
      assert IsDigit(s[|s| - 1]) by { assert s[|s| - 1] in s; }
      10 * Value(s[..|s| - 1]) + (s[|s| - 1] as int - '0' as int)
  }

  lemma {:induction false} DigitsRoundTrip(n: nat)
    ensures Value(Digits(n)) == n
  {
    var s := Digits(n);
    if n < 10 {
      assert s[..0] == [];
    } else {
      DigitsRoundTrip(n / 10);
      assert s[..|s| - 1] == Digits(n / 10);
    }
  }

  lemma ItoaRoundTrip(n: int)
    ensures Atoi(Itoa(n)) == n
  {
    var digits := Digits(if n < 0 then -n else n);
    DigitsRoundTrip(if n < 0 then -n else n);
    assert IsDigit(digits[0]) by { assert digits[0] in digits; }
    if n < 0 {
      assert Itoa(n)[1..] == digits;
    }
  }

  function Marker(i: int): string {
    "id" + Itoa(i)
  }

  function StartIndex(marker: Option<string>): int {
    match marker
    case None => 0
    case Some(m) => Atoi(TrimLeft(m, "id"))
  }

  /** A marker handed out for zone i leads back to zone i. */
  lemma MarkerRoundTrip(i: int)
    ensures StartIndex(Some(Marker(i))) == i
  {
    var number := Itoa(i);
    ItoaRoundTrip(i);
    assert Marker(i)[1..] == "d" + number && ("d" + number)[1..] == number;
    assert number[0] == '-' || IsDigit(number[0]) by {
      assert i >= 0 ==> number[0] in number;
    }
    assert TrimLeft(number, "id") == number;
    assert TrimLeft("d" + number, "id") == number;
    assert TrimLeft(Marker(i), "id") == number;
  }

  function Zone(i: int): HostedZone {
    HostedZone("zone" + Itoa(i), Marker(i), "name" + Itoa(i) + ".")
  }

  /** The zones from index lo up to, not including, hi; the reference for both loops. */
  function Zones(lo: int, hi: int): (zs: seq<HostedZone>)
    ensures |zs| == if lo <= hi then hi - lo else 0
    ensures forall i :: 0 <= i < |zs| ==> zs[i] == Zone(lo + i)
  {
    if lo >= hi then [] else seq(hi - lo, i requires 0 <= i => Zone(lo + i))
  }

  lemma {:induction false} ZonesSplit(lo: int, mid: int, hi: int)
    requires lo <= mid <= hi
    ensures Zones(lo, hi) == Zones(lo, mid) + Zones(mid, hi)
  {
  }

  lemma ItoaInjective(i: int, j: int)
    requires Itoa(i) == Itoa(j)
    ensures i == j
  {
    ItoaRoundTrip(i);
    ItoaRoundTrip(j);
  }

  /** No zone is listed twice. */
  lemma ZonesDistinct(lo: int, hi: int, i: nat, j: nat)
    requires i < j < |Zones(lo, hi)|
    ensures Zones(lo, hi)[i].id != Zones(lo, hi)[j].id
  {
    if Marker(lo + i) == Marker(lo + j) {
      assert Marker(lo + i)[2..] == Itoa(lo + i) && Marker(lo + j)[2..] == Itoa(lo + j);
      ItoaInjective(lo + i, lo + j);
    }
  }

  function EndIndex(start: int, maxItems: int, zoneCount: nat): int {
    if start + maxItems < zoneCount then start + maxItems else zoneCount
  }

  lemma ZonesExactly()
    ensures forall i :: Zone(i) == HostedZone("zone" + Itoa(i), "id" + Itoa(i), "name" + Itoa(i) + ".")
  {
  }

  method ListHostedZones(marker: Option<string>, maxItems: Option<string>, zoneCount: nat) returns (page: Page)
    ensures var start := StartIndex(marker);
            var end := EndIndex(start, PageSize(maxItems), zoneCount);
            && page.isTruncated == Some(end < zoneCount)
            && (start <= end ==> page.zones == Zones(start, end))
            && (start > end ==> page.zones == [])
            && (start < end < zoneCount ==> page.nextMarker == Some(Marker(end)))
            && (end <= start && end < zoneCount ==> page.nextMarker == Some(""))
            && (end == zoneCount ==> page.nextMarker == None)
    // the mock's zones, field by field
    ensures forall i :: 0 <= i < |page.zones| ==>
              var number := Itoa(StartIndex(marker) + i);
              page.zones[i] == HostedZone("zone" + number, "id" + number, "name" + number + ".")
  {
    ZonesExactly();
    hide StartIndex, PageSize, Marker, Zone, Itoa;
    var start := StartIndex(marker);
    var end := EndIndex(start, PageSize(maxItems), zoneCount);
    var zones, nextMarker := [], "";
    var i := start;
    while i < end
      invariant start <= i && (i <= end || i == start)
      invariant zones == Zones(start, i)
      invariant nextMarker == if i > start then Marker(i) else ""
    {
      ZonesSplit(start, i, i + 1);
      zones := zones + [Zone(i)];
      nextMarker := Marker(i + 1);
      i := i + 1;
    }
    var truncated := end < zoneCount;
    page := Page(zones, Some(truncated), if truncated then Some(nextMarker) else None);
  }

  function PageSize(maxItems: Option<string>): int {
    match maxItems
    case None => DEFAULT_MAX_ITEMS
    case Some(m) => Atoi(m)
  }

  /** A request without a page size is served a hundred zones, one that names its page size that many. */
  lemma PageSizeExactly(n: int)
    ensures PageSize(None) == 100 && PageSize(Some(Itoa(n))) == n
  {
    ItoaRoundTrip(n);
  }

  class ListHostedZonesInput {
    var marker: Option<string>
    var maxItems: Option<string>

    constructor ()
      ensures marker == None && maxItems == None
    {
      marker, maxItems := None, None;
    }
  }

  /** listAllHostedZones. Call number c to the server fails when fails(c); otherwise every
      zone from the input's marker on comes back exactly once, in order. */
  method ListAllHostedZones(zoneCount: nat, fails: nat -> bool, input: ListHostedZonesInput)
    returns (zones: seq<HostedZone>, calls: nat, ok: bool)
    requires PageSize(input.maxItems) > 0
    modifies input`marker
    ensures ok ==> zones == Zones(old(StartIndex(input.marker)), zoneCount)
    ensures ok <==> forall c :: 0 <= c < calls ==> !fails(c)
    ensures !ok ==> zones == []
    ensures calls <= 1 + (if old(StartIndex(input.marker)) < zoneCount then zoneCount - old(StartIndex(input.marker)) else 0)
  {
    hide StartIndex, Marker, PageSize, Zones;
    ghost var first := StartIndex(input.marker);
    zones, calls := [], 0;
    assert Zones(first, first) == [];
    var more := true;
    while more
      invariant more ==> var at := StartIndex(input.marker);
                         first <= at && zones == Zones(first, at) && calls <= at - first && (at < zoneCount || at == first)
      invariant !more ==> zones == Zones(first, zoneCount)
      invariant calls <= 1 + (if first < zoneCount then zoneCount - first else 0)
      invariant forall c :: 0 <= c < calls ==> !fails(c)
      decreases more, zoneCount - StartIndex(input.marker)
    {
      calls := calls + 1;
      if fails(calls - 1) {
        return [], calls, false;
      }
      ghost var at := StartIndex(input.marker);
      var page := ListHostedZones(input.marker, input.maxItems, zoneCount);
      ghost var end := EndIndex(at, PageSize(input.maxItems), zoneCount);
      if page.isTruncated == None {
        more := false;
      } else {
        more := page.isTruncated.value;
        input.marker := page.nextMarker;
      }
      if at <= end {
        ZonesSplit(first, at, end);
        MarkerRoundTrip(end);
      }
      zones := zones + page.zones;
    }
    ok := true;
  }

  /** Why a positive page size is needed: with another one, a server that has zones left answers every
      marker it handed out itself with an empty page that claims to be truncated. */
  method NoProgressWithoutPageSize(zoneCount: nat, maxItems: Option<string>) returns (page: Page, again: Page)
    requires zoneCount > 0 && PageSize(maxItems) <= 0
    ensures page.zones == [] && page.isTruncated == Some(true)
    ensures again == page
  {
    page := ListHostedZones(None, maxItems, zoneCount);
    assert TrimLeft("", "id") == "";
    again := ListHostedZones(page.nextMarker, maxItems, zoneCount);
  }
}
