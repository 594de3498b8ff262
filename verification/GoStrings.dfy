/** The string operations of Go's standard library that the operator relies on,
    and the two slice helpers of controllers/utils. Case folding is ASCII only. */
module GoStrings {

  predicate HasPrefix(s: string, p: string) {
    p <= s
  }

  predicate HasSuffix(s: string, p: string) {
    |p| <= |s| && s[|s| - |p|..] == p
  }

  function TrimPrefix(s: string, p: string): (r: string)
    ensures HasPrefix(s, p) ==> s == p + r
  {
    if HasPrefix(s, p) then s[|p|..] else s
  }

  function TrimSuffix(s: string, p: string): (r: string)
    ensures HasSuffix(s, p) ==> s == r + p
  {
    if HasSuffix(s, p) then s[..|s| - |p|] else s
  }

  /** strings.TrimLeft: drops every leading character of the cut set. */
  function TrimLeft(s: string, cutset: string): string {
    if s != [] && s[0] in cutset then TrimLeft(s[1..], cutset) else s
  }

  function TrimRight(s: string, cutset: string): string {
    if s != [] && s[|s| - 1] in cutset then TrimRight(s[..|s| - 1], cutset) else s
  }

  /** strings.Trim */
  function Trim(s: string, cutset: string): string {
    TrimRight(TrimLeft(s, cutset), cutset)
  }

  function LowerChar(c: char): char {
    if 'A' <= c <= 'Z' then (c as int + 32) as char else c
  }

  function ToLower(s: string): (r: string)
    ensures |r| == |s| && forall i :: 0 <= i < |s| ==> r[i] == LowerChar(s[i])
  {
    seq(|s|, i requires 0 <= i < |s| => LowerChar(s[i]))
  }

  predicate EqualFold(a: string, b: string) {
    ToLower(a) == ToLower(b)
  }

  predicate IsLower(s: string) {
    ToLower(s) == s
  }

  /** strings.Contains */
  predicate Contains(s: string, sub: string) {
    HasPrefix(s, sub) || (s != [] && Contains(s[1..], sub))
  }

  /** Contains finds every occurrence, wherever it stands. */
  lemma {:induction false} ContainsMiddle(before: string, sub: string, after: string)
    ensures Contains(before + sub + after, sub)
  {
    var s := before + sub + after;
    if before == [] {
      assert s == sub + after;
    } else {
      ContainsMiddle(before[1..], sub, after);
      assert s[1..] == before[1..] + sub + after;
    }
  }

  lemma {:induction false} ContainsSplits(s: string, sub: string) returns (before: string, after: string)
    requires Contains(s, sub)
    ensures s == before + sub + after
  {
    if HasPrefix(s, sub) {
      before, after := [], s[|sub|..];
    } else {
      var b, a := ContainsSplits(s[1..], sub);
      before, after := [s[0]] + b, a;
    }
  }

  lemma ContainsExactly(s: string, sub: string)
    ensures Contains(s, sub) <==> exists before, after :: s == before + sub + after
  {
    if Contains(s, sub) {
      var before, after := ContainsSplits(s, sub);
    } else {
      forall before, after
        ensures s != before + sub + after
      {
        ContainsMiddle(before, sub, after);
      }
    }
  }

  function UpToSlash(s: string): (r: string)
    ensures r <= s && '/' !in r
    ensures |r| < |s| ==> s[|r|] == '/'
  {
    if s == [] || s[0] == '/' then [] else [s[0]] + UpToSlash(s[1..])
  }

  datatype Option<+T> = None | Some(value: T)

  /** strings.Split(s, "/")[1]; None where Go panics on the missing element. */
  function SecondField(s: string): Option<string> {
    var first := UpToSlash(s);
    if |first| == |s| then None else Some(UpToSlash(s[|first| + 1..]))
  }

  lemma {:induction false} UpToFirstSlash(a: string, rest: string)
    requires '/' !in a
    ensures UpToSlash(a) == a && UpToSlash(a + "/" + rest) == a
  {
    var s := a + "/" + rest;
    if a == [] {
      assert s[0] == '/';
    } else {
      assert a[0] in a && s[0] == a[0];
      assert s[1..] == a[1..] + "/" + rest;
      UpToFirstSlash(a[1..], rest);
    }
  }

  lemma SecondFieldExactly(first: string, second: string, rest: string)
    requires '/' !in first && '/' !in second
    ensures SecondField(first) == None
    ensures SecondField(first + "/" + second) == Some(second)
    ensures SecondField(first + "/" + second + "/" + rest) == Some(second)
  {
    UpToFirstSlash(first, second);
    UpToFirstSlash(first, second + "/" + rest);
    UpToFirstSlash(second, rest);
    var s, long := first + "/" + second, first + "/" + second + "/" + rest;
    assert s[|first| + 1..] == second;
    assert long == first + "/" + (second + "/" + rest);
    assert long[|first| + 1..] == second + "/" + rest;
  }

  lemma LowerConcat(a: string, b: string)
    ensures ToLower(a + b) == ToLower(a) + ToLower(b)
  {
  }

  lemma {:induction false} TrimLeftStops(s: string, cutset: string)
    ensures TrimLeft(s, cutset) == [] || TrimLeft(s, cutset)[0] !in cutset
  {
    if s != [] && s[0] in cutset {
      TrimLeftStops(s[1..], cutset);
    }
  }

  /** Trimming takes back exactly the quotes that were put around a text with no quote at either end. */
  lemma TrimUnquotes(text: string)
    requires text != [] && text[0] != '"' && text[|text| - 1] != '"'
    ensures Trim("\"" + text + "\"", "\"") == text
  {
    var quoted := "\"" + text + "\"";
    assert quoted[1..] == text + "\"";
    assert quoted[0] == '"' && (text + "\"")[0] == text[0];
    assert TrimLeft(text + "\"", "\"") == text + "\"";
    assert TrimLeft(quoted, "\"") == text + "\"";
    assert (text + "\"")[..|text|] == text;
    assert TrimRight(text, "\"") == text;
  }

  /** A list without one string, the specification of RemoveString. */
  function Without(items: seq<string>, s: string): (r: seq<string>)
    ensures s !in r
    ensures forall x :: x in r <==> x in items && x != s
  {
    if items == [] then []
    else if items[|items| - 1] == s then Without(items[..|items| - 1], s)
    else Without(items[..|items| - 1], s) + [items[|items| - 1]]
  }

  method ContainsString(items: seq<string>, s: string) returns (found: bool)
    ensures found <==> s in items
  {
    for i := 0 to |items|
      invariant s !in items[..i]
    {
      if items[i] == s {
        return true;
      }
    }
    return false;
  }

  method RemoveString(items: seq<string>, s: string) returns (result: seq<string>)
    ensures result == Without(items, s)
  {
    result := [];
    for i := 0 to |items|
      invariant result == Without(items[..i], s)
    {
      assert items[..i + 1][..i] == items[..i];
      if items[i] == s {
        continue;
      }
      result := result + [items[i]];
    }
    assert items[..|items|] == items;
  }
}
