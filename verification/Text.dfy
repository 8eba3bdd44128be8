/** Go's `strings` helpers that the modelled code calls, on strings with one char per byte. */
module Text {

  predicate HasPrefix(s: string, p: string) {
    |p| <= |s| && s[..|p|] == p
  }

  predicate HasSuffix(s: string, p: string) {
    |p| <= |s| && s[|s| - |p|..] == p
  }

  predicate OccursAt(s: string, sub: string, i: int) {
    0 <= i && i + |sub| <= |s| && s[i..i + |sub|] == sub
  }

  /** strings.TrimPrefix. */
  function TrimPrefix(s: string, p: string): string {
    if HasPrefix(s, p) then s[|p|..] else s
  }

  /** strings.TrimSuffix. */
  function TrimSuffix(s: string, p: string): string {
    if HasSuffix(s, p) then s[..|s| - |p|] else s
  }

  function IndexFrom(s: string, sub: string, from: nat): (r: int)
    ensures r == -1 ==> forall i :: from <= i ==> !OccursAt(s, sub, i)
    ensures r != -1 ==> from <= r && OccursAt(s, sub, r) && forall i :: from <= i < r ==> !OccursAt(s, sub, i)
    decreases |s| - from
  {
    if from + |sub| > |s| then -1
    else if OccursAt(s, sub, from) then from
    else IndexFrom(s, sub, from + 1)
  }

  /** strings.Index: the leftmost occurrence, or -1. */
  function Index(s: string, sub: string): (r: int)
    ensures r == -1 ==> forall i :: !OccursAt(s, sub, i)
    ensures r != -1 ==> OccursAt(s, sub, r) && forall i :: 0 <= i < r ==> !OccursAt(s, sub, i)
  {
    IndexFrom(s, sub, 0)
  }

  /** strings.Contains. */
  predicate Contains(s: string, sub: string)
    ensures Contains(s, sub) <==> exists i :: OccursAt(s, sub, i)
  {
    Index(s, sub) != -1
  }

  /** strings.Split for a one-character separator. */
  function Split(s: string, c: char): (parts: seq<string>)
    ensures parts != [] && forall i :: 0 <= i < |parts| ==> c !in parts[i]
    ensures |parts| == 1 <==> c !in s
  {
    if s == "" then [""] else Glue(s[0], Split(s[1..], c), c)
  }

  /** The parts of x + s, given the parts of s. */
  function Glue(x: char, rest: seq<string>, c: char): (parts: seq<string>)
    requires rest != []
  {
    if x == c then [""] + rest else [[x] + rest[0]] + rest[1..]
  }

  /** strings.Join for a one-character separator. */
  function Join(parts: seq<string>, c: char): string
  {
    if parts == [] then ""
    else if |parts| == 1 then parts[0]
    else parts[0] + [c] + Join(parts[1..], c)
  }

  lemma SplitOne(s: string, c: char)
    requires c !in s
    ensures Split(s, c) == [s]
  {
    if s != "" {
      SplitOne(s[1..], c);
      assert [s[0]] + s[1..] == s;
    }
  }

  lemma GlueAppend(x: char, ra: seq<string>, rb: seq<string>, c: char)
    requires ra != []
    ensures Glue(x, ra + rb, c) == Glue(x, ra, c) + rb
  {
    assert (ra + rb)[0] == ra[0] && (ra + rb)[1..] == ra[1..] + rb;
    assert [""] + (ra + rb) == ([""] + ra) + rb;
  }

  lemma {:induction false} SplitAppend(a: string, b: string, c: char)
    ensures Split(a + [c] + b, c) == Split(a, c) + Split(b, c)
  {
    var t := a + [c] + b;
    if a == "" {
      assert t[1..] == b && t[0] == c;
      assert Split(a, c) == [""];
    } else {
      assert t[0] == a[0] && t[1..] == a[1..] + [c] + b;
      SplitAppend(a[1..], b, c);
      GlueAppend(a[0], Split(a[1..], c), Split(b, c), c);
    }
  }

  lemma {:induction false} SplitSnoc(s: string, x: char, c: char)
    requires x != c
    ensures var parts := Split(s, c);
            Split(s + [x], c) == parts[..|parts| - 1] + [parts[|parts| - 1] + [x]]
  {
    if s == "" {
      assert (s + [x])[1..] == "" && "" + [x] == [x] + "";
    } else {
      assert (s + [x])[0] == s[0] && (s + [x])[1..] == s[1..] + [x];
      SplitSnoc(s[1..], x, c);
      GlueSnoc(s[0], Split(s[1..], c), x, c);
    }
  }

  lemma GlueSnoc(y: char, rest: seq<string>, x: char, c: char)
    requires rest != []
    ensures var parts := Glue(y, rest, c);
            Glue(y, rest[..|rest| - 1] + [rest[|rest| - 1] + [x]], c) == parts[..|parts| - 1] + [parts[|parts| - 1] + [x]]
  {
    if |rest| == 1 {
      assert [y] + (rest[0] + [x]) == [y] + rest[0] + [x];
    }
  }

  lemma {:induction false} JoinSplit(s: string, c: char)
    ensures Join(Split(s, c), c) == s
  {
    if s != "" {
      JoinSplit(s[1..], c);
      var rest := Split(s[1..], c);
      if s[0] == c {
        assert ([""] + rest)[1..] == rest;
      } else {
        var parts := [[s[0]] + rest[0]] + rest[1..];
        assert parts[1..] == rest[1..];
      }
    }
  }

  lemma {:induction false} SplitJoin(parts: seq<string>, c: char)
    requires parts != [] && forall i :: 0 <= i < |parts| ==> c !in parts[i]
    ensures Split(Join(parts, c), c) == parts
  {
    SplitOne(parts[0], c);
    if |parts| > 1 {
      SplitJoin(parts[1..], c);
      SplitAppend(parts[0], Join(parts[1..], c), c);
      assert parts == [parts[0]] + parts[1..];
    }
  }

  /** Every character of a string other than the separator is in one of its parts. */
  lemma {:induction false} SplitKeeps(s: string, c: char, x: char)
    requires x in s && x != c
    ensures exists i :: 0 <= i < |Split(s, c)| && x in Split(s, c)[i]
  {
    var rest := Split(s[1..], c);
    if s[0] == x {
      assert x in Split(s, c)[0];
    } else {
      SplitKeeps(s[1..], c, x);
      var i :| 0 <= i < |rest| && x in rest[i];
      assert x in Split(s, c)[if s[0] == c then i + 1 else i];
    }
  }
}
