/** Exactly when the matcher of module Glob agrees with the documented glob meaning. */
module GlobFaithful {
  import opened Text
  import opened Glob

  /******* Glob matching in terms of the pieces between stars *******/

  /** The name is the first piece, then anything, then the next piece, and so on to its end. */
  ghost predicate GlobParts(name: string, parts: seq<string>)
    requires parts != []
    decreases |parts|, 0
  {
    if |parts| == 1 then name == parts[0]
    else HasPrefix(name, parts[0]) && GlobSome(name[|parts[0]|..], parts[1..])
  }

  ghost predicate GlobSome(name: string, parts: seq<string>)
    requires parts != []
    decreases |parts|, 1
  {
    exists k :: 0 <= k <= |name| && GlobParts(name[k..], parts)
  }

  lemma {:induction false} GlobIsParts(name: string, pattern: string)
    requires '?' !in pattern
    ensures GlobMatch(name, pattern) <==> GlobParts(name, Split(pattern, '*'))
    decreases |pattern|
  {
    if pattern == "" {
      return;
    }
    var rest := Split(pattern[1..], '*');
    if pattern[0] == '*' {
      assert Split(pattern, '*') == [""] + rest && ([""] + rest)[1..] == rest;
      assert name[0..] == name;
      forall k | 0 <= k <= |name|
        ensures GlobMatch(name[k..], pattern[1..]) <==> GlobParts(name[k..], rest)
      {
        GlobIsParts(name[k..], pattern[1..]);
      }
    } else if name != "" {
      GlobIsParts(name[1..], pattern[1..]);
      PrependToFirst(name, pattern[0], rest);
    }
  }

  lemma PrependToFirst(name: string, c: char, rest: seq<string>)
    requires name != "" && rest != []
    ensures GlobParts(name, [[c] + rest[0]] + rest[1..]) <==> name[0] == c && GlobParts(name[1..], rest)
  {
    var parts := [[c] + rest[0]] + rest[1..];
    assert parts[1..] == rest[1..];
    var p := rest[0];
    assert name == [name[0]] + name[1..];
    if HasPrefix(name, [c] + p) {
      assert name[0] == name[..|p| + 1][0];
      assert name[1..][..|p|] == name[..|p| + 1][1..];
    }
    if name[0] == c && HasPrefix(name[1..], p) {
      assert name[..|p| + 1] == [c] + name[1..][..|p|];
    }
    if |p| + 1 <= |name| {
      assert name[1..][|p|..] == name[|p| + 1..];
    }
  }

  /** Anything, then the middles in order, then the last piece at the end without overlapping them. */
  ghost predicate Fitting(s: string, mids: seq<string>, l: string) {
    HasSuffix(s, l) && InOrder(s[..|s| - |l|], mids)
  }

  lemma InOrderCons(s: string, i: int, m: string, rest: seq<string>)
    requires OccursAt(s, m, i) && InOrder(s[i + |m|..], rest)
    ensures InOrder(s, [m] + rest)
  {
    var pieces := [m] + rest;
    assert pieces[1..] == rest;
    assert OccursAt(s, pieces[0], i) && InOrder(s[i + |pieces[0]|..], pieces[1..]);
  }

  lemma InOrderUncons(s: string, pieces: seq<string>) returns (i: int)
    requires pieces != [] && InOrder(s, pieces)
    ensures OccursAt(s, pieces[0], i) && InOrder(s[i + |pieces[0]|..], pieces[1..])
  {
    i :| OccursAt(s, pieces[0], i) && InOrder(s[i + |pieces[0]|..], pieces[1..]);
  }

  lemma SuffixOfSuffix(s: string, e: nat, l: string)
    requires e + |l| <= |s|
    ensures HasSuffix(s, l) <==> HasSuffix(s[e..], l)
    ensures s[..|s| - |l|][e..] == s[e..][..|s[e..]| - |l|]
  {
    assert s[e..][|s[e..]| - |l|..] == s[|s| - |l|..];
  }

  lemma FittingCons(s: string, i: nat, m: string, rest: seq<string>, l: string)
    requires OccursAt(s, m, i) && Fitting(s[i + |m|..], rest, l)
    ensures Fitting(s, [m] + rest, l)
  {
    var e, t := i + |m|, s[..|s| - |l|];
    SuffixOfSuffix(s, e, l);
    OccursInPrefix(s, |s| - |l|, m, i);
    InOrderCons(t, i, m, rest);
  }

  lemma FittingUncons(s: string, mids: seq<string>, l: string) returns (i: nat)
    requires mids != [] && Fitting(s, mids, l)
    ensures OccursAt(s, mids[0], i) && Fitting(s[i + |mids[0]|..], mids[1..], l)
  {
    i := InOrderUncons(s[..|s| - |l|], mids);
    OccursInPrefix(s, |s| - |l|, mids[0], i);
    SuffixOfSuffix(s, i + |mids[0]|, l);
  }

  lemma PrefixAt(s: string, k: nat, m: string)
    requires k <= |s|
    ensures HasPrefix(s[k..], m) <==> OccursAt(s, m, k)
    ensures k + |m| <= |s| ==> s[k..][|m|..] == s[k + |m|..]
  {
    if k + |m| <= |s| {
      assert s[k..][..|m|] == s[k..k + |m|];
    }
  }

  lemma {:induction false} GlobSomeIsFitting(s: string, mids: seq<string>, l: string)
    ensures GlobSome(s, mids + [l]) <==> Fitting(s, mids, l)
    decreases |mids|
  {
    if Fitting(s, mids, l) {
      FittingIsGlob(s, mids, l);
    }
    if GlobSome(s, mids + [l]) {
      GlobIsFitting(s, mids, l);
    }
  }

  lemma {:induction false} FittingIsGlob(s: string, mids: seq<string>, l: string)
    requires Fitting(s, mids, l)
    ensures GlobSome(s, mids + [l])
    decreases |mids|
  {
    var parts := mids + [l];
    if mids == [] {
      assert GlobParts(s[|s| - |l|..], parts);
    } else {
      var i := FittingUncons(s, mids, l);
      FittingIsGlob(s[i + |mids[0]|..], mids[1..], l);
      assert parts[1..] == mids[1..] + [l];
      PrefixAt(s, i, mids[0]);
      assert GlobParts(s[i..], parts);
    }
  }

  lemma {:induction false} GlobIsFitting(s: string, mids: seq<string>, l: string)
    requires GlobSome(s, mids + [l])
    ensures Fitting(s, mids, l)
    decreases |mids|
  {
    var k :| 0 <= k <= |s| && GlobParts(s[k..], mids + [l]);
    if mids == [] {
      assert |s[k..]| == |l|;
    } else {
      GlobPartsUncons(s, k, mids, l);
      GlobIsFitting(s[k + |mids[0]|..], mids[1..], l);
      FittingCons(s, k, mids[0], mids[1..], l);
      assert mids == [mids[0]] + mids[1..];
    }
  }

  lemma GlobPartsUncons(s: string, k: nat, mids: seq<string>, l: string)
    requires k <= |s| && mids != [] && GlobParts(s[k..], mids + [l])
    ensures OccursAt(s, mids[0], k) && GlobSome(s[k + |mids[0]|..], mids[1..] + [l])
  {
    var parts := mids + [l];
    assert parts[0] == mids[0] && parts[1..] == mids[1..] + [l];
    PrefixAt(s, k, mids[0]);
  }

  /******* The scan of a star-delimited pattern accepts every glob match, and a bit more *******/

  /** The last piece does not begin before the end of the scan. */
  predicate Fits(name: string, parts: seq<string>)
    requires |parts| >= 2 && HasPrefix(name, First(parts))
  {
    |First(parts)| + Scan(name[|First(parts)|..], Middles(parts)) + |Last(parts)| <= |name|
  }

  lemma FittingIsScan(s: string, mids: seq<string>, l: string)
    ensures Fitting(s, mids, l) <==> HasSuffix(s, l) && 0 <= Scan(s, mids) <= |s| - |l|
  {
    if |l| <= |s| {
      ScanLeftmost(s, |s| - |l|, mids);
    }
  }

  lemma PiecesAndFit(name: string, parts: seq<string>)
    requires |parts| >= 2
    ensures GlobParts(name, parts) <==> PiecesMatch(name, parts) && Fits(name, parts)
  {
    var p, mids, l := First(parts), Middles(parts), Last(parts);
    assert parts[1..] == mids + [l];
    if HasPrefix(name, p) {
      var s := name[|p|..];
      GlobSomeIsFitting(s, mids, l);
      FittingIsScan(s, mids, l);
      InOrderIsScan(s, mids);
      if |p| + |l| <= |name| {
        SuffixOfSuffix(name, |p|, l);
      }
    }
  }

  /** With stars only inside: a name is a glob match exactly when it is accepted and the last piece fits. */
  lemma InnerStars(name: string, pattern: string)
    requires '*' in pattern && '?' !in pattern && !EndStar(pattern)
    ensures GlobMatch(name, pattern) <==> StarMatch(name, pattern) && Fits(name, Split(pattern, '*'))
  {
    GlobIsParts(name, pattern);
    PiecesAndFit(name, Split(pattern, '*'));
  }

  /** An accepted name whose last piece overlaps the scan: a glob needs two b's. */
  lemma OverlapIsAccepted()
    ensures StarMatch("ab", "ab*b") && !GlobMatch("ab", "ab*b")
  {
    var pattern := "ab*b";
    SplitAppend("ab", "b", '*');
    SplitOne("ab", '*');
    SplitOne("b", '*');
    assert Split(pattern, '*') == ["ab", "b"];
    assert HasPrefix("ab", "ab") && HasSuffix("ab", "b");
    assert pattern[..1] == "a" && pattern[3..] == "b";
    InnerStars("ab", pattern);
  }

  /******* Patterns with a star at an end *******/

  /** The trimmed pattern, put back between its stars. */
  lemma TrimmedSpells(pattern: string)
    requires EndStar(pattern)
    ensures var m := Trimmed(pattern);
            pattern ==
            if pattern == "*" then "" + ['*'] + ""
            else if HasPrefix(pattern, "*") && HasSuffix(pattern, "*") then "" + ['*'] + (m + ['*'] + "")
            else if HasPrefix(pattern, "*") then "" + ['*'] + m
            else m + ['*'] + ""
  {
    var n := |pattern|;
    if HasSuffix(pattern, "*") {
      assert pattern == pattern[..n - 1] + pattern[n - 1..];
      var front := pattern[..n - 1];
      if n > 1 {
        assert front[..1] == pattern[..1];
        assert front == front[..1] + front[1..];
      }
    } else {
      assert pattern == pattern[..1] + pattern[1..];
    }
  }

  lemma EndStarParts(pattern: string)
    requires EndStar(pattern) && '*' !in Trimmed(pattern)
    ensures var m := Trimmed(pattern);
            Split(pattern, '*') ==
            if pattern == "*" then ["", ""]
            else if HasPrefix(pattern, "*") && HasSuffix(pattern, "*") then ["", m, ""]
            else if HasPrefix(pattern, "*") then ["", m]
            else [m, ""]
  {
    TrimmedSpells(pattern);
    SplitStars(Trimmed(pattern));
  }

  lemma SplitStars(m: string)
    requires '*' !in m
    ensures Split("" + ['*'] + "", '*') == ["", ""]
    ensures Split("" + ['*'] + m, '*') == ["", m]
    ensures Split(m + ['*'] + "", '*') == [m, ""]
    ensures Split("" + ['*'] + (m + ['*'] + ""), '*') == ["", m, ""]
  {
    SplitOne("", '*');
    SplitOne(m, '*');
    SplitAppend("", "", '*');
    SplitAppend("", m, '*');
    SplitAppend(m, "", '*');
    SplitAppend("", m + ['*'] + "", '*');
  }

  lemma PrefixAsGlob(name: string, m: string)
    ensures GlobParts(name, [m, ""]) <==> HasPrefix(name, m)
  {
    assert [m, ""][1..] == [] + [""];
    if HasPrefix(name, m) {
      GlobSomeIsFitting(name[|m|..], [], "");
    }
  }

  lemma SuffixAsGlob(name: string, m: string)
    ensures GlobParts(name, ["", m]) <==> HasSuffix(name, m)
  {
    assert ["", m][1..] == [] + [m];
    assert name[0..] == name;
    GlobSomeIsFitting(name, [], m);
  }

  lemma ContainsAsGlob(name: string, m: string)
    ensures GlobParts(name, ["", m, ""]) <==> Contains(name, m)
  {
    assert ["", m, ""][1..] == [m] + [""];
    assert name[0..] == name && name[..|name|] == name && name[|name|..] == "";
    GlobSomeIsFitting(name, [m], "");
    GreedyStep(name, [m]);
  }

  lemma EndStarFaithful(name: string, pattern: string)
    requires EndStar(pattern) && '*' in pattern && '?' !in pattern && '*' !in Trimmed(pattern)
    ensures StarMatch(name, pattern) <==> GlobMatch(name, pattern)
  {
    var m := Trimmed(pattern);
    GlobIsParts(name, pattern);
    EndStarParts(pattern);
    if pattern == "*" {
      assert pattern[..1] == "*" && m == "";
      assert OccursAt(name, "", 0);
      PrefixAsGlob(name, "");
    } else if HasPrefix(pattern, "*") && HasSuffix(pattern, "*") {
      ContainsAsGlob(name, m);
    } else if HasPrefix(pattern, "*") {
      SuffixAsGlob(name, m);
    } else {
      PrefixAsGlob(name, m);
    }
  }

  /******* A glob match every pattern has: stars gone, question marks filled in *******/

  function Filled(pattern: string): (name: string)
    ensures '*' !in name && '?' !in name
  {
    if pattern == "" then ""
    else if pattern[0] == '*' then Filled(pattern[1..])
    else [if pattern[0] == '?' then 'x' else pattern[0]] + Filled(pattern[1..])
  }

  lemma {:induction false} FilledMatches(pattern: string)
    ensures GlobMatch(Filled(pattern), pattern)
  {
    if pattern != "" {
      FilledMatches(pattern[1..]);
      var name := Filled(pattern);
      if pattern[0] == '*' {
        assert name[0..] == name;
      } else {
        assert name[1..] == Filled(pattern[1..]);
      }
    }
  }

  lemma OccursMeansIn(s: string, sub: string, i: int, x: char)
    requires OccursAt(s, sub, i) && x in sub
    ensures x in s
  {
    var k :| 0 <= k < |sub| && sub[k] == x;
    assert s[i..i + |sub|][k] == s[i + k];
  }

  lemma {:induction false} InOrderMeansIn(s: string, pieces: seq<string>, j: nat, x: char)
    requires InOrder(s, pieces) && j < |pieces| && x in pieces[j]
    ensures x in s
    decreases |pieces|
  {
    var i :| OccursAt(s, pieces[0], i) && InOrder(s[i + |pieces[0]|..], pieces[1..]);
    if j == 0 {
      OccursMeansIn(s, pieces[0], i, x);
    } else {
      InOrderMeansIn(s[i + |pieces[0]|..], pieces[1..], j - 1, x);
    }
  }

  /** A character that the pattern compares literally is in every accepted name. */
  lemma LiteralIsIn(name: string, pattern: string, x: char)
    requires '*' in pattern && StarMatch(name, pattern)
    requires if EndStar(pattern) then x in Trimmed(pattern) else x in pattern && x != '*'
    ensures x in name
  {
    var m, n := Trimmed(pattern), |name|;
    if HasPrefix(pattern, "*") && HasSuffix(pattern, "*") {
      OccursMeansIn(name, m, Index(name, m), x);
    } else if HasPrefix(pattern, "*") {
      OccursMeansIn(name, m, n - |m|, x);
    } else if HasSuffix(pattern, "*") {
      OccursMeansIn(name, m, 0, x);
    } else {
      SplitKeeps(pattern, '*', x);
      PieceIsIn(name, Split(pattern, '*'), x);
    }
  }

  lemma PieceIsIn(name: string, parts: seq<string>, x: char)
    requires |parts| >= 2 && PiecesMatch(name, parts)
    requires exists i :: 0 <= i < |parts| && x in parts[i]
    ensures x in name
  {
    var i :| 0 <= i < |parts| && x in parts[i];
    if i == 0 {
      OccursMeansIn(name, First(parts), 0, x);
    } else if i == |parts| - 1 {
      OccursMeansIn(name, Last(parts), |name| - |Last(parts)|, x);
    } else {
      InOrderMeansIn(name[|First(parts)|..], Middles(parts), i - 1, x);
    }
  }

  lemma TrimmedKeeps(pattern: string, x: char)
    requires x in pattern && x != '*'
    ensures x in Trimmed(pattern)
  {
    var t := TrimSuffix(pattern, "*");
    assert pattern == t || pattern == t + pattern[|t|..];
    assert x in t;
    assert t == Trimmed(pattern) || t == t[..1] + Trimmed(pattern);
  }

  /******* When the last piece can overlap the scan *******/

  function Nonempty(pieces: seq<string>): (r: seq<string>)
    ensures "" !in r
  {
    if pieces == [] then [] else (if pieces[0] == "" then [] else [pieces[0]]) + Nonempty(pieces[1..])
  }

  lemma ScanSkips(s: string, pieces: seq<string>)
    requires pieces != [] && pieces[0] == ""
    ensures Scan(s, pieces) == Scan(s, pieces[1..])
  {
    assert OccursAt(s, "", 0) && s[0..] == s;
  }

  lemma {:induction false} ScanNonempty(s: string, pieces: seq<string>)
    ensures Scan(s, pieces) == Scan(s, Nonempty(pieces))
    decreases |pieces|
  {
    if pieces != [] {
      if pieces[0] == "" {
        ScanSkips(s, pieces);
        assert Nonempty(pieces) == Nonempty(pieces[1..]);
        ScanNonempty(s, pieces[1..]);
      } else {
        assert Nonempty(pieces)[1..] == Nonempty(pieces[1..]);
        if Index(s, pieces[0]) != -1 {
          ScanNonempty(s[Index(s, pieces[0]) + |pieces[0]|..], pieces[1..]);
        }
      }
    }
  }

  /** Some nonempty end of q is also a beginning of l. */
  predicate Border(q: string, l: string) {
    exists o :: 1 <= o <= |q| && o <= |l| && q[|q| - o..] == l[..o]
  }

  /** The scan can run into the last piece: an end of the piece before it begins it, or lies inside it. */
  predicate CanOverlap(parts: seq<string>)
    requires |parts| >= 2
  {
    var mids, l := Nonempty(Middles(parts)), Last(parts);
    if mids == [] then Border(First(parts), l)
    else Border(Last(mids), l) || Contains(l, Last(mids))
  }

  /** A successful scan stops right after its last piece. */
  lemma {:induction false} ScanEndsAfterLast(s: string, pieces: seq<string>)
    requires pieces != [] && Scan(s, pieces) >= 0
    ensures OccursAt(s, Last(pieces), Scan(s, pieces) - |Last(pieces)|)
    decreases |pieces|
  {
    var p := pieces[0];
    var e := Index(s, p) + |p|;
    if |pieces| > 1 {
      ScanEndsAfterLast(s[e..], pieces[1..]);
      var j := Scan(s[e..], pieces[1..]) - |Last(pieces)|;
      assert s[e..][j..j + |Last(pieces)|] == s[e + j..e + j + |Last(pieces)|];
    }
  }

  /** A piece that runs into the last one from before its beginning shares a border with it. */
  lemma CrossingBorder(s: string, q: string, i: nat, l: string)
    requires OccursAt(s, q, i) && HasSuffix(s, l) && i <= |s| - |l| < i + |q|
    ensures Border(q, l)
  {
    var t := |s| - |l|;
    var o := i + |q| - t;
    assert s[i..i + |q|][|q| - o..] == s[t..t + o];
    assert s[t..][..o] == s[t..t + o];
    assert q[|q| - o..] == l[..o];
  }

  /** A piece found after the beginning of the last one lies inside it. */
  lemma CrossingInside(s: string, q: string, i: nat, l: string)
    requires OccursAt(s, q, i) && HasSuffix(s, l) && i > |s| - |l|
    ensures Contains(l, q)
  {
    OccursInSuffix(s, |s| - |l|, q, i);
  }

  lemma OccursInSuffix(s: string, t: nat, q: string, i: nat)
    requires OccursAt(s, q, i) && t <= i
    ensures OccursAt(s[t..], q, i - t)
  {
    assert s[t..][i - t..i - t + |q|] == s[i..i + |q|];
  }

  lemma NoOverlapFits(name: string, parts: seq<string>)
    requires |parts| >= 2 && PiecesMatch(name, parts) && !CanOverlap(parts)
    ensures Fits(name, parts)
  {
    var p, mids, l := First(parts), Nonempty(Middles(parts)), Last(parts);
    var s := name[|p|..];
    ScanNonempty(s, Middles(parts));
    InOrderIsScan(s, Middles(parts));
    if |p| + Scan(s, mids) + |l| > |name| {
      if mids == [] {
        CrossingBorder(name, p, 0, l);
      } else {
        ScanMeetsLast(name, |p|, mids, l);
      }
    }
  }

  lemma ScanMeetsLast(name: string, from: nat, mids: seq<string>, l: string)
    requires from <= |name| && mids != [] && Scan(name[from..], mids) >= 0
    requires HasSuffix(name, l) && from + Scan(name[from..], mids) + |l| > |name|
    ensures Border(Last(mids), l) || Contains(l, Last(mids))
  {
    var i := Scan(name[from..], mids) - |Last(mids)|;
    ScanEndsAfterLast(name[from..], mids);
    OccursShifted(name, from, Last(mids), i);
    if from + i <= |name| - |l| {
      CrossingBorder(name, Last(mids), from + i, l);
    } else {
      CrossingInside(name, Last(mids), from + i, l);
    }
  }

  lemma OccursShifted(name: string, from: nat, q: string, i: int)
    requires from <= |name| && OccursAt(name[from..], q, i)
    ensures i >= 0 && OccursAt(name, q, from + i)
  {
    assert name[from..][i..i + |q|] == name[from + i..from + i + |q|];
  }

  function Concat(pieces: seq<string>): string {
    if pieces == [] then "" else pieces[0] + Concat(pieces[1..])
  }

  lemma {:induction false} ConcatSnoc(pieces: seq<string>, q: string)
    ensures Concat(pieces + [q]) == Concat(pieces) + q
  {
    if pieces == [] {
      assert [q][1..] == [] && "" + q == q + "" == q;
    } else {
      ConcatSnoc(pieces[1..], q);
      assert (pieces + [q])[1..] == pieces[1..] + [q];
    }
  }

  /** The scan takes at least as much room as its pieces. */
  lemma {:induction false} ScanAtLeast(s: string, pieces: seq<string>)
    ensures Scan(s, pieces) == -1 || Scan(s, pieces) >= |Concat(pieces)|
    decreases |pieces|
  {
    if pieces != [] && Index(s, pieces[0]) != -1 {
      ScanAtLeast(s[Index(s, pieces[0]) + |pieces[0]|..], pieces[1..]);
    }
  }

  /** The pieces laid end to end, with room for one more after them, are in order. */
  lemma {:induction false} LaidOut(init: seq<string>, q: string, u: string)
    requires Contains(u, q)
    ensures InOrder(Concat(init) + u, init + [q])
  {
    if init == [] {
      assert Concat(init) + u == u;
      InOrderCons(u, Index(u, q), q, []);
      assert [q] + [] == init + [q];
    } else {
      var p, rest := init[0], init[1..];
      var s := Concat(init) + u;
      assert s == p + (Concat(rest) + u);
      LaidOut(rest, q, u);
      assert OccursAt(s, p, 0) && s[|p|..] == Concat(rest) + u;
      InOrderCons(s, 0, p, rest + [q]);
      assert [p] + (rest + [q]) == init + [q];
    }
  }

  lemma InOrderIsScan(s: string, pieces: seq<string>)
    ensures InOrder(s, pieces) <==> Scan(s, pieces) >= 0
    ensures InOrder(s, pieces) <==> InOrder(s, Nonempty(pieces))
  {
    assert s[..|s|] == s;
    ScanLeftmost(s, |s|, pieces);
    ScanLeftmost(s, |s|, Nonempty(pieces));
    ScanNonempty(s, pieces);
  }

  /** A name whose end u holds both the last middle piece and the last piece, with too little room for both. */
  lemma OverlapName(parts: seq<string>, init: seq<string>, q: string, u: string)
    requires |parts| >= 2 && Nonempty(Middles(parts)) == init + [q]
    requires Contains(u, q) && HasSuffix(u, Last(parts)) && |u| < |q| + |Last(parts)|
    ensures var name := First(parts) + (Concat(init) + u);
            PiecesMatch(name, parts) && !Fits(name, parts)
  {
    var p, l, s := First(parts), Last(parts), Concat(init) + u;
    var name := p + s;
    assert name[|p|..] == s && name[..|p|] == p;
    assert InOrder(s, Middles(parts)) && Scan(s, Middles(parts)) >= |Concat(init)| + |q| by {
      LaidOut(init, q, u);
      InOrderIsScan(s, Middles(parts));
      ScanNonempty(s, Middles(parts));
      ScanAtLeast(s, init + [q]);
      ConcatSnoc(init, q);
    }
    assert HasSuffix(name, l) by {
      SuffixOfSuffix(name, |p| + |Concat(init)|, l);
      assert name[|p| + |Concat(init)|..] == u;
    }
  }

  /** q followed by the rest of l ends with l when their border is shared. */
  lemma SharedBorder(q: string, l: string, o: nat)
    requires 1 <= o <= |q| && o <= |l| && q[|q| - o..] == l[..o]
    ensures HasSuffix(q + l[o..], l) && Contains(q + l[o..], q)
  {
    var u := q + l[o..];
    assert u[|u| - |l|..] == q[|q| - o..] + l[o..] == l;
    assert OccursAt(u, q, 0);
  }

  lemma OverlapWitness(parts: seq<string>) returns (name: string)
    requires |parts| >= 2 && CanOverlap(parts)
    ensures PiecesMatch(name, parts) && !Fits(name, parts)
  {
    var p, mids, l := First(parts), Nonempty(Middles(parts)), Last(parts);
    if mids == [] {
      var o :| 1 <= o <= |p| && o <= |l| && p[|p| - o..] == l[..o];
      name := p + l[o..];
      OverlapFirst(parts, o);
    } else {
      var init, q := mids[..|mids| - 1], Last(mids);
      assert mids == init + [q] && q in mids;
      var u := OverlapEnd(q, l);
      OverlapName(parts, init, q, u);
      name := p + (Concat(init) + u);
    }
  }

  lemma OverlapFirst(parts: seq<string>, o: nat)
    requires |parts| >= 2 && Nonempty(Middles(parts)) == []
    requires var p, l := First(parts), Last(parts);
             1 <= o <= |p| && o <= |l| && p[|p| - o..] == l[..o]
    ensures var name := First(parts) + Last(parts)[o..];
            PiecesMatch(name, parts) && !Fits(name, parts)
  {
    var p, l := First(parts), Last(parts);
    var name := p + l[o..];
    SharedBorder(p, l, o);
    assert name[..|p|] == p;
    InOrderIsScan(name[|p|..], Middles(parts));
    ScanNonempty(name[|p|..], Middles(parts));
  }

  lemma OverlapEnd(q: string, l: string) returns (u: string)
    requires q != "" && (Border(q, l) || Contains(l, q))
    ensures Contains(u, q) && HasSuffix(u, l) && |u| < |q| + |l|
  {
    if Contains(l, q) {
      u := l;
    } else {
      var o :| 1 <= o <= |q| && o <= |l| && q[|q| - o..] == l[..o];
      SharedBorder(q, l, o);
      u := q + l[o..];
    }
  }

  /******* Patterns without a star *******/

  lemma {:induction false} QuestionIsGlob(name: string, pattern: string)
    requires '*' !in pattern
    ensures MatchesQuestionPattern(name, pattern) <==> GlobMatch(name, pattern)
  {
    if pattern != "" && name != "" {
      QuestionIsGlob(name[1..], pattern[1..]);
      if MatchesQuestionPattern(name[1..], pattern[1..]) && (pattern[0] == '?' || pattern[0] == name[0]) {
        forall i | 0 <= i < |pattern|
          ensures pattern[i] == '?' || pattern[i] == name[i]
        {
          if i > 0 {
            assert pattern[1..][i - 1] == pattern[i] && name[1..][i - 1] == name[i];
          }
        }
      }
    }
  }

  lemma PlainIsGlob(name: string, pattern: string)
    requires '*' !in pattern && '?' !in pattern
    ensures name == pattern <==> GlobMatch(name, pattern)
  {
    QuestionIsGlob(name, pattern);
    if MatchesQuestionPattern(name, pattern) {
      forall i | 0 <= i < |pattern|
        ensures pattern[i] == name[i]
      {
        assert pattern[i] in pattern;
      }
    }
  }

  /******* The exact condition *******/

  /** A pattern is read as documented when it is not empty, does not mix the wildcards, has no inner star besides a star
      at an end, and cannot overlap its last two pieces. */
  predicate Faithful(pattern: string) {
    && pattern != ""
    && ('*' in pattern ==>
          && '?' !in pattern
          && (if EndStar(pattern) then '*' !in Trimmed(pattern) else !CanOverlap(Split(pattern, '*'))))
  }

  lemma FaithfulMatch(name: string, pattern: string)
    requires Faithful(pattern)
    ensures RefMatch(name, pattern) <==> GlobMatch(name, pattern)
  {
    if '*' !in pattern {
      QuestionIsGlob(name, pattern);
      if '?' !in pattern {
        PlainIsGlob(name, pattern);
      }
    } else if EndStar(pattern) {
      EndStarFaithful(name, pattern);
    } else {
      InnerStars(name, pattern);
      if StarMatch(name, pattern) {
        NoOverlapFits(name, Split(pattern, '*'));
      }
    }
  }

  lemma UnfaithfulName(pattern: string) returns (name: string)
    requires !Faithful(pattern)
    ensures !(RefMatch(name, pattern) <==> GlobMatch(name, pattern))
  {
    if pattern == "" {
      name := "x";
    } else if '?' in pattern || EndStar(pattern) {
      name := Filled(pattern);
      FilledMatches(pattern);
      var x := if '?' in pattern then '?' else '*';
      if StarMatch(name, pattern) {
        if '?' in pattern && EndStar(pattern) {
          TrimmedKeeps(pattern, '?');
        }
        LiteralIsIn(name, pattern, x);
      }
    } else {
      EndPiecesNonempty(pattern);
      name := OverlapWitness(Split(pattern, '*'));
      InnerStars(name, pattern);
    }
  }

  /** The matcher agrees with the documented meaning on every name exactly for the faithful patterns. */
  lemma FaithfulExactly(pattern: string)
    ensures (forall name :: RefMatch(name, pattern) <==> GlobMatch(name, pattern)) <==> Faithful(pattern)
  {
    if Faithful(pattern) {
      forall name
        ensures RefMatch(name, pattern) <==> GlobMatch(name, pattern)
      {
        FaithfulMatch(name, pattern);
      }
    } else {
      var name := UnfaithfulName(pattern);
    }
  }
}
