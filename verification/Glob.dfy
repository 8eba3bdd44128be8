/** Reference-name patterns of git/refs.go, compared with the documented glob meaning of `*` and `?`. */
module Glob {
  import opened Text

  /******* The documented meaning *******/

  /** `*` stands for any run of characters, `?` for any one character, anything else for itself. */
  ghost predicate GlobMatch(name: string, pattern: string)
    decreases |pattern|
  {
    if pattern == "" then name == ""
    else if pattern[0] == '*' then exists k :: 0 <= k <= |name| && GlobMatch(name[k..], pattern[1..])
    else name != "" && (pattern[0] == '?' || pattern[0] == name[0]) && GlobMatch(name[1..], pattern[1..])
  }

  /** The pieces occur in s one after the other, without overlap. */
  ghost predicate InOrder(s: string, pieces: seq<string>)
    decreases |pieces|
  {
    pieces == [] ||
    exists i :: OccursAt(s, pieces[0], i) && InOrder(s[i + |pieces[0]|..], pieces[1..])
  }

  /** Where a leftmost greedy scan for the pieces ends, or -1 when a piece is not found. */
  function Scan(s: string, pieces: seq<string>): (end: int)
    ensures end <= |s|
    decreases |pieces|
  {
    if pieces == [] then 0
    else
      var i := Index(s, pieces[0]);
      if i == -1 then -1
      else
        var rest := Scan(s[i + |pieces[0]|..], pieces[1..]);
        if rest < 0 then -1 else i + |pieces[0]| + rest
  }

  /******* The matcher *******/

  predicate EndStar(pattern: string) {
    HasPrefix(pattern, "*") || HasSuffix(pattern, "*")
  }

  /** The pattern without one leading and one trailing star. */
  function Trimmed(pattern: string): string {
    TrimPrefix(TrimSuffix(pattern, "*"), "*")
  }

  function First(parts: seq<string>): string
    requires parts != []
  {
    parts[0]
  }

  function Last(parts: seq<string>): string
    requires parts != []
  {
    parts[|parts| - 1]
  }

  function Middles(parts: seq<string>): seq<string>
    requires |parts| >= 2
  {
    parts[1..|parts| - 1]
  }

  /** What matchesStarPattern decides, in terms of pieces. */
  ghost predicate StarMatch(name: string, pattern: string)
    requires '*' in pattern
  {
    var parts := Split(pattern, '*');
    if HasPrefix(pattern, "*") && HasSuffix(pattern, "*") then Contains(name, Trimmed(pattern))
    else if HasPrefix(pattern, "*") then HasSuffix(name, Trimmed(pattern))
    else if HasSuffix(pattern, "*") then HasPrefix(name, Trimmed(pattern))
    else PiecesMatch(name, parts)
  }

  /** First piece in front, last piece at the end, and the others in order after the first. */
  ghost predicate PiecesMatch(name: string, parts: seq<string>)
    requires |parts| >= 2
  {
    && HasPrefix(name, First(parts))
    && InOrder(name[|First(parts)|..], Middles(parts))
    && HasSuffix(name, Last(parts))
  }

  method MatchesStarPattern(name: string, pattern: string) returns (matches: bool)
    requires '*' in pattern
    ensures matches <==> StarMatch(name, pattern)
  {
    if HasPrefix(pattern, "*") && HasSuffix(pattern, "*") {
      var middle := TrimPrefix(TrimSuffix(pattern, "*"), "*");
      return Contains(name, middle);
    } else if HasPrefix(pattern, "*") {
      var suffix := TrimPrefix(pattern, "*");
      return HasSuffix(name, suffix);
    } else if HasSuffix(pattern, "*") {
      var prefix := TrimSuffix(pattern, "*");
      return HasPrefix(name, prefix);
    }
    var parts := Split(pattern, '*');
    EndPiecesNonempty(pattern);
    matches := MatchesPieces(name, parts);
  }

  /** The scan of the default branch: first piece in front, last piece at the end, the others leftmost after `pos`. */
  method MatchesPieces(name: string, parts: seq<string>) returns (matches: bool)
    requires parts != [] && First(parts) != "" && Last(parts) != ""
    ensures |parts| <= 1 ==> !matches
    ensures |parts| > 1 ==> (matches <==> PiecesMatch(name, parts))
  {
    var n := |parts|;
    if n <= 1 {
      return false;
    }
    var pos := 0;
    var i := 0;
    while i < n
      invariant 0 <= i < n && 0 <= pos <= |name|
      invariant i == 0 ==> pos == 0
      invariant 0 < i ==> (PiecesMatch(name, parts) <==> InOrder(name[pos..], parts[i..n - 1]) && HasSuffix(name, Last(parts)))
    {
      var part := parts[i];
      if part == "" {
        SkipEmpty(name[pos..], parts[i..n - 1]);
      } else if i == 0 {
        if !HasPrefix(name[pos..], part) {
          return false;
        }
        pos := pos + |part|;
      } else if i == n - 1 {
        return HasSuffix(name, part);
      } else {
        var idx := Index(name[pos..], part);
        GreedyStep(name[pos..], parts[i..n - 1]);
        if idx == -1 {
          return false;
        }
        assert name[pos..][idx + |part|..] == name[pos + idx + |part|..];
        pos := pos + idx + |part|;
      }
      assert parts[i..n - 1][1..] == parts[i + 1..n - 1];
      i := i + 1;
    }
    return true;
  }

  predicate MatchesQuestionPattern(name: string, pattern: string) {
    && |name| == |pattern|
    && forall i :: 0 <= i < |pattern| ==> pattern[i] == '?' || pattern[i] == name[i]
  }

  /** matchesRefPattern, with the star matcher replaced by what it is proved to decide. */
  ghost predicate RefMatch(name: string, pattern: string) {
    if pattern == "" then true
    else if '*' in pattern then StarMatch(name, pattern)
    else if '?' in pattern then MatchesQuestionPattern(name, pattern)
    else name == pattern
  }

  method MatchesRefPattern(name: string, pattern: string) returns (matches: bool)
    ensures matches <==> RefMatch(name, pattern)
  {
    if pattern == "" {
      return true;
    }
    if '*' in pattern {
      matches := MatchesStarPattern(name, pattern);
      return;
    }
    if '?' in pattern {
      return MatchesQuestionPattern(name, pattern);
    }
    return name == pattern;
  }

  /******* The greedy scan *******/

  lemma EndPiecesNonempty(pattern: string)
    requires pattern != "" && !EndStar(pattern)
    ensures First(Split(pattern, '*')) != "" && Last(Split(pattern, '*')) != ""
  {
    assert pattern[0] != '*' by { assert pattern[..1] == [pattern[0]]; }
    var n := |pattern|;
    assert pattern[n - 1] != '*' by { assert pattern[n - 1..] == [pattern[n - 1]]; }
    LastPieceNonempty(pattern);
  }

  lemma {:induction false} LastPieceNonempty(pattern: string)
    requires pattern != "" && pattern[|pattern| - 1] != '*'
    ensures Last(Split(pattern, '*')) != ""
  {
    if |pattern| > 1 {
      LastPieceNonempty(pattern[1..]);
    } else {
      assert pattern[1..] == "";
    }
  }

  /** Starting earlier loses nothing. */
  lemma {:induction false} InOrderEarlier(s: string, i: nat, pieces: seq<string>)
    requires i <= |s| && InOrder(s[i..], pieces)
    ensures InOrder(s, pieces)
  {
    if pieces != [] {
      var j :| OccursAt(s[i..], pieces[0], j) && InOrder(s[i..][j + |pieces[0]|..], pieces[1..]);
      assert OccursAt(s, pieces[0], i + j);
      assert s[i..][j + |pieces[0]|..] == s[i + j + |pieces[0]|..];
    }
  }

  lemma GreedyStep(s: string, pieces: seq<string>)
    requires pieces != []
    ensures InOrder(s, pieces) <==>
              var i := Index(s, pieces[0]);
              i != -1 && InOrder(s[i + |pieces[0]|..], pieces[1..])
  {
    var i, m := Index(s, pieces[0]), |pieces[0]|;
    if InOrder(s, pieces) {
      var j :| OccursAt(s, pieces[0], j) && InOrder(s[j + m..], pieces[1..]);
      assert i <= j;
      assert s[i + m..][j - i..] == s[j + m..];
      InOrderEarlier(s[i + m..], j - i, pieces[1..]);
    }
  }

  lemma SkipEmpty(s: string, pieces: seq<string>)
    ensures pieces != [] && pieces[0] == "" ==> (InOrder(s, pieces) <==> InOrder(s, pieces[1..]))
  {
    if pieces != [] && pieces[0] == "" {
      GreedyStep(s, pieces);
      assert OccursAt(s, "", 0);
      assert s[0..] == s;
    }
  }

  lemma TakeDrop(s: string, a: nat, b: nat, m: nat)
    requires a <= b <= m <= |s|
    ensures s[a..][b - a..] == s[b..]
    ensures s[..m][a..][b - a..] == s[..m][b..]
    ensures s[..m][a..] == s[a..][..m - a]
  {
  }

  lemma OccursInPrefix(s: string, m: nat, p: string, i: int)
    requires m <= |s|
    ensures OccursAt(s[..m], p, i) <==> OccursAt(s, p, i) && i + |p| <= m
  {
    if 0 <= i && i + |p| <= m {
      assert s[..m][i..i + |p|] == s[i..i + |p|];
    }
  }

  lemma IndexInPrefix(s: string, m: nat, p: string)
    requires m <= |s|
    ensures Index(s[..m], p) == if Index(s, p) != -1 && Index(s, p) + |p| <= m then Index(s, p) else -1
  {
    OccursInPrefix(s, m, p, Index(s, p));
    OccursInPrefix(s, m, p, Index(s[..m], p));
  }

  lemma GreedyStepInPrefix(s: string, m: nat, pieces: seq<string>)
    requires m <= |s| && pieces != []
    ensures InOrder(s[..m], pieces) <==>
              var i := Index(s, pieces[0]);
              i != -1 && i + |pieces[0]| <= m && InOrder(s[i + |pieces[0]|..][..m - i - |pieces[0]|], pieces[1..])
  {
    GreedyStep(s[..m], pieces);
    IndexInPrefix(s, m, pieces[0]);
    var e := Index(s, pieces[0]) + |pieces[0]|;
    if Index(s, pieces[0]) != -1 && e <= m {
      TakeDrop(s, e, e, m);
    }
  }

  /** The greedy scan is complete, and ends as early as any placement of the pieces can. */
  lemma {:induction false} ScanLeftmost(s: string, m: nat, pieces: seq<string>)
    requires m <= |s|
    ensures InOrder(s[..m], pieces) <==> 0 <= Scan(s, pieces) <= m
    decreases |pieces|
  {
    if pieces != [] {
      GreedyStepInPrefix(s, m, pieces);
      var end := Index(s, pieces[0]) + |pieces[0]|;
      if Index(s, pieces[0]) != -1 && end <= m {
        ScanLeftmost(s[end..], m - end, pieces[1..]);
      }
    }
  }
}
