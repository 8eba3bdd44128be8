/** Facts about sequences shared by several components. */
module Lists {

  predicate NoDup<T(==)>(s: seq<T>) {
    forall i, j :: 0 <= i < j < |s| ==> s[i] != s[j]
  }

  function ToSet<T(!new)>(s: seq<T>): (r: set<T>)
    ensures forall x :: x in r <==> x in s
  {
    set x | x in s
  }

  /** The distinct elements of s, each at its first occurrence. */
  function Dedup<T(==,!new)>(s: seq<T>): (r: seq<T>)
    ensures NoDup(r)
    ensures forall x :: x in r <==> x in s
  {
    if s == [] then []
    else
      var last, r := s[|s| - 1], Dedup(s[..|s| - 1]);
      assert s == s[..|s| - 1] + [last];
      if last in r then r else r + [last]
  }

  lemma DedupSnoc<T(!new)>(s: seq<T>, x: T)
    ensures Dedup(s + [x]) == if x in Dedup(s) then Dedup(s) else Dedup(s) + [x]
  {
    assert (s + [x])[..|s|] == s;
  }

  function FirstIndex<T(==)>(s: seq<T>, x: T): (i: nat)
    requires x in s
    ensures i < |s| && s[i] == x && x !in s[..i]
  {
    if s[0] == x then 0
    else
      assert s == [s[0]] + s[1..];
      var i := FirstIndex(s[1..], x);
      assert s[..i + 1] == [s[0]] + s[1..][..i];
      i + 1
  }

  /** Elements keep the order of their first occurrences. */
  lemma {:induction false} DedupOrder<T(!new)>(s: seq<T>, i: nat, j: nat)
    requires i < j < |Dedup(s)|
    ensures FirstIndex(s, Dedup(s)[i]) < FirstIndex(s, Dedup(s)[j])
  {
    var front, r := s[..|s| - 1], Dedup(s);
    assert s == front + [s[|s| - 1]];
    FirstIndexPrefix(front, s, r[i]);
    if j < |Dedup(front)| {
      FirstIndexPrefix(front, s, r[j]);
      DedupOrder(front, i, j);
    }
  }

  lemma FirstIndexPrefix<T>(front: seq<T>, s: seq<T>, x: T)
    requires front <= s && x in s
    ensures x in front ==> FirstIndex(s, x) == FirstIndex(front, x)
    ensures x !in front ==> FirstIndex(s, x) >= |front|
  {
    assert forall k :: 0 <= k < |front| ==> front[k] == s[k];
    assert x in front ==> s[FirstIndex(front, x)] == x && x !in s[..FirstIndex(front, x)];
  }

  lemma DedupFirst<T(!new)>(s: seq<T>, a: T, b: T)
    requires a in s && b in s && FirstIndex(s, a) < FirstIndex(s, b)
    ensures FirstIndex(Dedup(s), a) < FirstIndex(Dedup(s), b)
  {
    var i, j := FirstIndex(Dedup(s), a), FirstIndex(Dedup(s), b);
    if j < i {
      DedupOrder(s, j, i);
    }
  }

  /** What comes behind changes nothing in front. */
  lemma {:induction false} DedupStart<T(!new)>(a: seq<T>, b: seq<T>)
    ensures Dedup(a) <= Dedup(a + b)
    decreases |b|
  {
    if b == [] {
      assert a + b == a;
    } else {
      var n := |b|;
      assert (a + b)[..|a| + n - 1] == a + b[..n - 1];
      DedupStart(a, b[..n - 1]);
    }
  }

  lemma NoDupCons<T>(x: T, s: seq<T>)
    ensures NoDup([x] + s) <==> NoDup(s) && x !in s
  {
    var t := [x] + s;
    assert forall i :: 0 <= i < |s| ==> t[i + 1] == s[i];
    if NoDup(t) {
      forall i | 0 <= i < |s|
        ensures s[i] != x
      {
        assert t[0] != t[i + 1];
      }
      forall i, j | 0 <= i < j < |s|
        ensures s[i] != s[j]
      {
        assert t[i + 1] != t[j + 1];
      }
    }
  }

  /** Every element is related to each one after it. */
  ghost predicate Pairwise<T(!new)>(related: (T, T) -> bool, s: seq<T>) {
    forall i, j :: 0 <= i < j < |s| ==> related(s[i], s[j])
  }

  lemma InsertPairwise<T(!new)>(related: (T, T) -> bool, s: seq<T>, i: nat, x: T)
    requires i <= |s| && Pairwise(related, s)
    requires forall j :: 0 <= j < i ==> related(s[j], x)
    requires forall j :: i <= j < |s| ==> related(x, s[j])
    ensures Pairwise(related, s[..i] + [x] + s[i..])
    ensures multiset(s[..i] + [x] + s[i..]) == multiset(s) + multiset{x}
  {
    var t := s[..i] + [x] + s[i..];
    forall a, b | 0 <= a < b < |t|
      ensures related(t[a], t[b])
    {
      var sa, sb := if a < i then a else a - 1, if b < i then b else b - 1;
      assert a != i ==> t[a] == s[sa];
      assert b != i ==> t[b] == s[sb];
    }
    assert s == s[..i] + s[i..];
  }

  function Reverse<T>(s: seq<T>): (r: seq<T>)
    ensures |r| == |s| && forall i :: 0 <= i < |s| ==> r[i] == s[|s| - 1 - i]
  {
    if s == [] then [] else Reverse(s[1..]) + [s[0]]
  }

  function Flatten<T(!new)>(ss: seq<seq<T>>): (r: seq<T>)
    ensures forall x :: x in r <==> exists i :: 0 <= i < |ss| && x in ss[i]
  {
    if ss == [] then [] else
    var n := |ss| - 1;
    assert forall i :: 0 <= i < |ss| ==> i == n || ss[i] == ss[..n][i];
    Flatten(ss[..n]) + ss[n]
  }

  lemma Regroup<T>(a: seq<T>, b: seq<T>, c: seq<T>)
    ensures a + b + c == a + (b + c)
  {
  }
}
