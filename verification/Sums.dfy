/** Sums of a map's values over sets of its keys. */
module Sums {
  import opened Lists

  type Sizes = map<string, nat>

  ghost function SumOf(sizes: Sizes, keys: set<string>): nat
    requires keys <= sizes.Keys
  {
    if keys == {} then 0
    else
      var k :| k in keys;
      sizes[k] + SumOf(sizes, keys - {k})
  }

  lemma {:induction false} SumRemove(sizes: Sizes, keys: set<string>, x: string)
    requires keys <= sizes.Keys && x in keys
    ensures SumOf(sizes, keys) == sizes[x] + SumOf(sizes, keys - {x})
  {
    var k :| k in keys && SumOf(sizes, keys) == sizes[k] + SumOf(sizes, keys - {k});
    if k != x {
      SumRemove(sizes, keys - {k}, x);
      SumRemove(sizes, keys - {x}, k);
      assert keys - {k} - {x} == keys - {x} - {k};
    }
  }

  lemma SumAdd(sizes: Sizes, keys: set<string>, x: string)
    requires keys <= sizes.Keys && x in sizes && x !in keys
    ensures SumOf(sizes, keys + {x}) == SumOf(sizes, keys) + sizes[x]
  {
    SumRemove(sizes, keys + {x}, x);
    assert keys + {x} - {x} == keys;
  }

  lemma {:induction false} SumSplit(sizes: Sizes, part: set<string>)
    requires part <= sizes.Keys
    ensures SumOf(sizes, sizes.Keys) == SumOf(sizes, part) + SumOf(sizes, sizes.Keys - part)
    decreases part
  {
    if part == {} {
      assert sizes.Keys - part == sizes.Keys;
    } else {
      var k :| k in part;
      SumSplit(sizes, part - {k});
      SumRemove(sizes, part, k);
      SumRemove(sizes, sizes.Keys - (part - {k}), k);
      assert sizes.Keys - (part - {k}) - {k} == sizes.Keys - part;
    }
  }

  ghost predicate LargestFirst(sizes: Sizes, s: seq<string>)
    requires ToSet(s) <= sizes.Keys
  {
    forall i, j :: 0 <= i < j < |s| ==> sizes[s[i]] >= sizes[s[j]]
  }

  lemma FirstOf(sizes: Sizes, order: seq<string>, m: nat)
    requires NoDup(order) && ToSet(order) <= sizes.Keys && LargestFirst(sizes, order) && 0 < m <= |order|
    ensures var a, rest := order[0], order[1..];
            && NoDup(rest) && ToSet(rest) <= sizes.Keys && LargestFirst(sizes, rest)
            && ToSet(rest) == ToSet(order) - {a}
            && ToSet(order[..m]) == ToSet(rest[..m - 1]) + {a} && a !in ToSet(rest[..m - 1])
    ensures forall k :: k in order ==> sizes[k] <= sizes[order[0]]
  {
    var a, rest := order[0], order[1..];
    assert order == [a] + rest;
    NoDupCons(a, rest);
    assert order[..m] == [a] + rest[..m - 1];
  }

  lemma TopSumStep(sizes: Sizes, order: seq<string>, m: nat, other: set<string>, x: string)
    requires NoDup(order) && ToSet(order) <= sizes.Keys && LargestFirst(sizes, order)
    requires other <= ToSet(order) && x in other && 0 < m <= |order|
    requires ToSet(order[1..][..m - 1]) <= sizes.Keys
    requires SumOf(sizes, other - {x}) <= SumOf(sizes, ToSet(order[1..][..m - 1]))
    ensures SumOf(sizes, other) <= SumOf(sizes, ToSet(order[..m]))
  {
    FirstOf(sizes, order, m);
    SumAdd(sizes, ToSet(order[1..][..m - 1]), order[0]);
    SumRemove(sizes, other, x);
  }

  lemma OneFewer(keys: set<string>, x: string)
    requires x in keys
    ensures |keys - {x}| == |keys| - 1
  {
  }

  /** No m keys weigh more together than the first m in largest-first order. */
  lemma {:induction false} TopSum(sizes: Sizes, order: seq<string>, m: nat, other: set<string>)
    requires NoDup(order) && ToSet(order) <= sizes.Keys && LargestFirst(sizes, order)
    requires other <= ToSet(order) && |other| <= m <= |order|
    ensures SumOf(sizes, other) <= SumOf(sizes, ToSet(order[..m]))
    decreases |order|
  {
    if other != {} {
      FirstOf(sizes, order, m);
      var x: string := order[0];
      if x !in other {
        x :| x in other;
      }
      OneFewer(other, x);
      assert other - {x} <= ToSet(order[1..]);
      TopSum(sizes, order[1..], m - 1, other - {x});
      TopSumStep(sizes, order, m, other, x);
    }
  }
}
