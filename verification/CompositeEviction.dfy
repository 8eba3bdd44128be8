/** The composite strategy of oci/internal/cache/eviction.go. */
module CompositeEviction {
  import opened Lists

  /** One strategy with its priority; the strategy is represented by what it selects from the entries at hand. */
  datatype Prioritised = Prioritised(picks: seq<string>, priority: int)

  function AllPicks(pairs: seq<Prioritised>): (r: seq<string>)
    ensures forall k :: k in r <==> exists i :: 0 <= i < |pairs| && k in pairs[i].picks
  {
    if pairs == [] then [] else
    var n := |pairs| - 1;
    assert forall i :: 0 <= i < |pairs| ==> i == n || pairs[i] == pairs[..n][i];
    AllPicks(pairs[..n]) + pairs[n].picks
  }

  ghost predicate ByPriority(pairs: seq<Prioritised>) {
    Pairwise((a: Prioritised, b: Prioritised) => a.priority <= b.priority, pairs)
  }

  /** sort.Slice by priority: some sorted reordering of the pairs. */
  method SortPairs(pairs: seq<Prioritised>) returns (sorted: seq<Prioritised>)
    ensures multiset(sorted) == multiset(pairs) && ByPriority(sorted)
  {
    sorted := [];
    for i := 0 to |pairs|
      invariant multiset(sorted) == multiset(pairs[..i]) && ByPriority(sorted)
    {
      assert pairs[..i + 1] == pairs[..i] + [pairs[i]];
      sorted := Insert(sorted, pairs[i]);
    }
    assert pairs[..|pairs|] == pairs;
  }

  method Insert(s: seq<Prioritised>, x: Prioritised) returns (t: seq<Prioritised>)
    requires ByPriority(s)
    ensures multiset(t) == multiset(s) + multiset{x} && ByPriority(t)
  {
    var i := 0;
    while i < |s| && s[i].priority <= x.priority
      invariant 0 <= i <= |s|
      invariant forall j :: 0 <= j < i ==> s[j].priority <= x.priority
    {
      i := i + 1;
    }
    var inOrder := (a: Prioritised, b: Prioritised) => a.priority <= b.priority;
    assert forall j :: i < j < |s| ==> inOrder(s[i], s[j]);
    InsertPairwise(inOrder, s, i, x);
    t := s[..i] + [x] + s[i..];
  }

  class CompositeEviction {
    const strategies: seq<seq<string>>  // what each strategy selects
    const priorities: seq<int>          // lower number, higher priority

    /** The constructor of the source panics on different lengths. */
    constructor (strategies: seq<seq<string>>, priorities: seq<int>)
      requires |strategies| == |priorities|
      ensures this.strategies == strategies && this.priorities == priorities
    {
      this.strategies := strategies;
      this.priorities := priorities;
    }

    method SelectForEviction() returns (result: seq<string>)
      requires |strategies| == |priorities|
      ensures exists pairs :: Arranged(strategies, priorities, pairs) && result == Dedup(AllPicks(pairs))
    {
      var pairs: seq<Prioritised> := [];
      for i := 0 to |strategies|
        invariant pairs == Paired(strategies, priorities)[..i]
      {
        pairs := pairs + [Prioritised(strategies[i], priorities[i])];
      }
      assert pairs == Paired(strategies, priorities);
      pairs := SortPairs(pairs);
      result := Merge(pairs);
    }
  }

  /** The `selected` map of the source has the keys of the result. */
  ghost predicate Holds(selected: set<string>, result: seq<string>) {
    forall k :: k in selected <==> k in result
  }

  /** The picks of all pairs in order, each key where it first comes. */
  method Merge(pairs: seq<Prioritised>) returns (result: seq<string>)
    ensures result == Dedup(AllPicks(pairs))
  {
    var selected: set<string> := {};
    result := [];
    for i := 0 to |pairs|
      invariant result == Dedup(AllPicks(pairs[..i]))
      invariant Holds(selected, result)
    {
      result, selected := MergePicks(AllPicks(pairs[..i]), pairs[i].picks, result, selected);
      assert pairs[..i + 1][..i] == pairs[..i];
    }
    assert pairs[..|pairs|] == pairs;
  }

  method MergePicks(ghost before: seq<string>, candidates: seq<string>, result0: seq<string>, selected0: set<string>)
    returns (result: seq<string>, selected: set<string>)
    requires result0 == Dedup(before) && Holds(selected0, result0)
    ensures result == Dedup(before + candidates) && Holds(selected, result)
  {
    result, selected := result0, selected0;
    ghost var merged := before;
    for j := 0 to |candidates|
      invariant merged == before + candidates[..j] && result == Dedup(merged)
      invariant Holds(selected, result)
    {
      var key := candidates[j];
      DedupSnoc(merged, key);
      merged := merged + [key];
      if key !in selected {
        selected := selected + {key};
        result := result + [key];
      }
    }
    assert merged == before + candidates;
  }

  function Paired(strategies: seq<seq<string>>, priorities: seq<int>): (pairs: seq<Prioritised>)
    requires |strategies| == |priorities|
  {
    seq(|strategies|, i requires 0 <= i < |strategies| => Prioritised(strategies[i], priorities[i]))
  }

  /** The strategies with their priorities, in an order that no priority contradicts. */
  ghost predicate Arranged(strategies: seq<seq<string>>, priorities: seq<int>, pairs: seq<Prioritised>)
    requires |strategies| == |priorities|
  {
    multiset(pairs) == multiset(Paired(strategies, priorities)) && ByPriority(pairs)
  }

  /** The composite offers each key that some strategy picks, once. */
  lemma CompositeIsUnion(strategies: seq<seq<string>>, priorities: seq<int>, pairs: seq<Prioritised>)
    requires |strategies| == |priorities| && Arranged(strategies, priorities, pairs)
    ensures var result := Dedup(AllPicks(pairs));
            NoDup(result) && forall k :: k in result <==> exists i :: 0 <= i < |strategies| && k in strategies[i]
  {
    var paired, result := Paired(strategies, priorities), Dedup(AllPicks(pairs));
    forall k
      ensures k in result <==> exists i :: 0 <= i < |strategies| && k in strategies[i]
    {
      if k in result {
        var j :| 0 <= j < |pairs| && k in pairs[j].picks;
        assert pairs[j] in multiset(pairs);
        var i :| 0 <= i < |paired| && paired[i] == pairs[j];
        assert k in strategies[i];
      }
      if i :| 0 <= i < |strategies| && k in strategies[i] {
        assert paired[i] in multiset(paired);
        var j :| 0 <= j < |pairs| && pairs[j] == paired[i];
        assert k in pairs[j].picks;
      }
    }
  }

  ghost predicate Highest(priorities: seq<int>, top: nat) {
    top < |priorities| && forall i :: 0 <= i < |priorities| ==> priorities[top] <= priorities[i]
  }

  /** The result begins with the picks of a strategy that no other one outranks, each once, in their order. */
  lemma CompositeBeginsWith(strategies: seq<seq<string>>, priorities: seq<int>, pairs: seq<Prioritised>) returns (top: nat)
    requires |strategies| == |priorities| > 0 && Arranged(strategies, priorities, pairs)
    ensures Highest(priorities, top) && Dedup(strategies[top]) <= Dedup(AllPicks(pairs))
  {
    var paired := Paired(strategies, priorities);
    assert |multiset(pairs)| == |multiset(paired)|;
    assert pairs[0] in multiset(paired);
    top :| 0 <= top < |paired| && paired[top] == pairs[0];
    FirstIsHighest(paired, pairs);
    assert forall i :: 0 <= i < |priorities| ==> priorities[i] == paired[i].priority;
    AllPicksStart(pairs);
    var first, all := strategies[top], AllPicks(pairs);
    assert all == first + all[|first|..];
    DedupStart(first, all[|first|..]);
  }

  lemma FirstIsHighest(paired: seq<Prioritised>, pairs: seq<Prioritised>)
    requires multiset(pairs) == multiset(paired) && ByPriority(pairs) && pairs != []
    ensures forall i :: 0 <= i < |paired| ==> pairs[0].priority <= paired[i].priority
  {
    forall i | 0 <= i < |paired|
      ensures pairs[0].priority <= paired[i].priority
    {
      assert paired[i] in multiset(paired);
      var j :| 0 <= j < |pairs| && pairs[j] == paired[i];
      var inOrder := (a: Prioritised, b: Prioritised) => a.priority <= b.priority;
      assert j > 0 ==> inOrder(pairs[0], pairs[j]);
    }
  }

  lemma AllPicksStart(pairs: seq<Prioritised>)
    requires pairs != []
    ensures pairs[0].picks <= AllPicks(pairs)
  {
    AllPicksPrefix(pairs, 1);
    assert pairs[..1] == [pairs[0]] && pairs[..1][..0] == [];
    assert AllPicks(pairs[..1]) == [] + pairs[0].picks;
  }

  /** Of two keys, the one that some strategy of higher priority picks, and no other earlier, is offered first. */
  lemma CompositeOrder(pairs: seq<Prioritised>, m: nat, a: string, b: string)
    requires m <= |pairs| && a in AllPicks(pairs[..m]) && b !in AllPicks(pairs[..m]) && b in AllPicks(pairs)
    ensures var result := Dedup(AllPicks(pairs));
            FirstIndex(result, a) < FirstIndex(result, b)
  {
    AllPicksPrefix(pairs, m);
    var front, all := AllPicks(pairs[..m]), AllPicks(pairs);
    FirstIndexPrefix(front, all, a);
    FirstIndexPrefix(front, all, b);
    DedupFirst(all, a, b);
  }

  lemma {:induction false} AllPicksPrefix(pairs: seq<Prioritised>, m: nat)
    requires m <= |pairs|
    ensures AllPicks(pairs[..m]) <= AllPicks(pairs)
    decreases |pairs| - m
  {
    if m < |pairs| {
      AllPicksPrefix(pairs, m + 1);
      assert pairs[..m + 1][..m] == pairs[..m];
    } else {
      assert pairs[..m] == pairs;
    }
  }
}
