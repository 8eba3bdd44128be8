/** The size-based strategy of oci/internal/cache/eviction.go: expired entries first, then the largest, until enough is freed. */
module SizeEviction {
  import opened Lists
  import opened Lru
  import opened Sums

  type Entries = map<string, Entry>

  ghost function SizesOf(entries: Entries): (sizes: Sizes)
    ensures sizes.Keys == entries.Keys
  {
    map k | k in entries :: entries[k].Size()
  }

  /** The total size of some of the entries. */
  ghost function SizeOf(entries: Entries, keys: set<string>): nat
    requires keys <= entries.Keys
  {
    SumOf(SizesOf(entries), keys)
  }

  /** The comparator of the sort: expired entries before the others, larger ones before smaller ones. */
  predicate Before(entries: Entries, now: int, a: string, b: string)
    requires a in entries && b in entries
  {
    var expiredA, expiredB := entries[a].IsExpired(now), entries[b].IsExpired(now);
    if expiredA != expiredB then expiredA else entries[a].Size() > entries[b].Size()
  }

  ghost predicate Sorted(entries: Entries, now: int, s: seq<string>)
    requires ToSet(s) <= entries.Keys
  {
    forall i, j :: 0 <= i < j < |s| ==> !Before(entries, now, s[j], s[i])
  }

  /** sort.Slice: some reordering in which no element is before an earlier one; how ties fall is not promised. */
  method SortCandidates(entries: Entries, now: int, candidates: seq<string>) returns (sorted: seq<string>)
    requires NoDup(candidates) && ToSet(candidates) <= entries.Keys
    ensures NoDup(sorted) && ToSet(sorted) == ToSet(candidates) && Sorted(entries, now, sorted)
  {
    sorted := [];
    for i := 0 to |candidates|
      invariant ToSet(sorted) == ToSet(candidates[..i])
      invariant NoDup(sorted) && Sorted(entries, now, sorted)
    {
      assert candidates[..i + 1] == candidates[..i] + [candidates[i]];
      assert candidates[i] !in candidates[..i];
      sorted := Insert(entries, now, sorted, candidates[i]);
    }
    assert candidates[..|candidates|] == candidates;
  }

  method Insert(entries: Entries, now: int, s: seq<string>, x: string) returns (t: seq<string>)
    requires NoDup(s) && ToSet(s) <= entries.Keys && x in entries && x !in s && Sorted(entries, now, s)
    ensures NoDup(t) && ToSet(t) == ToSet(s) + {x} && Sorted(entries, now, t)
  {
    var i := 0;
    while i < |s| && !Before(entries, now, x, s[i])
      invariant 0 <= i <= |s|
      invariant forall j :: 0 <= j < i ==> !Before(entries, now, x, s[j])
    {
      i := i + 1;
    }
    forall j | i <= j < |s|
      ensures !Before(entries, now, s[j], x)
    {
      assert i < j ==> !Before(entries, now, s[j], s[i]);
    }
    t := s[..i] + [x] + s[i..];
    Inserted(entries, now, s, i, x);
  }

  lemma Inserted(entries: Entries, now: int, s: seq<string>, i: nat, x: string)
    requires NoDup(s) && ToSet(s) <= entries.Keys && x in entries && x !in s && Sorted(entries, now, s) && i <= |s|
    requires forall j :: 0 <= j < i ==> !Before(entries, now, x, s[j])
    requires forall j :: i <= j < |s| ==> !Before(entries, now, s[j], x)
    ensures var t := s[..i] + [x] + s[i..];
            NoDup(t) && ToSet(t) == ToSet(s) + {x} && Sorted(entries, now, t)
  {
    var fine := (a: string, b: string) => a != b && a in entries && b in entries && !Before(entries, now, b, a);
    assert Pairwise(fine, s);
    InsertPairwise(fine, s, i, x);
    var t := s[..i] + [x] + s[i..];
    assert forall a, b :: 0 <= a < b < |t| ==> fine(t[a], t[b]);
    assert s == s[..i] + s[i..];
    assert forall k :: k in t <==> k in s || k == x;
  }

  class SizeEviction {
    const maxSizeBytes: int

    constructor (maxSizeBytes: int)
      ensures this.maxSizeBytes == maxSizeBytes
    {
      this.maxSizeBytes := maxSizeBytes;
    }

    method SelectForEviction(entries: Entries, now: int) returns (selected: seq<string>)
      ensures InOrder(entries, now, selected)
      ensures JustEnough(entries, maxSizeBytes, selected)
      ensures (forall k :: k in entries ==> !Over(entries[k], now)) ==> Fewest(entries, maxSizeBytes, selected)
    {
      var totalSize, candidates := Gather(entries);
      if totalSize <= maxSizeBytes {
        NothingToFree(entries, now, maxSizeBytes);
        return [];
      }
      candidates := SortCandidates(entries, now, candidates);
      var bytesToFree := totalSize - maxSizeBytes;
      selected := PickUntilFreed(entries, candidates, bytesToFree);
      FirstOfCandidates(entries, now, candidates, selected);
      EnoughOfCandidates(entries, maxSizeBytes, candidates, selected);
      FewestOfCandidates(entries, now, maxSizeBytes, candidates, selected);
    }
  }

  /** The first loop, in whatever order the map is iterated. */
  method Gather(entries: Entries) returns (totalSize: int, candidates: seq<string>)
    ensures totalSize == SizeOf(entries, entries.Keys)
    ensures NoDup(candidates) && ToSet(candidates) == entries.Keys
  {
    candidates := [];
    totalSize := 0;
    var todo := entries.Keys;
    while todo != {}
      invariant todo <= entries.Keys
      invariant NoDup(candidates) && ToSet(candidates) == entries.Keys - todo
      invariant totalSize + SizeOf(entries, todo) == SizeOf(entries, entries.Keys)
      decreases todo
    {
      var key :| key in todo;
      SumRemove(SizesOf(entries), todo, key);
      totalSize := totalSize + entries[key].Size();
      candidates := candidates + [key];
      todo := todo - {key};
    }
  }

  /** The shortest run of candidates that frees enough, or all of them. */
  ghost predicate Freed(entries: Entries, candidates: seq<string>, bytesToFree: int, selected: seq<string>)
    requires ToSet(candidates) <= entries.Keys
  {
    && selected <= candidates
    && (selected == candidates || SizeOf(entries, ToSet(selected)) >= bytesToFree)
    && (selected != [] ==> SizeOf(entries, ToSet(candidates[..|selected| - 1])) < bytesToFree)
  }

  /** The last loop. */
  method PickUntilFreed(entries: Entries, candidates: seq<string>, bytesToFree: int) returns (selected: seq<string>)
    requires NoDup(candidates) && ToSet(candidates) <= entries.Keys
    ensures Freed(entries, candidates, bytesToFree, selected)
  {
    selected := [];
    var freedBytes := 0;
    for n := 0 to |candidates|
      invariant selected == candidates[..n]
      invariant freedBytes == SizeOf(entries, ToSet(candidates[..n]))
      invariant n > 0 ==> SizeOf(entries, ToSet(candidates[..n - 1])) < bytesToFree
    {
      if freedBytes >= bytesToFree {
        break;
      }
      var key := candidates[n];
      SizeAdd(entries, candidates, n);
      selected := selected + [key];
      freedBytes := freedBytes + entries[key].Size();
    }
  }

  /** Its time to live has passed, if it has one. */
  predicate Over(e: Entry, now: int) {
    e.ttl > 0 && now - e.createdAt > e.ttl
  }

  /** One entry may come before another: what is not over never before what is, and among equals never the smaller one. */
  predicate Sooner(a: Entry, b: Entry, now: int) {
    (Over(b, now) ==> Over(a, now)) && ((Over(a, now) <==> Over(b, now)) ==> a.Size() >= b.Size())
  }

  /** The picks are distinct and come first in an expired-first, largest-first order of all keys. */
  ghost predicate InOrder(entries: Entries, now: int, selected: seq<string>) {
    && NoDup(selected) && ToSet(selected) <= entries.Keys
    && (forall i, j :: 0 <= i < j < |selected| ==> Sooner(entries[selected[i]], entries[selected[j]], now))
    && (forall a, b :: a in selected && b in entries.Keys - ToSet(selected) ==> Sooner(entries[a], entries[b], now))
  }

  /** What is left fits, unless nothing is left, and would not fit had the last pick been kept. */
  ghost predicate JustEnough(entries: Entries, limit: int, selected: seq<string>) {
    && (SizeOf(entries, entries.Keys - ToSet(selected)) <= limit || ToSet(selected) == entries.Keys)
    && (selected != [] ==> SizeOf(entries, entries.Keys - ToSet(selected[..|selected| - 1])) > limit)
  }

  /** No smaller set of keys frees enough. */
  ghost predicate Fewest(entries: Entries, limit: int, selected: seq<string>) {
    forall other :: other <= entries.Keys && SizeOf(entries, entries.Keys - other) <= limit ==> |selected| <= |other|
  }

  ghost predicate AllSorted(entries: Entries, now: int, candidates: seq<string>) {
    NoDup(candidates) && ToSet(candidates) == entries.Keys && Sorted(entries, now, candidates)
  }

  lemma SizeAdd(entries: Entries, candidates: seq<string>, n: nat)
    requires NoDup(candidates) && ToSet(candidates) <= entries.Keys && n < |candidates|
    ensures SizeOf(entries, ToSet(candidates[..n + 1])) == SizeOf(entries, ToSet(candidates[..n])) + entries[candidates[n]].Size()
  {
    var key := candidates[n];
    assert candidates[..n + 1] == candidates[..n] + [key];
    assert key !in candidates[..n];
    assert ToSet(candidates[..n + 1]) == ToSet(candidates[..n]) + {key};
    SumAdd(SizesOf(entries), ToSet(candidates[..n]), key);
  }

  lemma SizeSplit(entries: Entries, part: set<string>)
    requires part <= entries.Keys
    ensures SizeOf(entries, entries.Keys) == SizeOf(entries, part) + SizeOf(entries, entries.Keys - part)
  {
    SumSplit(SizesOf(entries), part);
  }

  lemma NothingToFree(entries: Entries, now: int, limit: int)
    requires SizeOf(entries, entries.Keys) <= limit
    ensures InOrder(entries, now, []) && JustEnough(entries, limit, []) && Fewest(entries, limit, [])
  {
    assert entries.Keys - ToSet<string>([]) == entries.Keys;
  }

  lemma FirstOfCandidates(entries: Entries, now: int, candidates: seq<string>, selected: seq<string>)
    requires AllSorted(entries, now, candidates) && selected <= candidates
    ensures InOrder(entries, now, selected)
  {
    assert selected == candidates[..|selected|];
    SelectedFirst(entries, now, candidates, |selected|);
  }

  lemma EnoughOfCandidates(entries: Entries, limit: int, candidates: seq<string>, selected: seq<string>)
    requires ToSet(candidates) == entries.Keys
    requires Freed(entries, candidates, SizeOf(entries, entries.Keys) - limit, selected)
    ensures JustEnough(entries, limit, selected)
  {
    assert selected == candidates[..|selected|];
    SelectedEnough(entries, limit, candidates, |selected|);
  }

  lemma FewestOfCandidates(entries: Entries, now: int, limit: int, candidates: seq<string>, selected: seq<string>)
    requires AllSorted(entries, now, candidates)
    requires Freed(entries, candidates, SizeOf(entries, entries.Keys) - limit, selected)
    ensures (forall k :: k in entries ==> !Over(entries[k], now)) ==> Fewest(entries, limit, selected)
  {
    assert selected == candidates[..|selected|];
    SelectedFewest(entries, now, limit, candidates, |selected|);
  }

  lemma SelectedFirst(entries: Entries, now: int, candidates: seq<string>, n: nat)
    requires AllSorted(entries, now, candidates) && n <= |candidates|
    ensures InOrder(entries, now, candidates[..n])
  {
    var selected, rest := candidates[..n], candidates[n..];
    assert candidates == selected + rest;
    forall a, b | a in selected && b in entries.Keys - ToSet(selected)
      ensures Sooner(entries[a], entries[b], now)
    {
      var i :| 0 <= i < n && selected[i] == a;
      assert b in candidates;
      var j :| 0 <= j < |rest| && rest[j] == b;
      assert candidates[n + j] == b;
    }
  }

  lemma SelectedEnough(entries: Entries, limit: int, candidates: seq<string>, n: nat)
    requires ToSet(candidates) == entries.Keys && n <= |candidates|
    requires n > 0 ==> SizeOf(entries, ToSet(candidates[..n - 1])) < SizeOf(entries, entries.Keys) - limit
    requires n == |candidates| || SizeOf(entries, ToSet(candidates[..n])) >= SizeOf(entries, entries.Keys) - limit
    ensures JustEnough(entries, limit, candidates[..n])
  {
    var selected := candidates[..n];
    SizeSplit(entries, ToSet(selected));
    if n == |candidates| {
      assert selected == candidates;
    }
    if n > 0 {
      assert selected[..n - 1] == candidates[..n - 1];
      SizeSplit(entries, ToSet(candidates[..n - 1]));
    }
  }

  lemma SelectedFewest(entries: Entries, now: int, limit: int, candidates: seq<string>, n: nat)
    requires AllSorted(entries, now, candidates) && n <= |candidates|
    requires n > 0 ==> SizeOf(entries, ToSet(candidates[..n - 1])) < SizeOf(entries, entries.Keys) - limit
    ensures (forall k :: k in entries ==> !Over(entries[k], now)) ==> Fewest(entries, limit, candidates[..n])
  {
    if n > 0 && forall k :: k in entries ==> !Over(entries[k], now) {
      assert LargestFirst(SizesOf(entries), candidates);
      forall other | other <= entries.Keys && SizeOf(entries, entries.Keys - other) <= limit
        ensures n <= |other|
      {
        FewerFreeLess(entries, limit, candidates, n, other);
      }
    }
  }

  lemma FewerFreeLess(entries: Entries, limit: int, candidates: seq<string>, n: nat, other: set<string>)
    requires NoDup(candidates) && ToSet(candidates) == entries.Keys && LargestFirst(SizesOf(entries), candidates)
    requires 0 < n <= |candidates| && other <= entries.Keys
    requires SizeOf(entries, ToSet(candidates[..n - 1])) < SizeOf(entries, entries.Keys) - limit
    ensures SizeOf(entries, entries.Keys - other) <= limit ==> n <= |other|
  {
    SizeSplit(entries, other);
    if |other| <= n - 1 {
      TopSum(SizesOf(entries), candidates, n - 1, other);
    }
  }
}
