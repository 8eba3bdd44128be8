/** The least-recently-used strategy of oci/internal/cache/eviction.go: a map from key to list element, and the list. */
module Lru {
  import opened Lists

  /** The parts of a cache entry that the strategies read or write; time is in nanoseconds. */
  class Entry {
    const key: string
    const dataLength: nat
    const metadataLength: nat  // total length of the metadata keys and values
    const createdAt: int
    const ttl: int
    var accessedAt: int
    var accessCount: int

    constructor (key: string, dataLength: nat, metadataLength: nat, createdAt: int, ttl: int)
      ensures this.key == key && this.dataLength == dataLength && this.metadataLength == metadataLength
      ensures this.createdAt == createdAt && this.ttl == ttl
    {
      this.key := key;
      this.dataLength := dataLength;
      this.metadataLength := metadataLength;
      this.createdAt := createdAt;
      this.ttl := ttl;
    }

    method Stamp(now: int)
      modifies this
      ensures accessedAt == now && accessCount == old(accessCount) + 1
    {
      accessedAt := now;
      accessCount := accessCount + 1;
    }

    predicate IsExpired(now: int) {
      ttl > 0 && now - createdAt > ttl
    }

    /** Three integers, two times and the map overhead are counted besides the contents. */
    function Size(): nat {
      |key| + dataLength + metadataLength + 8 * 3 + 16 * 2 + 8
    }
  }

  /** A list element; its value is the key and the entry it was added with. */
  class Element {
    const key: string
    const entry: Entry?

    constructor (key: string, entry: Entry?)
      ensures this.key == key && this.entry == entry
    {
      this.key := key;
      this.entry := entry;
    }
  }

  function Keys(list: seq<Element>): (keys: seq<string>)
    ensures |keys| == |list| && forall i :: 0 <= i < |list| ==> keys[i] == list[i].key
  {
    if list == [] then [] else [list[0].key] + Keys(list[1..])
  }

  /** container/list: s without the element x. */
  function Without<T(==)>(s: seq<T>, x: T): seq<T> {
    if s == [] then [] else if s[0] == x then s[1..] else [s[0]] + Without(s[1..], x)
  }

  /******* The plain model: keys, most recently used first *******/

  datatype Op = Add(key: string) | Access(key: string) | Remove(key: string)

  function Step(order: seq<string>, op: Op): seq<string> {
    match op
    case Add(k) => if k in order then order else [k] + order
    case Access(k) => if k in order then [k] + Without(order, k) else order
    case Remove(k) => Without(order, k)
  }

  function Run(ops: seq<Op>): seq<string> {
    if ops == [] then [] else Step(Run(ops[..|ops| - 1]), ops[|ops| - 1])
  }

  /** Those of the keys that are present, in their order. */
  function Present(keys: seq<string>, present: set<string>): (r: seq<string>)
    ensures forall k :: k in r <==> k in keys && k in present
  {
    if keys == [] then []
    else
      var last, r := keys[|keys| - 1], Present(keys[..|keys| - 1], present);
      assert keys == keys[..|keys| - 1] + [last];
      if last in present then r + [last] else r
  }

  lemma PresentSnoc(keys: seq<string>, key: string, present: set<string>)
    ensures Present(keys + [key], present) == Present(keys, present) + if key in present then [key] else []
  {
    assert (keys + [key])[..|keys|] == keys;
  }

  /** The tracked keys among those present, least recently used first. */
  function Candidates(order: seq<string>, present: set<string>): seq<string> {
    Present(Reverse(order), present)
  }

  class LRUEviction {
    var entries: map<string, Element>
    var accessList: seq<Element>  // front first

    /** Map and list hold the same elements, each once. */
    ghost predicate Valid()
      reads this
    {
      && NoDup(Keys(accessList))
      && (forall e :: e in accessList ==> e.key in entries && entries[e.key] == e)
      && (forall k :: k in entries ==> entries[k].key == k && entries[k] in accessList)
    }

    ghost function Order(): seq<string>
      reads this
    {
      Keys(accessList)
    }

    constructor ()
      ensures Valid() && Order() == []
    {
      entries := map[];
      accessList := [];
    }

    /** The entry a key was added with. */
    function EntryOf(key: string): Entry?
      reads this
    {
      if key in entries then entries[key].entry else null
    }

    method OnAccess(entry: Entry, now: int)
      requires Valid()
      modifies `accessList, EntryOf(entry.key)
      ensures Valid() && entries == old(entries)
      ensures Order() == Step(old(Order()), Access(entry.key))
      ensures var tracked := old(EntryOf(entry.key));
              tracked != null ==> tracked.accessedAt == now && tracked.accessCount == old(EntryOf(entry.key).accessCount) + 1
    {
      var key := entry.key;
      TrackedIsListed(key);
      if key in entries {
        var elem := entries[key];
        MoveToFront(elem);
        if elem.entry != null {
          elem.entry.Stamp(now);
        }
      }
    }

    lemma TrackedIsListed(key: string)
      requires Valid()
      ensures key in entries <==> key in Order()
    {
      KeysMembers(accessList);
    }

    /** container/list MoveToFront. */
    method MoveToFront(elem: Element)
      requires Valid() && elem in accessList
      modifies `accessList
      ensures Valid()
      ensures Order() == [elem.key] + Without(old(Order()), elem.key)
    {
      WithoutKeys(accessList, elem);
      DistinctKeys(accessList);
      WithoutMembers(accessList, elem);
      WithoutMembers(Keys(accessList), elem.key);
      NoDupCons(elem.key, Without(Keys(accessList), elem.key));
      KeysCons(elem, Without(accessList, elem));
      accessList := [elem] + Without(accessList, elem);
    }

    /** For a key not yet tracked; for a tracked key the source locks its own mutex twice. */
    method OnAdd(entry: Entry)
      requires Valid() && entry.key !in entries
      modifies this
      ensures Valid() && entries.Keys == old(entries.Keys) + {entry.key}
      ensures fresh(entries[entry.key]) && entries[entry.key].entry == entry
      ensures forall k :: k in old(entries) ==> entries[k] == old(entries[k])
      ensures Order() == Step(old(Order()), Add(entry.key))
    {
      var key := entry.key;
      KeysMembers(accessList);
      var elem := new Element(key, entry);
      accessList := [elem] + accessList;
      entries := entries[key := elem];
    }

    method OnRemove(entry: Entry)
      requires Valid()
      modifies this
      ensures Valid() && entries == old(entries) - {entry.key}
      ensures Order() == Step(old(Order()), Remove(entry.key))
    {
      var key := entry.key;
      KeysMembers(accessList);
      if key in entries {
        var elem := entries[key];
        WithoutKeys(accessList, elem);
        DistinctKeys(accessList);
        WithoutMembers(accessList, elem);
        WithoutMembers(Keys(accessList), key);
        accessList := Without(accessList, elem);
        entries := entries - {key};
      } else {
        WithoutAbsent(Keys(accessList), key);
      }
    }

    method SelectForEviction(present: set<string>) returns (candidates: seq<string>)
      requires Valid()
      ensures candidates == Candidates(Order(), present)
    {
      candidates := [];
      ghost var seen: seq<string> := [];
      var i := |accessList|;
      while i > 0
        invariant 0 <= i <= |accessList| && |seen| == |accessList| - i
        invariant forall j :: 0 <= j < |seen| ==> seen[j] == accessList[|accessList| - 1 - j].key
        invariant candidates == Present(seen, present)
      {
        i := i - 1;
        var key := accessList[i].key;
        PresentSnoc(seen, key, present);
        seen := seen + [key];
        if key in present {
          candidates := candidates + [key];
        }
      }
      assert seen == Reverse(Order());
    }
  }

  /******* Lists of elements and lists of their keys *******/

  lemma KeysMembers(list: seq<Element>)
    ensures forall k :: k in Keys(list) <==> exists i :: 0 <= i < |list| && list[i].key == k
  {
  }

  lemma KeysCons(elem: Element, list: seq<Element>)
    ensures Keys([elem] + list) == [elem.key] + Keys(list)
  {
  }

  lemma {:induction false} WithoutMembers<T>(s: seq<T>, x: T)
    requires NoDup(s)
    ensures NoDup(Without(s, x))
    ensures forall y :: y in Without(s, x) <==> y in s && y != x
  {
    if s != [] {
      assert s == [s[0]] + s[1..];
      NoDupCons(s[0], s[1..]);
      WithoutMembers(s[1..], x);
      NoDupCons(s[0], Without(s[1..], x));
    }
  }

  lemma {:induction false} WithoutKeys(list: seq<Element>, elem: Element)
    requires NoDup(Keys(list)) && elem in list
    ensures Keys(Without(list, elem)) == Without(Keys(list), elem.key)
  {
    var head, tail := list[0], list[1..];
    assert list == [head] + tail && Keys(list) == [head.key] + Keys(tail);
    NoDupCons(head.key, Keys(tail));
    if head != elem {
      WithoutKeys(tail, elem);
      var i :| 0 <= i < |tail| && tail[i] == elem;
      assert Keys(tail)[i] == elem.key;
    }
  }

  lemma DistinctKeys(list: seq<Element>)
    requires NoDup(Keys(list))
    ensures NoDup(list)
  {
    assert forall i :: 0 <= i < |list| ==> Keys(list)[i] == list[i].key;
  }

  lemma {:induction false} WithoutAbsent<T>(s: seq<T>, x: T)
    requires x !in s
    ensures Without(s, x) == s
  {
    if s != [] {
      WithoutAbsent(s[1..], x);
    }
  }

  /******* Over whole runs *******/

  /** Every Add is of a key not tracked at that point. */
  predicate Legal(ops: seq<Op>) {
    forall i :: 0 <= i < |ops| && ops[i].Add? ==> ops[i].key !in Run(ops[..i])
  }

  /** The index of the last Add or Access of the key, or -1. */
  function LastTouch(ops: seq<Op>, key: string): (i: int)
    ensures -1 <= i < |ops|
  {
    if ops == [] then -1
    else
      var n := |ops| - 1;
      if ops[n].key == key && !ops[n].Remove? then n else LastTouch(ops[..n], key)
  }

  /** Added, and not removed since. */
  predicate Tracked(ops: seq<Op>, key: string) {
    exists i :: 0 <= i < |ops| && ops[i] == Add(key) && forall j :: i < j < |ops| ==> ops[j] != Remove(key)
  }

  predicate ByRecency(ops: seq<Op>, order: seq<string>) {
    forall i, j :: 0 <= i < j < |order| ==> LastTouch(ops, order[i]) > LastTouch(ops, order[j])
  }

  lemma {:induction false} WithoutKeepsRecency(ops: seq<Op>, order: seq<string>, key: string)
    requires NoDup(order) && ByRecency(ops, order)
    ensures ByRecency(ops, Without(order, key))
  {
    if order != [] {
      WithoutMembers(order[1..], key);
      WithoutKeepsRecency(ops, order[1..], key);
      var rest := Without(order[1..], key);
      forall j | 0 <= j < |rest|
        ensures LastTouch(ops, order[0]) > LastTouch(ops, rest[j])
      {
        assert rest[j] in rest;
        var i :| 0 <= i < |order[1..]| && order[1..][i] == rest[j];
        assert order[i + 1] == rest[j];
      }
    }
  }

  lemma TrackedStep(ops: seq<Op>, op: Op, key: string)
    ensures Tracked(ops + [op], key) <==> op == Add(key) || (op != Remove(key) && Tracked(ops, key))
  {
    var all := ops + [op];
    if Tracked(ops, key) && op != Remove(key) {
      var i :| 0 <= i < |ops| && ops[i] == Add(key) && forall j :: i < j < |ops| ==> ops[j] != Remove(key);
      assert all[i] == Add(key) && forall j :: i < j < |all| ==> all[j] != Remove(key);
    }
    if op == Add(key) {
      assert all[|ops|] == Add(key);
    }
    if Tracked(all, key) && op != Add(key) {
      var i :| 0 <= i < |all| && all[i] == Add(key) && forall j :: i < j < |all| ==> all[j] != Remove(key);
      assert ops[i] == Add(key) && forall j :: i < j < |ops| ==> ops[j] == all[j];
      assert all[|ops|] == op;
    }
  }

  lemma TouchLater(ops: seq<Op>, op: Op, order: seq<string>)
    requires ByRecency(ops, order) && (op.Remove? || op.key !in order)
    ensures ByRecency(ops + [op], order)
    ensures !op.Remove? ==> ByRecency(ops + [op], [op.key] + order)
  {
    var all := ops + [op];
    assert all[..|ops|] == ops;
    forall i | 0 <= i < |order|
      ensures LastTouch(all, order[i]) == LastTouch(ops, order[i])
    {
      assert order[i] in order;
    }
  }

  lemma StepKeepsRecency(ops: seq<Op>, op: Op)
    requires var order := Run(ops);
             NoDup(order) && ByRecency(ops, order) && (op.Add? ==> op.key !in order)
    ensures var order := Run(ops + [op]);
            NoDup(order) && ByRecency(ops + [op], order)
    ensures forall k :: k in Run(ops + [op]) <==> (op.Add? && k == op.key) || (k in Run(ops) && op != Remove(k))
  {
    assert (ops + [op])[..|ops|] == ops;
    var order := Run(ops);
    var rest := Without(order, op.key);
    WithoutMembers(order, op.key);
    WithoutKeepsRecency(ops, order, op.key);
    if op.key !in order {
      WithoutAbsent(order, op.key);
    }
    TouchLater(ops, op, rest);
    NoDupCons(op.key, rest);
  }

  /** In any run the list holds exactly the tracked keys, once each, last touched first. */
  lemma {:induction false} OrderIsRecency(ops: seq<Op>)
    requires Legal(ops)
    ensures NoDup(Run(ops)) && ByRecency(ops, Run(ops))
    ensures forall k :: k in Run(ops) <==> Tracked(ops, k)
  {
    if ops == [] {
      return;
    }
    var n := |ops| - 1;
    var front, op := ops[..n], ops[n];
    assert ops == front + [op];
    assert forall i :: 0 <= i < n ==> ops[..i] == front[..i];
    assert ops[..n] == front;
    assert Legal(front);
    OrderIsRecency(front);
    StepKeepsRecency(front, op);
    forall k
      ensures k in Run(ops) <==> Tracked(ops, k)
    {
      TrackedStep(front, op, k);
    }
  }

  /** Selection offers exactly the tracked keys still present, each once, the longest untouched first. */
  lemma SelectionIsOldestFirst(ops: seq<Op>, present: set<string>)
    requires Legal(ops)
    ensures var picks := Candidates(Run(ops), present);
            && NoDup(picks)
            && (forall k :: k in picks <==> Tracked(ops, k) && k in present)
            && forall i, j :: 0 <= i < j < |picks| ==> LastTouch(ops, picks[i]) < LastTouch(ops, picks[j])
  {
    OrderIsRecency(ops);
    var order := Run(ops);
    var older := (a: string, b: string) => a != b && LastTouch(ops, a) < LastTouch(ops, b);
    var back := Reverse(order);
    assert Pairwise(older, back);
    PresentPairwise(older, back, present);
    ReverseMembers(order);
    var picks := Candidates(order, present);
    assert forall i, j :: 0 <= i < j < |picks| ==> older(picks[i], picks[j]);
  }

  lemma {:induction false} PresentPairwise(related: (string, string) -> bool, keys: seq<string>, present: set<string>)
    requires Pairwise(related, keys)
    ensures Pairwise(related, Present(keys, present))
  {
    if keys != [] {
      var front := keys[..|keys| - 1];
      PresentPairwise(related, front, present);
      forall x | x in Present(front, present)
        ensures related(x, keys[|keys| - 1])
      {
        var i :| 0 <= i < |front| && front[i] == x;
        assert keys[i] == x;
      }
      assert forall i :: 0 <= i < |Present(front, present)| ==> Present(front, present)[i] in Present(front, present);
    }
  }

  lemma ReverseMembers(s: seq<string>)
    ensures forall k :: k in Reverse(s) <==> k in s
  {
    assert forall i :: 0 <= i < |s| ==> Reverse(s)[|s| - 1 - i] == s[i];
  }
}
