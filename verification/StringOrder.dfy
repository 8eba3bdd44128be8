/** The byte-wise order of Go's sort.Strings, and the one sorted listing of a set of keys. */
module StringOrder {
  import opened Lists

  predicate Less(a: string, b: string) {
    b != "" && (a == "" || a[0] < b[0] || (a[0] == b[0] && Less(a[1..], b[1..])))
  }

  lemma {:induction false} LessTransitive(a: string, b: string, c: string)
    requires Less(a, b) && Less(b, c)
    ensures Less(a, c)
  {
    if a != "" && a[0] == b[0] && b[0] == c[0] {
      LessTransitive(a[1..], b[1..], c[1..]);
    }
  }

  lemma {:induction false} LessTotal(a: string, b: string)
    ensures a == b || Less(a, b) || Less(b, a)
    ensures !(Less(a, b) && Less(b, a)) && (Less(a, b) ==> a != b)
  {
    if a != "" && b != "" && a[0] == b[0] {
      LessTotal(a[1..], b[1..]);
      assert a == [a[0]] + a[1..] && b == [b[0]] + b[1..];
    }
  }

  /** The strings agree up to n, where the first one ends or has the smaller character. */
  predicate SmallerAt(a: string, b: string, n: nat) {
    n <= |a| && n < |b| && a[..n] == b[..n] && (n == |a| || a[n] < b[n])
  }

  lemma {:induction false} LessExactly(a: string, b: string)
    ensures Less(a, b) <==> exists n: nat :: SmallerAt(a, b, n)
  {
    if a == "" || b == "" || a[0] != b[0] {
      assert Less(a, b) ==> SmallerAt(a, b, 0);
      assert forall n: nat :: SmallerAt(a, b, n) && n > 0 ==> a[..n][0] == a[0] && b[..n][0] == b[0];
    } else {
      LessExactly(a[1..], b[1..]);
      assert !SmallerAt(a, b, 0);
      if n: nat :| SmallerAt(a, b, n) {
        SmallerNext(a, b, n - 1);
        assert SmallerAt(a[1..], b[1..], n - 1);
      }
      if n: nat :| SmallerAt(a[1..], b[1..], n) {
        SmallerNext(a, b, n);
        assert SmallerAt(a, b, n + 1);
      }
    }
  }

  lemma SmallerNext(a: string, b: string, n: nat)
    requires a != "" && b != "" && a[0] == b[0]
    ensures SmallerAt(a, b, n + 1) <==> SmallerAt(a[1..], b[1..], n)
  {
    if n <= |a| - 1 && n <= |b| - 1 {
      assert a[..n + 1] == [a[0]] + a[1..][..n] && b[..n + 1] == [b[0]] + b[1..][..n];
      assert a[..n + 1][1..] == a[1..][..n] && b[..n + 1][1..] == b[1..][..n];
    }
  }

  ghost predicate Increasing(s: seq<string>) {
    forall i, j :: 0 <= i < j < |s| ==> Less(s[i], s[j])
  }

  /** The keys, each once, smallest first. */
  ghost predicate SortedListing(s: seq<string>, keys: set<string>) {
    Increasing(s) && forall k :: k in s <==> k in keys
  }

  lemma IncreasingNoDup(s: seq<string>)
    requires Increasing(s)
    ensures NoDup(s)
  {
    forall i, j | 0 <= i < j < |s|
      ensures s[i] != s[j]
    {
      LessTotal(s[i], s[j]);
    }
  }

  /** No key of the listing is before its first. */
  lemma FirstIsLeast(s: seq<string>, keys: set<string>, k: string)
    requires SortedListing(s, keys) && s != [] && k in keys
    ensures k == s[0] || Less(s[0], k)
  {
    var i :| 0 <= i < |s| && s[i] == k;
  }

  lemma TailLists(s: seq<string>, keys: set<string>)
    requires SortedListing(s, keys) && s != []
    ensures SortedListing(s[1..], keys - {s[0]}) && s[0] in keys
  {
    var t := s[1..];
    assert s == [s[0]] + t;
    assert forall i, j :: 0 <= i < j < |t| ==> t[i] == s[i + 1] && t[j] == s[j + 1];
    IncreasingNoDup(s);
    assert forall i :: 0 <= i < |t| ==> t[i] == s[i + 1] && t[i] != s[0];
  }

  lemma NoKeys(s: seq<string>, keys: set<string>)
    requires SortedListing(s, keys)
    ensures s == [] <==> keys == {}
    ensures s != [] ==> s[0] in keys
  {
    if s != [] {
      assert s[0] in s;
    }
    if keys != {} {
      var k :| k in keys;
      assert k in s;
    }
  }

  /** There is only one listing. */
  lemma {:induction false} ListingUnique(s: seq<string>, t: seq<string>, keys: set<string>)
    requires SortedListing(s, keys) && SortedListing(t, keys)
    ensures s == t
  {
    NoKeys(s, keys);
    NoKeys(t, keys);
    if s != [] {
      FirstIsLeast(s, keys, t[0]);
      FirstIsLeast(t, keys, s[0]);
      LessTotal(s[0], t[0]);
      TailLists(s, keys);
      TailLists(t, keys);
      ListingUnique(s[1..], t[1..], keys - {s[0]});
      assert s == [s[0]] + s[1..] && t == [t[0]] + t[1..];
    }
  }

  method Insert(s: seq<string>, ghost keys: set<string>, x: string) returns (t: seq<string>)
    requires SortedListing(s, keys) && x !in keys
    ensures SortedListing(t, keys + {x})
  {
    var i := 0;
    while i < |s| && Less(s[i], x)
      invariant 0 <= i <= |s|
      invariant forall j :: 0 <= j < i ==> Less(s[j], x)
    {
      i := i + 1;
    }
    t := s[..i] + [x] + s[i..];
    InsertedAt(s, keys, i, x);
  }

  lemma InsertedAt(s: seq<string>, keys: set<string>, i: nat, x: string)
    requires SortedListing(s, keys) && x !in keys && i <= |s|
    requires forall j :: 0 <= j < i ==> Less(s[j], x)
    requires i < |s| ==> !Less(s[i], x)
    ensures SortedListing(s[..i] + [x] + s[i..], keys + {x})
  {
    forall j | i <= j < |s|
      ensures Less(x, s[j])
    {
      LessTotal(x, s[i]);
      assert s[i] in keys;
      if i < j {
        LessTransitive(x, s[i], s[j]);
      }
    }
    InsertPairwise(Less, s, i, x);
    assert s == s[..i] + s[i..];
  }

  /** sort.Strings over the keys of a map, gathered in whatever order it is iterated. */
  method SortedKeys(keys: set<string>) returns (s: seq<string>)
    ensures SortedListing(s, keys)
  {
    s := [];
    var rest := keys;
    while rest != {}
      invariant rest <= keys && SortedListing(s, keys - rest)
      decreases rest
    {
      var k :| k in rest;
      s := Insert(s, keys - rest, k);
      rest := rest - {k};
      assert keys - rest == keys - (rest + {k}) + {k};
    }
    assert keys - rest == keys;
  }

  /** That listing. */
  ghost function Listing(keys: set<string>): (s: seq<string>)
    ensures SortedListing(s, keys)
  {
    ListingExists(keys);
    var s :| SortedListing(s, keys);
    s
  }

  lemma {:induction false} ListingExists(keys: set<string>)
    ensures exists s :: SortedListing(s, keys)
    decreases keys
  {
    if keys == {} {
      assert SortedListing([], keys);
    } else {
      var k :| k in keys;
      ListingExists(keys - {k});
      var s :| SortedListing(s, keys - {k});
      var i := 0;
      while i < |s| && Less(s[i], k)
        invariant 0 <= i <= |s|
        invariant forall j :: 0 <= j < i ==> Less(s[j], k)
      {
        i := i + 1;
      }
      InsertedAt(s, keys - {k}, i, k);
      assert keys - {k} + {k} == keys;
    }
  }

  lemma IsListing(s: seq<string>, keys: set<string>)
    requires SortedListing(s, keys)
    ensures s == Listing(keys)
  {
    ListingUnique(s, Listing(keys), keys);
  }
}
