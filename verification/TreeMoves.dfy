/** Moving one tree into another, by where things really are (oci/client.go). */
module TreeMoves {
  import opened LinkTree
  import opened TreeFs

  /** Neither path is at or beneath the other. */
  predicate Apart(a: Location, b: Location) {
    !(a <= b) && !(b <= a)
  }

  /** The path in the source tree that moves to p. */
  function Origin(p: Location, src: Location, dst: Location): Location
    requires dst <= p
  {
    src + p[|dst|..]
  }

  /** Whether p has received a node from one of the paths that are done. */
  ghost predicate Arrived(p: Location, src: Location, dst: Location, done: set<Location>) {
    dst <= p && p != dst && Origin(p, src, dst) in done
  }

  /** What a move of the done paths makes of a tree: their leaves are gone, and each node is at its new place. */
  ghost predicate Moved(before: Tree, after: Tree, src: Location, dst: Location, done: set<Location>)
    requires done <= before.Keys
  {
    forall p ::
      && (p in after <==> (p in before && !(p in done && !before[p].Folder?)) || Arrived(p, src, dst, done))
      && (p in after ==> after[p] == if Arrived(p, src, dst, done) then before[Origin(p, src, dst)] else before[p])
  }

  lemma TargetOrigin(q: Location, src: Location, dst: Location, p: Location)
    requires src <= q
    ensures dst <= Target(q, src, dst) && Origin(Target(q, src, dst), src, dst) == q
    ensures dst <= p && Origin(p, src, dst) == q ==> p == Target(q, src, dst)
    ensures q != src ==> Target(q, src, dst) != dst && Parent(Target(q, src, dst)) == Target(Parent(q), src, dst)
  {
    assert Target(q, src, dst)[|dst|..] == q[|src|..];
    assert src + q[|src|..] == q;
    if dst <= p {
      assert dst + p[|dst|..] == p;
      assert Origin(p, src, dst)[|src|..] == p[|dst|..];
    }
  }

  /** The root of the source stays where it is. */
  lemma RootDone(before: Tree, after: Tree, src: Location, dst: Location, done: set<Location>)
    requires src in before && before[src].Folder? && done <= before.Keys
    requires Moved(before, after, src, dst, done)
    ensures Moved(before, after, src, dst, done + {src})
  {
    forall p
      ensures Arrived(p, src, dst, done + {src}) <==> Arrived(p, src, dst, done)
    {
      TargetOrigin(src, src, dst, p);
    }
  }

  lemma LeafMoved(before: Tree, after: Tree, src: Location, dst: Location, done: set<Location>, q: Location)
    requires done <= before.Keys && Moved(before, after, src, dst, done) && Apart(src, dst)
    requires q in before && !before[q].Folder? && src <= q && q != src && q !in done
    ensures q in after && after[q] == before[q] && q != Target(q, src, dst)
    ensures Moved(before, (after - {q})[Target(q, src, dst) := before[q]], src, dst, done + {q})
  {
    var t := Target(q, src, dst);
    TargetOrigin(q, src, dst, q);
    forall p
      ensures Arrived(p, src, dst, done + {q}) <==> Arrived(p, src, dst, done) || p == t
    {
      TargetOrigin(q, src, dst, p);
    }
    OnlyOneSide(q, src, dst);
    OnlyOneSide(t, dst, src);
  }

  lemma Comparable(a: Location, b: Location, p: Location)
    requires a <= p && b <= p
    ensures a <= b || b <= a
  {
    assert a == p[..|a|] && b == p[..|b|];
  }

  lemma OnlyOneSide(p: Location, a: Location, b: Location)
    requires Apart(a, b) && a <= p
    ensures !(b <= p)
  {
    if b <= p {
      Comparable(a, b, p);
    }
  }

  lemma DirMoved(before: Tree, after: Tree, made: Tree, src: Location, dst: Location, done: set<Location>, q: Location)
    requires done <= before.Keys && Moved(before, after, src, dst, done) && Apart(src, dst)
    requires q in before && before[q].Folder? && src <= q && q != src
    requires made == after[Target(q, src, dst) := Folder]
    requires Target(q, src, dst) in after ==> after[Target(q, src, dst)].Folder?
    ensures Moved(before, made, src, dst, done + {q})
  {
    var t := Target(q, src, dst);
    TargetOrigin(q, src, dst, q);
    forall p
      ensures Arrived(p, src, dst, done + {q}) <==> Arrived(p, src, dst, done) || p == t
    {
      TargetOrigin(q, src, dst, p);
    }
    OnlyOneSide(t, dst, src);
  }

  /** The parent of a target is in place when the parent of its origin is done. */
  lemma ParentInPlace(before: Tree, after: Tree, src: Location, dst: Location, done: set<Location>, q: Location)
    requires WellFormed(before) && done <= before.Keys && Moved(before, after, src, dst, done) && Apart(src, dst)
    requires dst in before && before[dst].Folder?
    requires forall p :: p in done ==> src <= p
    requires q in before && src <= q && q != src && (Parent(q) == src || Parent(q) in done)
    ensures var t := Target(q, src, dst);
            t != [] && Parent(t) in after && after[Parent(t)].Folder?
  {
    TargetOrigin(q, src, dst, q);
    var up := Parent(Target(q, src, dst));
    if Parent(q) == src {
      assert up == dst;
    } else {
      TargetOrigin(Parent(q), src, dst, up);
    }
  }

  /** Nothing differs but beneath the two paths. */
  ghost predicate SameElsewhere(before: Tree, after: Tree, src: Location, dst: Location) {
    forall p :: !(src <= p) && !(dst <= p) ==> (p in after <==> p in before) && (p in before ==> after[p] == before[p])
  }

  lemma MovedElsewhere(before: Tree, after: Tree, src: Location, dst: Location, done: set<Location>)
    requires done <= before.Keys && Moved(before, after, src, dst, done) && forall p :: p in done ==> src <= p
    ensures SameElsewhere(before, after, src, dst)
  {
  }

  ghost function Done(listing: seq<Location>, i: nat): set<Location>
    requires i <= |listing|
  {
    set p | p in listing[..i]
  }

  lemma DoneNext(t: Tree, root: Location, listing: seq<Location>, i: nat)
    requires InWalkOrder(t, root, listing) && i < |listing|
    ensures Done(listing, i + 1) == Done(listing, i) + {listing[i]}
    ensures listing[i] !in Done(listing, i) && listing[i] in t && root <= listing[i]
    ensures listing[i] != root ==> listing[i] != [] && Parent(listing[i]) in Done(listing, i)
  {
    assert listing[..i + 1] == listing[..i] + [listing[i]];
    assert listing[i] in listing;
    if listing[i] != root {
      ParentIsEarlier(t, root, listing, i);
    }
  }

  lemma DoneInTree(t: Tree, root: Location, listing: seq<Location>, i: nat)
    requires InWalkOrder(t, root, listing) && i <= |listing|
    ensures Done(listing, i) <= t.Keys && forall p :: p in Done(listing, i) ==> root <= p
  {
    assert forall p :: p in listing[..i] ==> p in listing;
  }

  lemma AllDone(t: Tree, root: Location, listing: seq<Location>)
    requires IsWalk(t, root, listing)
    ensures Done(listing, |listing|) == Subtree(t, root)
  {
    assert listing[..|listing|] == listing;
  }

  /** Source and destination have a directory and a leaf at the same place. */
  ghost predicate Clash(before: Tree, src: Location, dst: Location) {
    exists q :: q in before && src <= q && Target(q, src, dst) in before && before[q].Folder? != before[Target(q, src, dst)].Folder?
  }

  /** What is in the way of the next path was there from the start. */
  lemma InTheWay(before: Tree, reached: Tree, src: Location, dst: Location, done: set<Location>, q: Location)
    requires done <= before.Keys && Moved(before, reached, src, dst, done) && Apart(src, dst)
    requires q in before && src <= q && q !in done
    requires var t := Target(q, src, dst); t in reached && before[q].Folder? != reached[t].Folder?
    ensures Clash(before, src, dst)
  {
    var t := Target(q, src, dst);
    TargetOrigin(q, src, dst, t);
    assert !Arrived(t, src, dst, done);
    assert t in before && before[t] == reached[t];
  }

  /******* What is left *******/

  /** All that is not at or beneath the target is as before, but for directories made above the target. */
  ghost predicate OutsideKept(before: Tree, after: Tree, target: Location) {
    && (forall p :: p in before && !(target <= p) ==> p in after && after[p] == before[p])
    && (forall p :: p in after && p !in before && !(target <= p) ==> p <= target && after[p].Folder?)
  }

  /** Beneath the target is what was there, and over it what had been extracted. */
  ghost predicate InPlace(before: Tree, extracted: Tree, after: Tree, temp: Location, target: Location) {
    && target in after && after[target].Folder?
    && forall p :: target <= p && p != target ==>
         && (p in after <==> p in before || Origin(p, temp, target) in extracted)
         && (p in after ==> after[p] == if Origin(p, temp, target) in extracted
                                        then extracted[Origin(p, temp, target)] else before[p])
  }

  lemma PrunedIs(t: Tree, root: Location, p: Location)
    ensures p in Pruned(t, root) <==> p in t && !(root <= p)
    ensures p in Pruned(t, root) ==> Pruned(t, root)[p] == t[p]
  {
  }

  lemma DirsAddedPruned(before: Tree, extracted: Tree, ready: Tree, temp: Location, target: Location)
    requires Pruned(extracted, temp) == before && OnlyDirsAdded(extracted, ready, target)
    ensures OnlyDirsAdded(before, Pruned(ready, temp), target)
  {
    forall p
      ensures p in before <==> p in extracted && !(temp <= p)
      ensures p in before ==> before[p] == extracted[p]
    {
      PrunedIs(extracted, temp, p);
    }
  }

  lemma FailedMovePruned(before: Tree, extracted: Tree, ready: Tree, moved: Tree, temp: Location, target: Location)
    requires Pruned(extracted, temp) == before && OnlyDirsAdded(extracted, ready, target) && Apart(temp, target)
    requires SameElsewhere(ready, moved, temp, target)
    ensures var after := Pruned(Pruned(moved, target), temp);
            Subtree(after, target) == {} && OutsideKept(before, after, target)
  {
    var after := Pruned(Pruned(moved, target), temp);
    forall p
      ensures p in before <==> p in extracted && !(temp <= p)
      ensures p in before ==> before[p] == extracted[p]
      ensures p in after <==> p in moved && !(target <= p) && !(temp <= p)
      ensures p in after ==> after[p] == moved[p]
    {
      PrunedIs(extracted, temp, p);
      PrunedIs(moved, target, p);
      PrunedIs(Pruned(moved, target), temp, p);
    }
  }

  lemma MovePruned(before: Tree, extracted: Tree, ready: Tree, moved: Tree, temp: Location, target: Location)
    requires Pruned(extracted, temp) == before && OnlyDirsAdded(extracted, ready, target) && Apart(temp, target)
    requires target in ready && ready[target].Folder?
    requires Moved(ready, moved, temp, target, Subtree(ready, temp))
    ensures OutsideKept(before, Pruned(moved, temp), target)
    ensures InPlace(before, extracted, Pruned(moved, temp), temp, target)
  {
    var after := Pruned(moved, temp);
    forall p
      ensures p in before <==> p in extracted && !(temp <= p)
      ensures p in before ==> before[p] == extracted[p]
      ensures p in after <==> p in moved && !(temp <= p)
      ensures p in after ==> after[p] == moved[p]
      ensures target <= p ==> !(temp <= p)
      ensures temp <= p ==> !(target <= p) && !(p <= target)
    {
      PrunedIs(extracted, temp, p);
      PrunedIs(moved, temp, p);
      SidesOf(p, temp, target);
    }
  }

  lemma SidesOf(p: Location, a: Location, b: Location)
    requires Apart(a, b)
    ensures a <= p ==> !(b <= p) && !(p <= b)
    ensures b <= p ==> !(a <= p)
  {
    if a <= p {
      OnlyOneSide(p, a, b);
    }
  }

  /** What lies beneath one place corresponds to what lies beneath another. */
  ghost predicate HoldsTree(extracted: Tree, after: Tree, temp: Location, target: Location) {
    && (forall p :: temp <= p && p != temp ==>
          var q := Target(p, temp, target);
          (p in extracted <==> q in after) && (p in extracted ==> after[q] == extracted[p]))
    && (forall q :: q in after && target <= q && q != target ==>
          Origin(q, temp, target) in extracted && after[q] == extracted[Origin(q, temp, target)])
  }

  /** An empty or missing target ends up with exactly the extracted tree. */
  lemma EmptyTargetHoldsExtracted(before: Tree, extracted: Tree, after: Tree, temp: Location, target: Location)
    requires InPlace(before, extracted, after, temp, target)
    requires forall p :: p in before ==> !(target <= p && p != target)
    ensures HoldsTree(extracted, after, temp, target)
  {
    forall p | temp <= p && p != temp
      ensures var q := Target(p, temp, target);
              (p in extracted <==> q in after) && (p in extracted ==> after[q] == extracted[p])
    {
      TargetOrigin(p, temp, target, p);
    }
  }
}
