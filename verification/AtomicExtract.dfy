/** Extraction into a temporary tree, its move into place, and the removal of trees (oci/client.go). Paths are followed through
    links; what is moved and removed is described by where it really is. */
module AtomicExtract {
  import opened ArchiveExtract
  import opened ArchiveInPlace
  import opened LexicalPath
  import opened LinkTree
  import opened TreeArchiver
  import opened TreeFs
  import opened TreeMoves

  /******* Removing a tree *******/

  /** Deletes the listed paths backwards, so that every child goes before its parent. A link goes, not what it leads to. */
  method RemoveAll(fs: FileSystem, root: Path) returns (ghost faultless: bool)
    requires fs.Valid() && root != [] && NoParent(root)
    modifies fs
    ensures fs.Valid()
    ensures old(SafeRoad(fs.nodes, root)) ==> RemovedAt(old(fs.nodes), fs.nodes, Spot(old(fs.nodes), root).at, faultless)
    ensures faultless <==> fs.faults == old(fs.faults)
    ensures old(fs.faults) <= fs.faults
  {
    var walked, toDelete, spots := fs.Walk(root);
    ghost var before := fs.nodes;
    ghost var home := if SafeRoad(before, root) then Spot(before, root).at else [];
    ghost var there := SafeRoad(before, root) && home in before;
    if there {
      NoneLeftYet(before, home, spots, walked);
    }
    VisitsAreNamed(before, root, toDelete, spots);
    RemoveListed(fs, before, root, home, toDelete, spots, there, walked);
    faultless := fs.faults == old(fs.faults);
    if there {
      AllGone(before, fs.nodes, home, spots, walked && faultless);
    } else if SafeRoad(before, root) {
      MissingIsGone(before, home, faultless);
    }
  }

  /** All that a walk meets is named from its root. */
  ghost predicate NamedFrom(root: Path, visits: seq<Visit>) {
    forall i :: 0 <= i < |visits| ==> root <= visits[i].path && NoParent(visits[i].path)
  }

  lemma VisitsAreNamed(t: Tree, root: Path, visits: seq<Visit>, spots: seq<Location>)
    requires WellFormed(t) && NoParent(root) && (visits == [] || exists home :: Visited(t, root, home, visits, spots))
    ensures NamedFrom(root, visits)
  {
    if home :| Visited(t, root, home, visits, spots) {
      forall i | 0 <= i < |visits|
        ensures root <= visits[i].path && NoParent(visits[i].path)
      {
        assert NoParent(spots[i]);
      }
    }
  }

  method RemoveListed(fs: FileSystem, ghost before: Tree, root: Path, ghost home: Location, toDelete: seq<Visit>,
                      ghost spots: seq<Location>, ghost there: bool, ghost walked: bool)
    requires fs.Valid() && root != [] && NamedFrom(root, toDelete)
    requires there ==>
               && SafeRoad(before, root) && Spot(before, root) == Reached(home) && home in before && home != []
               && Visited(before, root, home, toDelete, spots) && Leaving(before, fs.nodes, home, spots, |toDelete|, walked)
    modifies fs
    ensures fs.Valid() && old(fs.faults) <= fs.faults
    ensures there ==> Leaving(before, fs.nodes, home, spots, 0, walked && fs.faults == old(fs.faults))
    ensures toDelete == [] ==> fs.nodes == old(fs.nodes)
  {
    var i := |toDelete|;
    while i > 0
      invariant 0 <= i <= |toDelete| && fs.Valid() && old(fs.faults) <= fs.faults
      invariant there ==> Leaving(before, fs.nodes, home, spots, i, walked && fs.faults == old(fs.faults))
      invariant toDelete == [] ==> fs.nodes == old(fs.nodes)
    {
      i := i - 1;
      RemoveNext(fs, before, root, home, toDelete, spots, i, there, walked && fs.faults == old(fs.faults));
    }
  }

  method RemoveNext(fs: FileSystem, ghost before: Tree, root: Path, ghost home: Location, toDelete: seq<Visit>,
                    ghost spots: seq<Location>, i: nat, ghost there: bool, ghost all: bool)
    requires fs.Valid() && i < |toDelete| && toDelete[i].path != []
    requires there ==>
               && SafeRoad(before, root) && Spot(before, root) == Reached(home) && home in before && home != []
               && Visited(before, root, home, toDelete, spots) && Leaving(before, fs.nodes, home, spots, i + 1, all)
    modifies fs
    ensures fs.Valid() && old(fs.faults) <= fs.faults
    ensures there ==> Leaving(before, fs.nodes, home, spots, i, all && fs.faults == old(fs.faults))
  {
    if there {
      SpotOfVisit(before, fs.nodes, root, home, toDelete, spots, i, all);
    }
    var removed := fs.Remove(toDelete[i].path);
    if there {
      LeavingNext(before, old(fs.nodes), fs.nodes, home, spots, i, all, all && fs.faults == old(fs.faults), removed);
    }
  }

  lemma MissingIsGone(before: Tree, root: Location, all: bool)
    requires WellFormed(before) && root !in before
    ensures RemovedAt(before, before, root, all)
  {
    NothingBeneathMissing(before, root);
    assert forall p :: p in before && root <= p ==> p in Subtree(before, root);
  }

  /** Nothing outside the subtree is touched, and nothing in it is new or changed. */
  ghost predicate OnlyLostBeneath(before: Tree, after: Tree, root: Location) {
    && (forall p :: p in after ==> p in before && after[p] == before[p])
    && (forall p :: p in before && !(root <= p) ==> p in after)
  }

  ghost predicate RemovedAt(before: Tree, after: Tree, root: Location, faultless: bool) {
    OnlyLostBeneath(before, after, root) && (faultless ==> after == Pruned(before, root))
  }

  /** The places from index i of the listing are gone, the others are as they were. */
  ghost predicate RemovedFrom(before: Tree, after: Tree, root: Location, listing: seq<Location>, i: nat)
    requires i <= |listing|
  {
    && IsWalk(before, root, listing)
    && forall p :: (p in after <==> p in before && p !in listing[i..]) && (p in after ==> after[p] == before[p])
  }

  /** Nothing is gone but some of the places from index i of the listing, and all of them if no call has failed. */
  ghost predicate Leaving(before: Tree, now: Tree, root: Location, listing: seq<Location>, i: nat, all: bool)
    requires i <= |listing|
  {
    && InWalkOrder(before, root, listing)
    && (forall p :: p in now ==> p in before && now[p] == before[p])
    && (forall p :: p in before ==> p in now || p in listing[i..])
    && (all ==> RemovedFrom(before, now, root, listing, i))
  }

  lemma NoneLeftYet(before: Tree, root: Location, listing: seq<Location>, walked: bool)
    requires InWalkOrder(before, root, listing) && (walked ==> IsWalk(before, root, listing))
    ensures Leaving(before, before, root, listing, |listing|, walked)
  {
  }

  lemma NotLeftYet(before: Tree, now: Tree, root: Location, listing: seq<Location>, i: nat, all: bool)
    requires i < |listing| && Leaving(before, now, root, listing, i + 1, all)
    ensures listing[i] in now && root <= listing[i]
  {
    assert listing[i] in listing;
    forall k | i + 1 <= k < |listing|
      ensures listing[k] != listing[i]
    {
    }
  }

  /** What lies around the root is still there, and so is the root until its own turn. */
  lemma RoadIsLeft(before: Tree, now: Tree, root: Location, listing: seq<Location>, i: nat, all: bool)
    requires i < |listing| && Leaving(before, now, root, listing, i + 1, all) && WellFormed(now) && root in before
    ensures PartOf(Around(before, root), now)
  {
    NotLeftYet(before, now, root, listing, i, all);
    if root != listing[i] {
      AncestorsAreFolders(now, listing[i], |root|);
      assert listing[i][..|root|] == root;
    }
    forall p | p in before && !(root <= p)
      ensures p in now
    {
      assert forall k :: 0 <= k < |listing| ==> listing[k] in listing;
    }
  }

  lemma SpotOfVisit(before: Tree, now: Tree, root: Path, home: Location, visits: seq<Visit>, listing: seq<Location>, i: nat, all: bool)
    requires SafeRoad(before, root) && Spot(before, root) == Reached(home) && home in before && WellFormed(now)
    requires i < |listing| && Leaving(before, now, home, listing, i + 1, all) && Visited(before, root, home, visits, listing)
    ensures Spot(now, visits[i].path) == Reached(listing[i])
  {
    NotLeftYet(before, now, home, listing, i, all);
    RoadIsLeft(before, now, home, listing, i, all);
    RoadHolds(Around(before, home), now, root, home);
    if listing[i] == home {
      assert Target(home, home, root) == root;
    } else {
      AncestorsAreFolders(now, listing[i], |home|);
      assert listing[i][..|home|] == home;
      LeadsToSpot(now, root);
      SpotBeneath(now, root, home, listing[i]);
    }
  }

  /** Nothing is left in the directory that goes next. */
  lemma NextIsEmpty(before: Tree, reached: Tree, root: Location, listing: seq<Location>, i: nat)
    requires i < |listing| && RemovedFrom(before, reached, root, listing, i + 1)
    ensures listing[i] in reached
    ensures forall q :: q in reached && q != [] ==> Parent(q) != listing[i]
  {
    var p := listing[i];
    assert p in listing;
    forall k | i + 1 <= k < |listing|
      ensures listing[k] != p
    {
    }
    forall q | q in before && q != [] && Parent(q) == p
      ensures q in listing[i + 1..]
    {
      assert root <= q;
      assert q in listing;
      var k :| 0 <= k < |listing| && listing[k] == q;
      assert listing[i] <= listing[k];
      assert listing[i + 1..][k - i - 1] == q;
    }
  }

  /** The next one goes, unless a call fails. */
  lemma LeavingNext(before: Tree, reached: Tree, now: Tree, root: Location, listing: seq<Location>, i: nat,
                    all: bool, stillAll: bool, removed: bool)
    requires i < |listing| && Leaving(before, reached, root, listing, i + 1, all) && root != []
    requires now == if removed then reached - {listing[i]} else reached
    requires stillAll ==> all && (removed <==> Removable(reached, Reached(listing[i])))
    ensures Leaving(before, now, root, listing, i, stillAll)
  {
    assert listing[i..] == [listing[i]] + listing[i + 1..];
    assert listing[i] in listing;
    if stillAll {
      NextIsEmpty(before, reached, root, listing, i);
    }
  }

  lemma AllGone(before: Tree, after: Tree, root: Location, listing: seq<Location>, all: bool)
    requires Leaving(before, after, root, listing, 0, all)
    ensures RemovedAt(before, after, root, all)
  {
    assert listing[0..] == listing;
  }

  /******* Moving a tree *******/

  /** All but what lies beneath two places; the places themselves are kept. */
  ghost function Hollow(t: Tree, a: Location, b: Location): Tree {
    Around(Around(t, a), b)
  }

  /** The source is a directory, the target leads to one, neither is in the other, and the ways to them do not lead through
      what lies beneath them, nor the way to the source through the name of the target. */
  ghost predicate Straight(t: Tree, src: Path, from: Location, dst: Path, to: Location) {
    && NoParent(src) && NoParent(dst) && dst != []
    && Apart(from, to) && IsFolder(t, from) && IsFolder(t, to) && Spot(t, dst).Reached?
    && RoadTo(Hollow(t, from, to) - {Spot(t, dst).at}, src, from) && Leads(Hollow(t, from, to), dst) == Reached(to)
  }

  /** No directory of the source tree has a link in its place in the other. */
  ghost predicate MeetsNoLink(t: Tree, src: Location, dst: Location) {
    forall q :: q in t && src <= q && t[q].Folder? ==> NoLink(t, Target(q, src, dst))
  }

  ghost predicate Plain(t: Tree, src: Path, from: Location, dst: Path, to: Location) {
    Straight(t, src, from, dst, to) && MeetsNoLink(t, from, to)
  }

  /** Moving changes neither way. */
  lemma StillStraight(t: Tree, u: Tree, src: Path, from: Location, dst: Path, to: Location)
    requires Straight(t, src, from, dst, to) && SameElsewhere(t, u, from, to) && IsFolder(u, from) && IsFolder(u, to)
    ensures Spot(u, src) == Reached(from) && Leads(u, src) == Reached(from) && Leads(u, dst) == Reached(to)
    ensures PartOf(Hollow(t, from, to), u)
  {
    var road := Hollow(t, from, to);
    assert PartOf(road, u);
    RoadHolds(road - {Spot(t, dst).at}, u, src, from);
    LeadsToSpot(u, src);
    assert to in road;
    FollowMore(road, u, [], dst, MAX_LINKS);
  }

  lemma EndsStay(before: Tree, now: Tree, src: Location, dst: Location, done: set<Location>)
    requires done <= before.Keys && Moved(before, now, src, dst, done) && Apart(src, dst)
    requires forall p :: p in done ==> src <= p
    requires IsFolder(before, src) && IsFolder(before, dst)
    ensures IsFolder(now, src) && IsFolder(now, dst)
  {
    assert !Arrived(src, src, dst, done) && !Arrived(dst, src, dst, done);
  }

  method MoveFiles(fs: FileSystem, src: Path, dst: Path, ghost from: Location, ghost to: Location) returns (ok: bool)
    requires fs.Valid() && src != [] && dst != [] && NoParent(src) && NoParent(dst)
    modifies fs
    ensures fs.Valid() && old(fs.faults) <= fs.faults
    ensures old(Plain(fs.nodes, src, from, dst, to)) ==> MoveDone(old(fs.nodes), fs.nodes, from, to, ok, fs.faults == old(fs.faults))
  {
    ghost var before := fs.nodes;
    ghost var plain := Plain(before, src, from, dst, to);
    if plain {
      StillStraight(before, before, src, from, dst, to);
    }
    var walked, visits, spots := fs.Walk(src);
    VisitsAreNamed(before, src, visits, spots);
    if plain {
      MoveStarts(before, from, to, spots);
    }
    ok := MoveVisits(fs, before, src, dst, from, to, visits, spots, plain);
    if plain && ok {
      MoveEnds(before, fs.nodes, from, to, spots, walked);
    }
    ok := ok && walked;
  }

  method MoveVisits(fs: FileSystem, ghost before: Tree, src: Path, dst: Path, ghost from: Location, ghost to: Location,
                    visits: seq<Visit>, ghost spots: seq<Location>, ghost plain: bool) returns (ok: bool)
    requires fs.Valid() && NamedFrom(src, visits) && src != [] && dst != [] && NoParent(dst)
    requires plain ==>
               && WellFormed(before) && Plain(before, src, from, dst, to)
               && Visited(before, src, from, visits, spots) && Moving(before, fs.nodes, from, to, spots, 0)
    modifies fs
    ensures fs.Valid() && old(fs.faults) <= fs.faults
    ensures plain && ok ==> |visits| == |spots| && Moving(before, fs.nodes, from, to, spots, |spots|)
    ensures plain && !ok ==> MoveDone(before, fs.nodes, from, to, false, fs.faults == old(fs.faults))
  {
    ok := true;
    for i := 0 to |visits|
      invariant fs.Valid() && old(fs.faults) <= fs.faults && ok
      invariant plain ==> Moving(before, fs.nodes, from, to, spots, i)
    {
      ghost var sofar := fs.faults;
      ok := MoveVisit(fs, before, src, dst, from, to, visits, spots, i, plain);
      if !ok {
        if plain && sofar != old(fs.faults) {
          FaultsExplain(before, fs.nodes, from, to, fs.faults == sofar);
        }
        return;
      }
    }
  }

  lemma FaultsExplain(before: Tree, after: Tree, src: Location, dst: Location, faultless: bool)
    requires MoveDone(before, after, src, dst, false, faultless)
    ensures MoveDone(before, after, src, dst, false, false)
  {
  }

  lemma MoveStarts(before: Tree, src: Location, dst: Location, spots: seq<Location>)
    requires InWalkOrder(before, src, spots)
    ensures Moving(before, before, src, dst, spots, 0)
  {
  }

  /** What a move leaves: nothing changes elsewhere; all is in place, or a call has failed, or something was in the way. */
  ghost predicate MoveDone(before: Tree, after: Tree, src: Location, dst: Location, ok: bool, faultless: bool) {
    && SameElsewhere(before, after, src, dst)
    && IsFolder(after, src) && IsFolder(after, dst)
    && (ok ==> Moved(before, after, src, dst, Subtree(before, src)))
    && (!ok && faultless ==> Clash(before, src, dst))
  }

  /** The first i places of the walk have been moved. */
  ghost predicate Moving(before: Tree, now: Tree, src: Location, dst: Location, spots: seq<Location>, i: nat)
    requires i <= |spots|
  {
    && InWalkOrder(before, src, spots)
    && Done(spots, i) <= before.Keys && Moved(before, now, src, dst, Done(spots, i))
  }

  lemma MovingIs(before: Tree, now: Tree, src: Location, dst: Location, spots: seq<Location>, i: nat)
    requires i <= |spots| && Moving(before, now, src, dst, spots, i) && Apart(src, dst)
    requires IsFolder(before, src) && IsFolder(before, dst)
    ensures SameElsewhere(before, now, src, dst) && IsFolder(now, src) && IsFolder(now, dst)
    ensures forall p :: p in Done(spots, i) ==> src <= p
  {
    DoneInTree(before, src, spots, i);
    MovedElsewhere(before, now, src, dst, Done(spots, i));
    EndsStay(before, now, src, dst, Done(spots, i));
  }

  lemma MoveEnds(before: Tree, now: Tree, src: Location, dst: Location, spots: seq<Location>, walked: bool)
    requires Moving(before, now, src, dst, spots, |spots|) && Apart(src, dst) && IsFolder(before, src) && IsFolder(before, dst)
    requires walked ==> IsWalk(before, src, spots)
    ensures MoveDone(before, now, src, dst, walked, false)
  {
    MovingIs(before, now, src, dst, spots, |spots|);
    if walked {
      AllDone(before, src, spots);
    }
  }

  /** The callback for one place of the walk. */
  method MoveVisit(fs: FileSystem, ghost before: Tree, src: Path, dst: Path, ghost from: Location, ghost to: Location,
                   visits: seq<Visit>, ghost spots: seq<Location>, i: nat, ghost plain: bool) returns (ok: bool)
    requires fs.Valid() && i < |visits| && NamedFrom(src, visits) && src != [] && dst != [] && NoParent(dst)
    requires plain ==>
               && WellFormed(before) && Plain(before, src, from, dst, to)
               && Visited(before, src, from, visits, spots) && Moving(before, fs.nodes, from, to, spots, i)
    modifies fs
    ensures fs.Valid() && old(fs.faults) <= fs.faults
    ensures plain && ok ==> Moving(before, fs.nodes, from, to, spots, i + 1)
    ensures plain && !ok ==> MoveDone(before, fs.nodes, from, to, false, fs.faults == old(fs.faults))
  {
    var path := visits[i].path;
    if plain {
      DoneNext(before, from, spots, i);
      MovingIs(before, fs.nodes, from, to, spots, i);
      DoneInTree(before, from, spots, i);
    }
    if path == src {
      if plain {
        RootDone(before, fs.nodes, from, to, Done(spots, i));
      }
      return true;
    }
    var dstPath := dst + path[|src|..];
    ghost var done, q := {}, [];
    if plain {
      done, q := Done(spots, i), spots[i];
      TurnComes(before, fs.nodes, src, from, dst, to, visits, spots, i);
    }
    if visits[i].isDir {
      ok := MoveDir(fs, before, dstPath, from, to, done, q, plain);
    } else {
      ok := MoveLeaf(fs, before, path, dstPath, from, to, done, q, plain);
    }
  }

  /** The next place of the walk to be moved: its parent is in place, and it is not. */
  ghost predicate OnTurn(before: Tree, now: Tree, from: Location, to: Location, done: set<Location>, q: Location) {
    && WellFormed(before) && WellFormed(now) && Apart(from, to) && MeetsNoLink(before, from, to)
    && IsFolder(before, from) && IsFolder(before, to)
    && done <= before.Keys && (forall p :: p in done ==> from <= p) && Moved(before, now, from, to, done)
    && q in before && from <= q && q != from && q !in done && Parent(q) in done
  }

  /** Where the two paths of the next place are. */
  lemma TurnComes(before: Tree, now: Tree, src: Path, from: Location, dst: Path, to: Location,
                  visits: seq<Visit>, spots: seq<Location>, i: nat)
    requires WellFormed(before) && WellFormed(now) && Plain(before, src, from, dst, to) && i < |visits|
    requires Visited(before, src, from, visits, spots) && Moving(before, now, from, to, spots, i) && visits[i].path != src
    ensures OnTurn(before, now, from, to, Done(spots, i), spots[i])
    ensures src <= visits[i].path && Spot(now, visits[i].path) == Reached(spots[i])
    ensures Spot(now, dst + visits[i].path[|src|..]) == Reached(Target(spots[i], from, to))
    ensures visits[i].isDir <==> before[spots[i]].Folder?
  {
    var q := spots[i];
    assert Target(from, from, src) == src;
    DoneNext(before, from, spots, i);
    MovingIs(before, now, from, to, spots, i);
    StillStraight(before, now, src, from, dst, to);
    StillThere(before, now, from, to, Done(spots, i), q);
    SpotBeneath(now, src, from, q);
    ParentInPlace(before, now, from, to, Done(spots, i), q);
    TargetIsBeneath(now, from, dst, to, q);
    assert visits[i].path[|src|..] == q[|from|..];
  }

  lemma StillThere(before: Tree, now: Tree, from: Location, to: Location, done: set<Location>, q: Location)
    requires done <= before.Keys && Moved(before, now, from, to, done) && Apart(from, to)
    requires q in before && from <= q && q !in done
    ensures q in now && now[q] == before[q]
  {
    OnlyOneSide(q, from, to);
  }

  lemma TargetIsBeneath(now: Tree, from: Location, dst: Path, to: Location, q: Location)
    requires WellFormed(now) && Leads(now, dst) == Reached(to) && to in now && q in now && from <= q && q != from
    requires var t := Target(q, from, to); t != [] && IsFolder(now, Parent(t))
    ensures Spot(now, Target(q, from, dst)) == Reached(Target(q, from, to))
  {
    var t := Target(q, from, to);
    assert t == to + q[|from|..];
    assert Target(t, to, dst) == Target(q, from, dst);
    SpotFor(now, dst, to, t);
  }

  /** Only what was there from the start can be in the place of the next one. */
  lemma PlaceIsAsBefore(before: Tree, now: Tree, from: Location, to: Location, done: set<Location>, q: Location)
    requires OnTurn(before, now, from, to, done, q)
    ensures var t := Target(q, from, to);
            && (t in now <==> t in before) && (t in before ==> now[t] == before[t])
            && (before[q].Folder? ==> NoLink(now, t))
            && (t in now && now[t].Folder? != before[q].Folder? ==> Clash(before, from, to))
  {
    var t := Target(q, from, to);
    TargetOrigin(q, from, to, t);
    OnlyOneSide(t, to, from);
    assert !Arrived(t, from, to, done);
    if t in now && now[t].Folder? != before[q].Folder? {
      InTheWay(before, now, from, to, done, q);
    }
  }

  lemma TurnIs(before: Tree, now: Tree, from: Location, to: Location, done: set<Location>, q: Location)
    requires OnTurn(before, now, from, to, done, q)
    ensures SameElsewhere(before, now, from, to) && IsFolder(now, from) && IsFolder(now, to)
  {
    MovedElsewhere(before, now, from, to, done);
    EndsStay(before, now, from, to, done);
  }

  method MoveDir(fs: FileSystem, ghost before: Tree, dstPath: Path, ghost from: Location, ghost to: Location,
                 ghost done: set<Location>, ghost q: Location, ghost plain: bool) returns (ok: bool)
    requires fs.Valid() && dstPath != [] && NoParent(dstPath)
    requires plain ==> OnTurn(before, fs.nodes, from, to, done, q) && before[q].Folder?
    requires plain ==> Spot(fs.nodes, dstPath) == Reached(Target(q, from, to))
    modifies fs
    ensures fs.Valid() && old(fs.faults) <= fs.faults
    ensures plain && ok ==> Moved(before, fs.nodes, from, to, done + {q})
    ensures plain && !ok ==> MoveDone(before, fs.nodes, from, to, false, fs.faults == old(fs.faults))
  {
    ghost var n;
    ok, n := fs.MkdirAll(dstPath);
    if plain {
      DirStep(before, old(fs.nodes), fs.nodes, dstPath, from, to, done, q, n, fs.faults == old(fs.faults));
    }
  }

  lemma DirStep(before: Tree, now: Tree, after: Tree, dstPath: Path, from: Location, to: Location,
                done: set<Location>, q: Location, n: nat, faultless: bool)
    requires OnTurn(before, now, from, to, done, q) && before[q].Folder? && dstPath != [] && NoParent(dstPath)
    requires Spot(now, dstPath) == Reached(Target(q, from, to)) && n <= |dstPath| && Making(now, after, dstPath, n)
    requires n < |dstPath| && faultless ==> !LeadsToDir(WithDirs(now, dstPath), dstPath)
    ensures n == |dstPath| ==> Moved(before, after, from, to, done + {q})
    ensures n < |dstPath| ==> MoveDone(before, after, from, to, false, faultless)
  {
    PlaceIsAsBefore(before, now, from, to, done, q);
    WithDirsAt(now, dstPath, Target(q, from, to), n);
    assert dstPath[..|dstPath|] == dstPath;
    if n == |dstPath| {
      DirIsMade(before, now, after, from, to, done, q);
    } else {
      TurnIs(before, now, from, to, done, q);
    }
  }

  lemma DirIsMade(before: Tree, now: Tree, after: Tree, from: Location, to: Location, done: set<Location>, q: Location)
    requires OnTurn(before, now, from, to, done, q) && before[q].Folder?
    requires var t := Target(q, from, to);
             (t in now ==> now[t].Folder?) && after == if t in now then now else now[t := Folder]
    ensures Moved(before, after, from, to, done + {q})
  {
    assert after == now[Target(q, from, to) := Folder];
    DirMoved(before, now, after, from, to, done, q);
  }

  method MoveLeaf(fs: FileSystem, ghost before: Tree, path: Path, dstPath: Path, ghost from: Location, ghost to: Location,
                  ghost done: set<Location>, ghost q: Location, ghost plain: bool) returns (ok: bool)
    requires fs.Valid() && path != [] && dstPath != [] && NoParent(dstPath)
    requires plain ==> OnTurn(before, fs.nodes, from, to, done, q) && !before[q].Folder?
    requires plain ==> Spot(fs.nodes, path) == Reached(q) && Spot(fs.nodes, dstPath) == Reached(Target(q, from, to))
    modifies fs
    ensures fs.Valid() && old(fs.faults) <= fs.faults
    ensures plain && ok ==> Moved(before, fs.nodes, from, to, done + {q})
    ensures plain && !ok ==> MoveDone(before, fs.nodes, from, to, false, fs.faults == old(fs.faults))
  {
    if plain {
      TurnIs(before, fs.nodes, from, to, done, q);
      PlaceIsAsBefore(before, fs.nodes, from, to, done, q);
      LeafMoved(before, fs.nodes, from, to, done, q);
    }
    ok := fs.Rename(path, dstPath);
  }

  /******* Extraction *******/

  datatype Outcome = NoTempDir | ExtractFailed | NoTargetDir | MoveFailed | Extracted

  /** What happened on the way: where the temporary directory is, the trees before and after the move, and where the
      target leads. */
  datatype Trail = Trail(temp: Location, ready: Tree, moved: Tree, home: Location)

  /** The name is not taken, and its directory is there. */
  predicate Fresh(t: Tree, p: Path) {
    p != [] && Proper(p) && NoParent(p) && Spot(t, p).Reached? && Spot(t, p).at !in t
  }

  /** What the archiver has done in the new directory: what it holds in the end, and when there is nothing to stop it. */
  ghost predicate ArchiverDone(archiver: Archiver, headers: seq<Header>, before: Tree, tempDir: Path, temp: Location, faultless: bool)
    reads archiver
  {
    && Tame(archiver.written, temp)
    && (archiver.succeeded ==> HoldsArchive(archiver.cwd, archiver.options, headers, archiver.written, tempDir, temp))
    && (faultless ==>
          (archiver.succeeded <==> CanExtract(archiver.cwd, archiver.options, headers, before[temp := Folder], tempDir, temp)))
  }

  /** tempDir is the fresh name that TempDir picks. Clean means that no call failed while a tree was removed. */
  method ExtractAtomically(fs: FileSystem, archiver: Archiver, headers: seq<Header>, tempDir: Path, targetDir: Path)
    returns (outcome: Outcome, ghost trail: Trail, ghost clean: bool)
    requires fs.Valid() && Fresh(fs.nodes, tempDir) && targetDir != [] && NoParent(targetDir)
    requires IsAbs(archiver.cwd) && |headers| <= MAX_INT64
    modifies fs, archiver
    ensures fs.Valid() && old(fs.faults) <= fs.faults && (fs.faults == old(fs.faults) ==> clean)
    ensures trail.temp == Spot(old(fs.nodes), tempDir).at
    ensures archiver.runs == old(archiver.runs) + if outcome == NoTempDir then 0 else 1
    ensures outcome != NoTempDir ==> Pruned(archiver.written, trail.temp) == old(fs.nodes) && IsFolder(archiver.written, trail.temp)
    ensures outcome != NoTempDir ==> (archiver.succeeded <==> outcome != ExtractFailed)
    ensures outcome != NoTempDir ==>
              ArchiverDone(archiver, headers, old(fs.nodes), tempDir, trail.temp, archiver.faults == old(archiver.faults))
    ensures outcome == NoTempDir ==> fs.nodes == old(fs.nodes) && old(fs.faults) < fs.faults
    ensures outcome == ExtractFailed && clean ==> fs.nodes == old(fs.nodes)
    ensures outcome == NoTargetDir && clean ==> OnlyDirsAdded(old(fs.nodes), fs.nodes, trail.home)
    ensures outcome == NoTargetDir && fs.faults == old(fs.faults) ==> !LeadsToDir(WithDirs(archiver.written, targetDir), targetDir)
    ensures outcome == MoveFailed || outcome == Extracted ==> IsReady(old(fs.nodes), archiver.written, tempDir, targetDir, trail)
    ensures outcome == MoveFailed && WasPlain(trail, tempDir, targetDir) ==>
              && (clean ==> RolledBack(old(fs.nodes), fs.nodes, targetDir, trail))
              && (fs.faults == old(fs.faults) ==> Clash(trail.ready, trail.temp, trail.home))
    ensures outcome == Extracted && WasPlain(trail, tempDir, targetDir) && clean ==>
              && OutsideKept(old(fs.nodes), fs.nodes, trail.home)
              && InPlace(old(fs.nodes), archiver.written, fs.nodes, trail.temp, trail.home)
  {
    ghost var before := fs.nodes;
    var temp := Spot(fs.nodes, tempDir).at;
    trail, clean := Trail(temp, before, before, []), true;
    var fails := fs.DiskFails();
    if fails {
      return NoTempDir, trail, clean;
    }
    MadeTemp(before, tempDir, temp);
    fs.nodes := fs.nodes[temp := Folder];
    var ok := archiver.Extract(fs, headers, tempDir);
    ghost var extracted := fs.nodes;
    TempRoad(before, extracted, extracted, tempDir, temp);
    if !ok {
      clean := RemoveAll(fs, tempDir);
      return ExtractFailed, trail, clean;
    }
    ghost var n;
    ok, n := fs.MkdirAll(targetDir);
    trail := trail.(ready := fs.nodes, home := Leads(fs.nodes, targetDir[..n]).at);
    TempRoad(before, extracted, fs.nodes, tempDir, temp);
    if !ok {
      clean := RemoveAll(fs, tempDir);
      DirsAddedPruned(before, extracted, trail.ready, temp, trail.home);
      return NoTargetDir, trail, clean;
    }
    assert targetDir[..n] == targetDir;
    outcome, trail, clean := MoveIntoPlace(fs, before, extracted, tempDir, targetDir, trail);
  }

  /** The target is there, and nothing else has changed since the extraction. */
  ghost predicate IsReady(before: Tree, written: Tree, tempDir: Path, targetDir: Path, trail: Trail) {
    && WellFormed(before) && Fresh(before, tempDir) && trail.temp == Spot(before, tempDir).at
    && Pruned(written, trail.temp) == before && trail.ready == WithDirs(written, targetDir) && WellFormed(trail.ready)
    && OnlyDirsAdded(written, trail.ready, trail.home)
    && Leads(trail.ready, targetDir) == Reached(trail.home) && IsFolder(trail.ready, trail.home)
    && IsFolder(trail.ready, trail.temp)
  }

  ghost predicate WasPlain(trail: Trail, tempDir: Path, targetDir: Path) {
    Plain(trail.ready, tempDir, trail.temp, targetDir, trail.home)
  }

  /** After a failed move the temporary tree and the name of the target are gone. With a directory of that name nothing else
      has changed; with a link what has been moved stays behind it. */
  ghost predicate RolledBack(before: Tree, after: Tree, targetDir: Path, trail: Trail)
    requires targetDir != []
  {
    var spot := Spot(trail.ready, targetDir);
    && spot.Reached? && after == Pruned(Pruned(trail.moved, spot.at), trail.temp)
    && Subtree(after, trail.temp) == {} && spot.at !in after
    && if NoLink(trail.ready, spot.at) then Subtree(after, trail.home) == {} && OutsideKept(before, after, trail.home)
       else trail.home in after && SameBeneath(trail.moved, after, trail.home)
  }

  ghost predicate SameBeneath(before: Tree, after: Tree, at: Location) {
    forall p :: at <= p ==> (p in after <==> p in before) && (p in after ==> after[p] == before[p])
  }

  /** The last steps of the extraction. */
  method MoveIntoPlace(fs: FileSystem, ghost before: Tree, ghost written: Tree, tempDir: Path, targetDir: Path, ghost start: Trail)
    returns (outcome: Outcome, ghost trail: Trail, ghost clean: bool)
    requires fs.Valid() && targetDir != [] && NoParent(targetDir)
    requires IsReady(before, written, tempDir, targetDir, start) && fs.nodes == start.ready
    modifies fs
    ensures fs.Valid() && old(fs.faults) <= fs.faults && (fs.faults == old(fs.faults) ==> clean)
    ensures outcome == MoveFailed || outcome == Extracted
    ensures trail == start.(moved := trail.moved)
    ensures outcome == MoveFailed && WasPlain(trail, tempDir, targetDir) ==>
              && (clean ==> RolledBack(before, fs.nodes, targetDir, trail))
              && (fs.faults == old(fs.faults) ==> Clash(trail.ready, trail.temp, trail.home))
    ensures outcome == Extracted && WasPlain(trail, tempDir, targetDir) && clean ==>
              && OutsideKept(before, fs.nodes, trail.home)
              && InPlace(before, written, fs.nodes, trail.temp, trail.home)
  {
    var ok := MoveFiles(fs, tempDir, targetDir, start.temp, start.home);
    trail := start.(moved := fs.nodes);
    ghost var plain := WasPlain(trail, tempDir, targetDir);
    ghost var spot := if plain then Spot(trail.ready, targetDir).at else [];
    if plain {
      RoadsAfterMove(trail, tempDir, targetDir);
    }
    if !ok {
      clean := RemoveAll(fs, targetDir);
      ghost var left := fs.nodes;
      if plain && clean {
        TempAfterRollback(trail, left, spot, tempDir, targetDir);
      }
      ghost var cleanTemp := RemoveAll(fs, tempDir);
      clean := clean && cleanTemp;
      if plain && clean {
        Rollback(before, written, fs.nodes, spot, tempDir, targetDir, trail);
      }
      return MoveFailed, trail, clean;
    }
    clean := RemoveAll(fs, tempDir);
    outcome := Extracted;
    if plain && clean {
      MovePruned(before, written, trail.ready, trail.moved, trail.temp, trail.home);
    }
  }

  /******* The way to the temporary directory *******/

  lemma MadeTemp(before: Tree, tempDir: Path, temp: Location)
    requires WellFormed(before) && Fresh(before, tempDir) && Spot(before, tempDir) == Reached(temp)
    ensures WellFormed(before[temp := Folder]) && Leads(before[temp := Folder], tempDir) == Reached(temp)
    ensures Subtree(before[temp := Folder], temp) == {temp} && Subtree(before, temp) == {}
    ensures Pruned(before[temp := Folder], temp) == before
  {
    SpotNames(before, tempDir);
    SetKeeps(before, temp, Folder);
    NewLeads(before, tempDir, temp);
    LoneFolder(before, temp);
    PrunedAsBefore(before, temp);
  }

  lemma PrunedAsBefore(before: Tree, temp: Location)
    requires WellFormed(before) && temp !in before
    ensures Subtree(before, temp) == {} && Pruned(before[temp := Folder], temp) == before
  {
    NothingBeneathMissing(before, temp);
    assert forall p :: p in before && temp <= p ==> p in Subtree(before, temp);
  }

  /** As long as what was there around the temporary directory is still there, its path leads to it. */
  lemma TempRoad(before: Tree, extracted: Tree, t: Tree, tempDir: Path, temp: Location)
    requires Fresh(before, tempDir) && Spot(before, tempDir) == Reached(temp)
    requires Pruned(extracted, temp) == before && PartOf(extracted, t)
    ensures SafeRoad(t, tempDir) && Spot(t, tempDir) == Reached(temp)
  {
    assert RoadTo(before, tempDir, temp);
    forall p | p in before
      ensures p in Around(t, temp) && Around(t, temp)[p] == before[p]
    {
      PrunedIs(extracted, temp, p);
    }
    FollowMore(before, Around(t, temp), [], tempDir[..|tempDir| - 1], MAX_LINKS);
    RoadHolds(before, t, tempDir, temp);
  }

  /******* The ways after the move *******/

  lemma AroundIsWellFormed(t: Tree, at: Location)
    requires WellFormed(t)
    ensures WellFormed(Around(t, at))
  {
    var u := Around(t, at);
    forall p | p in u
      ensures NoParent(p) && (p != [] ==> IsFolder(u, Parent(p)))
    {
      if p != [] {
        assert IsFolder(t, Parent(p)) && Parent(p) <= p;
      }
    }
  }

  /** The name of the target: a directory, which is where it leads, or a link. It is on the way. */
  lemma TargetName(road: Tree, dst: Path, to: Location) returns (spot: Location)
    requires WellFormed(road) && dst != [] && NoParent(dst) && Leads(road, dst) == Reached(to) && IsFolder(road, to)
    ensures Spot(road, dst) == Reached(spot) && RoadTo(road, dst, spot) && spot in road
    ensures NoLink(road, spot) <==> spot == to
  {
    var up, last := dst[..|dst| - 1], dst[|dst| - 1];
    assert dst == up + [last];
    FollowPrefix(road, [], up, [last], MAX_LINKS);
    spot := Spot(road, dst).at;
    assert Parent(spot) == Leads(road, up).at;
    if NoLink(road, spot) {
      LeadsToSpot(road, dst);
    }
  }

  lemma LinksAreLeaves(t: Tree, at: Location)
    requires WellFormed(t) && at in t && !t[at].Folder?
    ensures Around(t, at) == t
  {
    forall p | p in t && at <= p
      ensures p == at
    {
      assert at == p[..|at|];
      if |at| < |p| {
        AncestorsAreFolders(t, p, |at|);
      } else {
        assert p[..|p|] == p;
      }
    }
  }

  /** Neither way is lost by the move, and the name of the target is still what it was. */
  lemma RoadsAfterMove(trail: Trail, tempDir: Path, targetDir: Path)
    requires WasPlain(trail, tempDir, targetDir) && WellFormed(trail.ready) && WellFormed(trail.moved)
    requires SameElsewhere(trail.ready, trail.moved, trail.temp, trail.home)
    requires IsFolder(trail.moved, trail.temp) && IsFolder(trail.moved, trail.home)
    ensures SafeRoad(trail.moved, tempDir) && Spot(trail.moved, tempDir) == Reached(trail.temp)
    ensures targetDir != [] && SafeRoad(trail.moved, targetDir)
    ensures var spot := Spot(trail.ready, targetDir);
            && spot.Reached? && Spot(trail.moved, targetDir) == spot && NamedSo(trail, spot.at)
  {
    StillStraight(trail.ready, trail.moved, tempDir, trail.temp, targetDir, trail.home);
    var road := Hollow(trail.ready, trail.temp, trail.home);
    AroundIsWellFormed(trail.ready, trail.temp);
    AroundIsWellFormed(Around(trail.ready, trail.temp), trail.home);
    var spot := TargetName(road, targetDir, trail.home);
    RoadHolds(road, trail.ready, targetDir, spot);
    RoadHolds(road, trail.moved, targetDir, spot);
    RoadAround(road, trail.moved, spot, trail.home);
    RoadMore(road, Around(trail.moved, spot), targetDir, spot);
    RoadMore(road - {spot}, Around(trail.moved, trail.temp), tempDir, trail.temp);
  }

  /** The name of the target is the directory itself, or a link with nothing beneath it. */
  ghost predicate NamedSo(trail: Trail, spot: Location) {
    && spot in Hollow(trail.ready, trail.temp, trail.home) && PartOf(Hollow(trail.ready, trail.temp, trail.home), trail.moved)
    && (NoLink(trail.ready, spot) <==> spot == trail.home)
    && (!NoLink(trail.ready, spot) ==> Around(trail.moved, spot) == trail.moved)
  }

  lemma RoadMore(road: Tree, more: Tree, p: Path, at: Location)
    requires RoadTo(road, p, at) && PartOf(road, more)
    ensures RoadTo(more, p, at)
  {
    FollowMore(road, more, [], p[..|p| - 1], MAX_LINKS);
  }

  lemma RoadAround(road: Tree, t: Tree, spot: Location, to: Location)
    requires WellFormed(t) && PartOf(road, t) && spot in road && (NoLink(road, spot) <==> spot == to)
    requires forall p :: p in road ==> !(to <= p && to != p)
    ensures PartOf(road, Around(t, spot)) && (spot != to ==> Around(t, spot) == t)
  {
    if spot != to {
      LinksAreLeaves(t, spot);
    }
  }

  lemma TempAfterRollback(trail: Trail, left: Tree, spot: Location, tempDir: Path, targetDir: Path)
    requires WasPlain(trail, tempDir, targetDir) && Spot(trail.ready, targetDir) == Reached(spot) && NamedSo(trail, spot)
    requires left == Pruned(trail.moved, spot)
    ensures SafeRoad(left, tempDir) && Spot(left, tempDir) == Reached(trail.temp)
  {
    var road := Hollow(trail.ready, trail.temp, trail.home) - {spot};
    forall p | p in road
      ensures p in left && left[p] == road[p] && p in Around(left, trail.temp)
    {
      PrunedIs(trail.moved, spot, p);
      assert spot <= p && spot != trail.home ==> p !in Around(trail.moved, spot);
    }
    RoadMore(road, Around(left, trail.temp), tempDir, trail.temp);
    RoadHolds(road, left, tempDir, trail.temp);
  }

  lemma Rollback(before: Tree, written: Tree, after: Tree, spot: Location, tempDir: Path, targetDir: Path, trail: Trail)
    requires targetDir != [] && IsReady(before, written, tempDir, targetDir, trail) && WasPlain(trail, tempDir, targetDir)
    requires SameElsewhere(trail.ready, trail.moved, trail.temp, trail.home) && IsFolder(trail.moved, trail.home)
    requires Spot(trail.ready, targetDir) == Reached(spot) && NamedSo(trail, spot)
    requires after == Pruned(Pruned(trail.moved, spot), trail.temp)
    ensures RolledBack(before, after, targetDir, trail)
  {
    forall p
      ensures p in after <==> p in trail.moved && !(spot <= p) && !(trail.temp <= p)
      ensures p in after ==> after[p] == trail.moved[p]
    {
      PrunedIs(trail.moved, spot, p);
      PrunedIs(Pruned(trail.moved, spot), trail.temp, p);
    }
    if spot == trail.home {
      FailedMovePruned(before, written, trail.ready, trail.moved, trail.temp, trail.home);
    } else {
      forall p | trail.home <= p && p in trail.moved
        ensures !(spot <= p) && !(trail.temp <= p)
      {
        SidesOf(p, trail.home, trail.temp);
        assert p in Around(trail.moved, spot);
        assert p != spot;
      }
    }
  }

  /** A failed move is rolled back without a trace exactly when the name of the target is no link. */
  lemma RollbackExactly(before: Tree, after: Tree, targetDir: Path, trail: Trail)
    requires targetDir != [] && RolledBack(before, after, targetDir, trail)
    ensures Subtree(after, trail.home) == {} && OutsideKept(before, after, trail.home)
            <==> NoLink(trail.ready, Spot(trail.ready, targetDir).at)
  {
    if trail.home in after {
      assert trail.home in Subtree(after, trail.home);
    }
  }

  /******* An empty target *******/

  /** What is asked of the target before anything is done: it can be made or is there, with nothing in it, and has to do
      neither with the temporary directory nor with the way to it. */
  ghost predicate EmptyTarget(before: Tree, tempDir: Path, targetDir: Path)
    requires targetDir != [] && Fresh(before, tempDir)
  {
    var made, temp := WithDirs(before, targetDir), Spot(before, tempDir).at;
    && LeadsToDir(made, targetDir) && temp !in made && !(Leads(made, targetDir).at <= temp)
    && (forall p :: p in before ==> !(Leads(made, targetDir).at <= p && p != Leads(made, targetDir).at))
    && Spot(made, targetDir).Reached? && RoadTo(before - {Spot(made, targetDir).at}, tempDir, temp)
  }

  /** Into an empty target: without faults only the archive can make it fail, and then the target holds what was extracted. */
  method ExtractIntoEmpty(fs: FileSystem, archiver: Archiver, headers: seq<Header>, tempDir: Path, targetDir: Path)
    returns (outcome: Outcome, ghost trail: Trail, ghost clean: bool)
    requires fs.Valid() && Fresh(fs.nodes, tempDir) && targetDir != [] && NoParent(targetDir)
    requires EmptyTarget(fs.nodes, tempDir, targetDir)
    requires IsAbs(archiver.cwd) && |headers| <= MAX_INT64
    modifies fs, archiver
    ensures fs.Valid() && (fs.faults == old(fs.faults) ==> clean)
    ensures fs.faults == old(fs.faults) ==> outcome == if archiver.succeeded then Extracted else ExtractFailed
    ensures outcome == ExtractFailed && archiver.faults == old(archiver.faults) ==>
              var temp := Spot(old(fs.nodes), tempDir).at;
              !CanExtract(archiver.cwd, archiver.options, headers, old(fs.nodes)[temp := Folder], tempDir, temp)
    ensures outcome == ExtractFailed && clean ==> fs.nodes == old(fs.nodes)
    ensures outcome == MoveFailed && clean ==> RolledBack(old(fs.nodes), fs.nodes, targetDir, trail)
    ensures outcome == Extracted && clean ==>
              && trail.home == Leads(WithDirs(old(fs.nodes), targetDir), targetDir).at
              && OutsideKept(old(fs.nodes), fs.nodes, trail.home)
              && HoldsTree(archiver.written, fs.nodes, trail.temp, trail.home)
              && HoldsArchive(archiver.cwd, archiver.options, headers, fs.nodes, tempDir, trail.home)
  {
    ghost var before := fs.nodes;
    outcome, trail, clean := ExtractAtomically(fs, archiver, headers, tempDir, targetDir);
    if outcome == MoveFailed || outcome == Extracted {
      EmptyTargetIsPlain(before, archiver.written, tempDir, targetDir, trail);
      if outcome == Extracted && clean {
        EmptyTargetHoldsExtracted(before, archiver.written, fs.nodes, trail.temp, trail.home);
        HoldsArchiveToo(archiver.cwd, archiver.options, headers, archiver.written, fs.nodes, tempDir, trail.temp, trail.home);
      }
    } else if outcome == NoTargetDir {
      MakesTheSame(before, archiver.written, trail.temp, targetDir);
    }
  }

  lemma HoldsArchiveToo(cwd: string, o: Options, headers: seq<Header>, written: Tree, after: Tree,
                        tempDir: Path, temp: Location, home: Location)
    requires IsAbs(cwd) && tempDir != [] && Proper(tempDir) && NoParent(tempDir)
    requires HoldsArchive(cwd, o, headers, written, tempDir, temp) && HoldsTree(written, after, temp, home)
    requires Tame(written, temp) && IsFolder(written, temp) && IsFolder(after, home)
    ensures HoldsArchive(cwd, o, headers, after, tempDir, home)
  {
    SpelledResolves(cwd, tempDir);
    ConfigIsSound(cwd, Spell(true, tempDir), o);
    AllDeliveredAlike(ConfigFor(cwd, Spell(true, tempDir), o), written, after, tempDir, temp, home, headers);
  }

  /** Up to here the directories have been made with and without the temporary tree, and only that differs. */
  lemma {:induction false} MakesAlike(before: Tree, written: Tree, temp: Location, p: Path, n: nat)
    requires WellFormed(before) && NoParent(p) && n <= |p| && Pruned(written, temp) == before
    requires LeadsToDir(WithDirs(before, p), p) && temp !in WithDirs(before, p)
    ensures var made := MakeDirs(before, [], p, MAX_LINKS, n);
            && Making(before, made, p, n) && temp !in made
            && Pruned(MakeDirs(written, [], p, MAX_LINKS, n), temp) == made
    decreases n
  {
    if n == 0 {
      MakingStarts(before, p);
    } else {
      MakesAlike(before, written, temp, p, n - 1);
      MadeInAll(before, temp, p, n - 1);
      AlikeNext(before, written, temp, p, n - 1);
    }
  }

  lemma {:induction false} MadeInAll(before: Tree, temp: Location, p: Path, n: nat)
    requires n <= |p| && temp !in WithDirs(before, p)
    ensures temp !in MakeDirs(before, [], p, MAX_LINKS, n)
    decreases |p| - n
  {
    if n < |p| {
      MadeInAll(before, temp, p, n + 1);
    }
  }

  lemma AlikeNext(before: Tree, written: Tree, temp: Location, p: Path, m: nat)
    requires NoParent(p) && m < |p| && LeadsToDir(WithDirs(before, p), p) && temp !in WithDirs(before, p)
    requires var made := MakeDirs(before, [], p, MAX_LINKS, m);
             Making(before, made, p, m) && temp !in made && Pruned(MakeDirs(written, [], p, MAX_LINKS, m), temp) == made
    ensures var made := MakeDirs(before, [], p, MAX_LINKS, m + 1);
            && Making(before, made, p, m + 1) && temp !in made
            && Pruned(MakeDirs(written, [], p, MAX_LINKS, m + 1), temp) == made
  {
    MakingOn(before, p, m);
    MadeInAll(before, temp, p, m + 1);
    MadeAlike(before, written, temp, p, m);
  }

  lemma MakingOn(t: Tree, p: Path, m: nat)
    requires NoParent(p) && m < |p| && LeadsToDir(WithDirs(t, p), p) && Making(t, MakeDirs(t, [], p, MAX_LINKS, m), p, m)
    ensures Making(t, MakeDirs(t, [], p, MAX_LINKS, m + 1), p, m + 1)
  {
    MakingNext(t, MakeDirs(t, [], p, MAX_LINKS, m), p, m);
    MakeOneIs(t, p, m);
  }

  lemma MadeAlike(before: Tree, written: Tree, temp: Location, p: Path, m: nat)
    requires NoParent(p) && m < |p| && temp !in MakeDirs(before, [], p, MAX_LINKS, m + 1)
    requires var made := MakeDirs(before, [], p, MAX_LINKS, m);
             Making(before, made, p, m) && Pruned(MakeDirs(written, [], p, MAX_LINKS, m), temp) == made
    ensures Pruned(MakeDirs(written, [], p, MAX_LINKS, m + 1), temp) == MakeDirs(before, [], p, MAX_LINKS, m + 1)
  {
    assert p[..m + 1][..m] == p[..m];
    OneAlike(MakeDirs(before, [], p, MAX_LINKS, m), MakeDirs(written, [], p, MAX_LINKS, m), temp, p[..m + 1]);
  }

  /** One more directory, where only the temporary tree differs. */
  lemma OneAlike(u: Tree, v: Tree, temp: Location, q: Path)
    requires q != [] && NoParent(q) && Pruned(v, temp) == u && LeadsToDir(u, q[..|q| - 1])
    requires temp !in Place(u, Spot(u, q), Folder)
    ensures Pruned(Place(v, Spot(v, q), Folder), temp) == Place(u, Spot(u, q), Folder)
  {
    var spot := SameSpot(u, v, q);
    assert spot != temp;
    PlacedAlike(u, v, temp, spot);
  }

  lemma SameSpot(u: Tree, v: Tree, p: Path) returns (spot: Location)
    requires p != [] && NoParent(p) && PartOf(u, v) && LeadsToDir(u, p[..|p| - 1])
    ensures Spot(u, p) == Spot(v, p) == Reached(spot) && spot != [] && IsFolder(u, Parent(spot))
  {
    FollowMore(u, v, [], p[..|p| - 1], MAX_LINKS);
    spot := Spot(u, p).at;
    SpotNames(u, p);
  }

  lemma PlacedAlike(u: Tree, v: Tree, temp: Location, spot: Location)
    requires Pruned(v, temp) == u && spot != [] && IsFolder(u, Parent(spot)) && spot != temp
    ensures Pruned(Place(v, Reached(spot), Folder), temp) == Place(u, Reached(spot), Folder)
  {
    PrunedIs(v, temp, Parent(spot));
    PrunedIs(v, temp, spot);
    assert Parent(spot) == spot[..|spot| - 1];
  }

  lemma MakesTheSame(before: Tree, written: Tree, temp: Location, p: Path)
    requires WellFormed(before) && NoParent(p) && Pruned(written, temp) == before
    requires LeadsToDir(WithDirs(before, p), p) && temp !in WithDirs(before, p)
    ensures var made, ready := WithDirs(before, p), WithDirs(written, p);
            && Pruned(ready, temp) == made && WellFormed(made) && PartOf(made, ready)
            && Leads(ready, p) == Leads(made, p) && LeadsToDir(ready, p) && OnlyDirsAdded(before, made, Leads(made, p).at)
  {
    MakesAlike(before, written, temp, p, |p|);
    assert p[..|p|] == p;
    var made, ready := WithDirs(before, p), WithDirs(written, p);
    assert PartOf(made, ready);
    FollowMore(made, ready, [], p, MAX_LINKS);
  }

  lemma EmptyTargetIsPlain(before: Tree, written: Tree, tempDir: Path, targetDir: Path, trail: Trail)
    requires targetDir != [] && NoParent(targetDir) && IsReady(before, written, tempDir, targetDir, trail)
    requires EmptyTarget(before, tempDir, targetDir)
    ensures WasPlain(trail, tempDir, targetDir) && !Clash(trail.ready, trail.temp, trail.home)
    ensures trail.home == Leads(WithDirs(before, targetDir), targetDir).at
    ensures forall p :: p in before ==> !(trail.home <= p && p != trail.home)
  {
    var made, ready, temp, home := WithDirs(before, targetDir), trail.ready, trail.temp, trail.home;
    MakesTheSame(before, written, temp, targetDir);
    NothingInHome(before, made, ready, temp, home);
    var road := Hollow(ready, temp, home);
    assert PartOf(made, road);
    FollowMore(made, road, [], targetDir, MAX_LINKS);
    var spot := TargetName(made, targetDir, home);
    RoadHolds(made, ready, targetDir, spot);
    RoadMore(before - {spot}, road - {spot}, tempDir, temp);
  }

  /** The target has nothing in it, and so no directory of the source meets anything there. */
  lemma NothingInHome(before: Tree, made: Tree, ready: Tree, temp: Location, home: Location)
    requires WellFormed(made) && Pruned(ready, temp) == made && temp !in made && IsFolder(made, home) && !(home <= temp)
    requires OnlyDirsAdded(before, made, home) && forall p :: p in before ==> !(home <= p && p != home)
    requires IsFolder(ready, temp)
    ensures Apart(temp, home)
    ensures forall p :: p in ready ==> !(home <= p && p != home)
    ensures MeetsNoLink(ready, temp, home) && !Clash(ready, temp, home)
  {
    PrunedIs(ready, temp, home);
    forall p | p in ready
      ensures !(home <= p && p != home)
    {
      PrunedIs(ready, temp, p);
      if temp <= p {
        OnlyOneSide(p, temp, home);
      }
    }
    forall q | q in ready && temp <= q && Target(q, temp, home) in ready
      ensures q == temp && Target(q, temp, home) == home
    {
      assert home <= Target(q, temp, home);
      assert q == temp + q[|temp|..];
    }
  }

  /******* A target that is a link *******/

  /** An empty directory, and a link to it. */
  ghost function LinkedTree(d: string, l: string): Tree {
    map[[] := Folder, [d] := Folder, [l] := Link(Spell(true, [d]))]
  }

  /** A link to an empty directory is an empty target, and by its name it is the link: RollbackExactly then says that a failed
      move leaves its files behind the link, and the link gone. */
  lemma LinkIsEmptyTarget(d: string, l: string, x: string)
    requires Proper([d]) && Proper([l]) && Proper([x]) && NoParent([d]) && NoParent([l]) && NoParent([x])
    requires d != l && d != x && l != x
    ensures var t := LinkedTree(d, l);
            && WellFormed(t) && Fresh(t, [x]) && EmptyTarget(t, [x], [l])
            && WithDirs(t, [l]) == t && Leads(t, [l]) == Reached([d]) && Spot(t, [l]) == Reached([l]) && !NoLink(t, [l])
  {
    var t := LinkedTree(d, l);
    OneName(t, l);
    OneName(t, x);
    SpellComps(true, [d]);
    assert [l][1..] == [] && [] + [l] == [l] && [d] + [] == [d] && [d][1..] == [] && [] + [d] == [d];
    assert Leads(t, [l]) == Follow(t, [], [d], MAX_LINKS - 1);
    assert Follow(t, [d], [], MAX_LINKS - 1) == Reached([d]);
    OneName(t - {[l]}, x);
  }

  lemma OneName(t: Tree, name: string)
    requires IsFolder(t, [])
    ensures Spot(t, [name]) == Reached([name]) && MakeDirs(t, [], [name], MAX_LINKS, 1) == Place(t, Reached([name]), Folder)
    ensures RoadTo(t, [name], [name])
  {
    assert [name][..0] == [] && [name][..1] == [name] && [] + [name] == [name];
  }
}
