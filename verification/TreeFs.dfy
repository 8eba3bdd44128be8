/** A filesystem as the extraction code of oci/client.go uses it: by absolute paths, which are followed through symbolic
    links as the system does. */
module TreeFs {
  import opened LexicalPath
  import opened LinkTree

  /** The components of an absolute path. */
  type Path = seq<string>

  /** Where a path leads. */
  function Leads(t: Tree, p: Path): Found {
    Follow(t, [], p, MAX_LINKS)
  }

  /** Where the thing of that name is, which may be a link. */
  function Spot(t: Tree, p: Path): Found
    requires p != []
  {
    Entry(t, [], p, MAX_LINKS)
  }

  predicate NoLink(t: Tree, at: Location) {
    at in t ==> !t[at].Link?
  }

  predicate LeadsToDir(t: Tree, p: Path) {
    LeadsToFolder(t, Leads(t, p))
  }

  /** The tree with the directories that are missing on the way. */
  function WithDirs(t: Tree, p: Path): Tree {
    MakeDirs(t, [], p, MAX_LINKS, |p|)
  }

  /** What lies at or beneath a place. */
  ghost function Subtree(t: Tree, root: Location): set<Location> {
    set p | p in t && root <= p
  }

  /** Everything but that. */
  ghost function Pruned(t: Tree, root: Location): Tree {
    map p | p in t && !(root <= p) :: t[p]
  }

  lemma NothingBeneathMissing(t: Tree, root: Location)
    requires WellFormed(t) && root !in t
    ensures Subtree(t, root) == {}
  {
    forall p | p in t
      ensures !(root <= p)
    {
      assert p[..|p|] == p && (root <= p ==> root == p[..|root|]);
      if |root| < |p| {
        AncestorsAreFolders(t, p, |root|);
      }
    }
  }

  /** The place in one subtree that corresponds to q in another. */
  function Target(q: Location, src: Location, dst: Location): Location
    requires src <= q
  {
    dst + q[|src|..]
  }

  /******* The path of something in a directory *******/

  /** Going on from where a path leads, past directories only. */
  lemma SpotBeneath(t: Tree, root: Path, home: Location, q: Location)
    requires WellFormed(t) && Leads(t, root) == Reached(home) && q in t && home <= q && q != home
    ensures Spot(t, Target(q, home, root)) == Reached(q)
  {
    SpotFor(t, root, home, q);
  }

  lemma SpotFor(t: Tree, root: Path, home: Location, q: Location)
    requires WellFormed(t) && Leads(t, root) == Reached(home) && home <= q && q != home && IsFolder(t, Parent(q))
    requires NoParent(q)
    ensures Spot(t, Target(q, home, root)) == Reached(q)
  {
    Pieces(q, home, root);
    var up, last := Parent(q)[|home|..], q[|q| - 1];
    StairsTo(t, home, Parent(q));
    SpotOn(t, root, home, up, last);
  }

  lemma Pieces(q: Location, home: Location, root: Path)
    requires home <= q && q != home
    ensures q != [] && home <= Parent(q)
    ensures var up, last := Parent(q)[|home|..], q[|q| - 1];
            q == home + up + [last] && Target(q, home, root) == root + up + [last] && (NoParent(q) ==> NoParent(up))
  {
  }

  lemma SpotOn(t: Tree, root: Path, home: Location, up: seq<string>, last: string)
    requires Leads(t, root) == Reached(home) && Stairs(t, home, up) && NoParent(up)
    ensures Spot(t, root + up + [last]) == Reached(home + up + [last])
  {
    assert home + up[..0] == home;
    FollowOn(t, [], root, up, MAX_LINKS, home);
    var p := root + up + [last];
    assert p[..|p| - 1] == root + up;
    assert up[..|up|] == up;
  }

  lemma StairsTo(t: Tree, home: Location, q: Location)
    requires WellFormed(t) && IsFolder(t, q) && home <= q
    ensures Stairs(t, home, q[|home|..])
  {
    var rest := q[|home|..];
    forall k | 0 <= k <= |rest|
      ensures IsFolder(t, home + rest[..k])
    {
      var p := q[..|home| + k];
      assert home + rest[..k] == p;
      if k < |rest| {
        AncestorsAreFolders(t, q, |home| + k);
      } else {
        assert p == q;
      }
    }
  }

  /** What is no link leads to itself. */
  lemma LeadsToSpot(t: Tree, p: Path)
    requires p != [] && NoParent(p) && Spot(t, p).Reached? && NoLink(t, Spot(t, p).at)
    ensures Leads(t, p) == Spot(t, p)
  {
    var up, last := p[..|p| - 1], p[|p| - 1];
    assert p == up + [last];
    LastStep(t, [], up, last, MAX_LINKS);
  }

  /******* Walks *******/

  /** The order of a walk: places of the subtree, none twice and none without or before its parent. */
  ghost predicate InWalkOrder(t: Tree, root: Location, listing: seq<Location>) {
    && (forall p :: p in listing ==> p in t && root <= p)
    && (forall p :: p in listing && p != root ==> Parent(p) in listing)
    && (forall i, j :: 0 <= i < j < |listing| ==> listing[i] != listing[j] && !(listing[j] <= listing[i]))
  }

  /** A whole walk meets every place of the subtree. */
  ghost predicate IsWalk(t: Tree, root: Location, listing: seq<Location>) {
    InWalkOrder(t, root, listing) && forall p :: p in t && root <= p ==> p in listing
  }

  lemma ParentIsEarlier(t: Tree, root: Location, listing: seq<Location>, i: nat)
    requires InWalkOrder(t, root, listing) && i < |listing| && listing[i] != root
    ensures listing[i] != [] && Parent(listing[i]) in listing[..i]
  {
    var p := listing[i];
    assert p in listing;
    var j :| 0 <= j < |listing| && listing[j] == Parent(p);
    assert listing[j] <= listing[i];
    assert listing[..i][j] == listing[j];
  }

  lemma {:induction false} ShortestExists(s: set<Location>) returns (p: Location)
    requires s != {}
    ensures p in s && forall q :: q in s ==> |p| <= |q|
    decreases |s|
  {
    p :| p in s;
    if s != {p} {
      var rest := s - {p};
      var q := ShortestExists(rest);
      assert s == rest + {p};
      if |q| < |p| {
        p := q;
      }
    }
  }

  /** What a walk met: the path of each place, and whether it is a directory. */
  datatype Visit = Visit(path: Path, isDir: bool)

  ghost predicate Visited(t: Tree, root: Path, home: Location, visits: seq<Visit>, spots: seq<Location>) {
    && |visits| == |spots|
    && forall i :: 0 <= i < |spots| ==>
         home <= spots[i] && spots[i] in t
         && visits[i] == Visit(Target(spots[i], home, root), t[spots[i]].Folder?)
  }

  lemma VisitNext(t: Tree, root: Path, home: Location, visits: seq<Visit>, spots: seq<Location>, p: Location)
    requires Visited(t, root, home, visits, spots) && home <= p && p in t
    ensures Visited(t, root, home, visits + [Visit(Target(p, home, root), t[p].Folder?)], spots + [p])
  {
  }

  /** Nothing lies in it, and it is not the root. */
  ghost predicate Removable(t: Tree, found: Found) {
    && found.Reached? && found.at in t && found.at != []
    && forall q :: q in t && q != [] ==> Parent(q) != found.at
  }

  lemma EmptyExactly(t: Tree, at: Location, inside: set<Location>)
    requires WellFormed(t) && at in t && at != [] && forall q :: q in inside <==> q in t && q != [] && Parent(q) == at
    ensures Removable(t, Reached(at)) <==> inside == {}
    ensures inside == {} ==> WellFormed(t - {at})
  {
    if q :| q in inside {
      assert q in t && q != [] && Parent(q) == at;
    }
    if inside == {} {
      forall p | p in t - {at}
        ensures NoParent(p) && (p != [] ==> IsFolder(t - {at}, Parent(p)))
      {
        assert p !in inside;
      }
    }
  }

  /** A leaf can be put here: in an existing directory, and not over a directory. */
  ghost predicate HasRoom(t: Tree, found: Found) {
    found.Reached? && !IsFolder(t, found.at)
  }

  class FileSystem {
    var nodes: Tree
    ghost var faults: nat  // how often a call has failed for a reason other than what is on disk

    ghost predicate Valid()
      reads this
    {
      WellFormed(nodes)
    }

    method DiskFails() returns (fails: bool)
      modifies `faults
      ensures faults == old(faults) + if fails then 1 else 0
    {
      fails := *;
      if fails {
        faults := faults + 1;
      }
    }

    /** Removes a file, a link or an empty directory. */
    method Remove(p: Path) returns (ok: bool)
      requires Valid() && p != []
      modifies this
      ensures Valid() && old(faults) <= faults
      ensures ok <==> faults == old(faults) && Removable(old(nodes), Spot(old(nodes), p))
      ensures nodes == if ok then old(nodes) - {Spot(old(nodes), p).at} else old(nodes)
    {
      var spot := Spot(nodes, p);
      var fails := DiskFails();
      if fails || spot.Nowhere? || spot.at !in nodes {
        return false;
      }
      var inside := set q | q in nodes && q != [] && Parent(q) == spot.at;
      EmptyExactly(nodes, spot.at, inside);
      if inside != {} {
        return false;
      }
      nodes := nodes - {spot.at};
      ok := true;
    }

    /** Makes a directory and those above it that are missing; a link to a directory will do. */
    method MkdirAll(p: Path) returns (ok: bool, ghost n: nat)
      requires Valid() && NoParent(p)
      modifies this
      ensures Valid() && old(faults) <= faults
      ensures n <= |p| && Making(old(nodes), nodes, p, n)
      ensures ok <==> n == |p|
      ensures !ok && faults == old(faults) ==> !LeadsToDir(WithDirs(old(nodes), p), p)
    {
      var m := 0;
      n := 0;
      ok := true;
      MakingStarts(nodes, p);
      while m < |p|
        invariant m <= |p| && n == m && faults == old(faults) && Making(old(nodes), nodes, p, m)
      {
        ok := MkdirNext(old(nodes), p, m);
        if !ok {
          return;
        }
        m := m + 1;
        n := m;
      }
    }

    /** One more directory on the way. */
    method MkdirNext(ghost before: Tree, p: Path, m: nat) returns (ok: bool)
      requires m < |p| && NoParent(p) && Making(before, nodes, p, m)
      modifies this
      ensures old(faults) <= faults
      ensures Making(before, nodes, p, if ok then m + 1 else m)
      ensures ok ==> faults == old(faults)
      ensures !ok && faults == old(faults) ==> !LeadsToDir(WithDirs(before, p), p)
    {
      MakingNext(before, nodes, p, m);
      if LeadsToDir(nodes, p[..m + 1]) {
        return true;
      }
      var spot := Spot(nodes, p[..m + 1]);
      if spot.at in nodes {
        return false;
      }
      var fails := DiskFails();
      if fails {
        return false;
      }
      nodes := nodes[spot.at := Folder];
      ok := true;
    }

    /** Moves a file or a link, over another one or to a new place in an existing directory. */
    method Rename(from: Path, to: Path) returns (ok: bool)
      requires Valid() && from != [] && to != [] && NoParent(to)
      modifies this
      ensures Valid() && old(faults) <= faults
      ensures ok <==> faults == old(faults) && MayMove(old(nodes), Spot(old(nodes), from)) && HasRoom(old(nodes), Spot(old(nodes), to))
      ensures nodes == if !ok then old(nodes)
                       else Renamed(old(nodes), Spot(old(nodes), from).at, Spot(old(nodes), to).at)
    {
      var source, place := Spot(nodes, from), Spot(nodes, to);
      var fails := DiskFails();
      if fails || source.Nowhere? || source.at !in nodes || nodes[source.at].Folder? {
        return false;
      }
      if place.Nowhere? || IsFolder(nodes, place.at) {
        return false;
      }
      SpotNames(nodes, to);
      RenamedIsWellFormed(nodes, source.at, place.at);
      nodes := Renamed(nodes, source.at, place.at);
      ok := true;
    }

    /** The paths of a tree as a walk meets them, or those met before the walk failed. A link is not entered. */
    method Walk(root: Path) returns (ok: bool, visits: seq<Visit>, ghost spots: seq<Location>)
      requires Valid() && root != []
      modifies `faults
      ensures old(faults) <= faults
      ensures var home := Spot(nodes, root);
              if home.Reached? && home.at in nodes then
                && (ok <==> faults == old(faults))
                && Visited(nodes, root, home.at, visits, spots) && InWalkOrder(nodes, home.at, spots)
                && (ok ==> IsWalk(nodes, home.at, spots))
              else !ok && visits == []
    {
      visits, spots := [], [];
      var spot := Spot(nodes, root);
      if spot.Nowhere? || spot.at !in nodes {
        return false, visits, spots;
      }
      var rest := set p | p in nodes && spot.at <= p;
      while rest != {}
        invariant WalkedSoFar(nodes, spot.at, spots, rest) && Visited(nodes, root, spot.at, visits, spots)
        invariant faults == old(faults)
        decreases rest
      {
        var fails := DiskFails();
        if fails {
          return false, visits, spots;
        }
        ghost var shortest := ShortestExists(rest);
        var p :| p in rest && forall q :: q in rest ==> |p| <= |q|;
        WalkNext(nodes, spot.at, spots, rest, p);
        VisitNext(nodes, root, spot.at, visits, spots, p);
        visits := visits + [Visit(Target(p, spot.at, root), nodes[p].Folder?)];
        spots := spots + [p];
        rest := rest - {p};
      }
      ok := true;
    }
  }

  /** Nothing is gone or changed, and what is new are directories at or above a place. */
  ghost predicate OnlyDirsAdded(before: Tree, after: Tree, at: Location) {
    && PartOf(before, after)
    && (forall q :: q in after && q !in before ==> q <= at && after[q].Folder?)
  }

  /** If anything is new, nothing lies beneath this place. */
  ghost predicate Deepest(before: Tree, after: Tree, at: Location) {
    OnlyDirsAdded(before, after, at) && (after == before || Subtree(after, at) == {at})
  }

  lemma DeepestNext(t: Tree, u: Tree, at: Location, spot: Location)
    requires WellFormed(u) && Deepest(t, u, at) && spot != [] && Parent(spot) == at
    ensures if spot in u then u == t else Deepest(t, u[spot := Folder], spot)
  {
    if spot in u {
      assert u == t || spot in Subtree(u, at);
    } else {
      LoneFolder(u, spot);
    }
  }

  lemma LoneFolder(u: Tree, spot: Location)
    requires WellFormed(u) && spot !in u
    ensures Subtree(u[spot := Folder], spot) == {spot}
  {
    NothingBeneathMissing(u, spot);
    var v := u[spot := Folder];
    forall x
      ensures x in Subtree(v, spot) <==> x == spot
    {
      assert x in u && spot <= x ==> x in Subtree(u, spot);
    }
  }

  /** The first m directories of a path have been made or found. */
  ghost predicate Making(t: Tree, u: Tree, p: Path, m: nat)
    requires m <= |p|
  {
    && u == MakeDirs(t, [], p, MAX_LINKS, m) && WellFormed(u)
    && LeadsToDir(u, p[..m]) && Deepest(t, u, Leads(u, p[..m]).at)
  }

  lemma MakingStarts(t: Tree, p: Path)
    requires WellFormed(t)
    ensures Making(t, t, p, 0)
  {
    assert p[..0] == [];
  }

  lemma MakingNext(t: Tree, u: Tree, p: Path, m: nat)
    requires m < |p| && NoParent(p) && Making(t, u, p, m)
    ensures var spot := Spot(u, p[..m + 1]);
            && spot.Reached?
            && (LeadsToDir(u, p[..m + 1]) ==> Making(t, u, p, m + 1))
            && (spot.at !in u ==> Making(t, u[spot.at := Folder], p, m + 1))
            && (spot.at in u && !LeadsToDir(u, p[..m + 1]) ==> !LeadsToDir(WithDirs(t, p), p))
  {
    MakeOneIs(t, p, m);
    var spot := Spot(u, p[..m + 1]).at;
    assert p[..m + 1][..m] == p[..m];
    DeepestNext(t, u, Leads(u, p[..m]).at, spot);
    if spot in u {
      if LeadsToDir(u, p[..m + 1]) {
        assert u == t;
      } else {
        StuckStays(t, p, m);
      }
    } else {
      NewLeads(u, p[..m + 1], spot);
    }
  }

  ghost predicate MayMove(t: Tree, found: Found) {
    found.Reached? && found.at in t && !t[found.at].Folder?
  }

  function Renamed(t: Tree, from: Location, to: Location): Tree
    requires from in t
  {
    (t - {from})[to := t[from]]
  }

  lemma RenamedIsWellFormed(t: Tree, from: Location, to: Location)
    requires WellFormed(t) && from in t && !t[from].Folder? && !IsFolder(t, to)
    requires to != [] && NoParent(to) && IsFolder(t, Parent(to))
    ensures WellFormed(Renamed(t, from, to))
  {
    var u := Renamed(t, from, to);
    forall p | p in u
      ensures NoParent(p) && (p != [] ==> IsFolder(u, Parent(p)))
    {
      if p != to && p != [] {
        assert p in t && IsFolder(t, Parent(p));
      }
    }
  }

  lemma SpotNames(t: Tree, p: Path)
    requires p != [] && NoParent(p)
    ensures Spot(t, p).Reached? ==> NoParent(Spot(t, p).at) && Spot(t, p).at != [] && IsFolder(t, Parent(Spot(t, p).at))
  {
    FollowNames(t, [], p[..|p| - 1], MAX_LINKS);
  }

  /** One more directory on the way: it is there, can be made, or something else is in its place. */
  lemma MakeOneIs(t: Tree, p: Path, m: nat)
    requires m < |p| && NoParent(p) && WellFormed(MakeDirs(t, [], p, MAX_LINKS, m))
    requires LeadsToDir(MakeDirs(t, [], p, MAX_LINKS, m), p[..m])
    ensures var u := MakeDirs(t, [], p, MAX_LINKS, m);
            var spot := Spot(u, p[..m + 1]);
            && spot.Reached? && spot.at != [] && NoParent(spot.at) && IsFolder(u, Parent(spot.at))
            && MakeDirs(t, [], p, MAX_LINKS, m + 1) == (if spot.at in u then u else u[spot.at := Folder])
            && (LeadsToDir(u, p[..m + 1]) ==> spot.at in u)
            && (spot.at !in u ==> LeadsToDir(u[spot.at := Folder], p[..m + 1]))
  {
    var u := MakeDirs(t, [], p, MAX_LINKS, m);
    var q := p[..m + 1];
    assert q[..|q| - 1] == p[..m];
    SpotNames(u, q);
    var spot := Spot(u, q).at;
    if spot !in u {
      NewLeads(u, q, spot);
    }
  }

  lemma NewLeads(u: Tree, q: Path, spot: Location)
    requires q != [] && NoParent(q) && Spot(u, q) == Reached(spot) && spot !in u
    ensures Leads(u, q) == Reached(spot) && Leads(u[spot := Folder], q) == Reached(spot)
  {
    FollowMore(u, u[spot := Folder], [], q[..|q| - 1], MAX_LINKS);
    LeadsToSpot(u, q);
    LeadsToSpot(u[spot := Folder], q);
  }

  /** Following to a name that is no link. */
  lemma {:induction false} LastStep(t: Tree, at: Location, up: seq<string>, last: string, links: nat)
    requires var found := Follow(t, at, up, links);
             LeadsToFolder(t, found) && last != ".." && NoLink(t, found.at + [last])
    ensures Follow(t, at, up + [last], links) == Reached(Follow(t, at, up, links).at + [last])
    decreases links, |up|
  {
    var rest := up + [last];
    if up == [] {
      assert rest == [last] && rest[1..] == [];
    } else {
      assert rest[0] == up[0] && rest[1..] == up[1..] + [last];
      if up[0] == ".." {
        LastStep(t, Up(at), up[1..], last, links);
      } else {
        LastStepNext(t, at, up, last, links);
      }
    }
  }

  lemma {:induction false} LastStepNext(t: Tree, at: Location, up: seq<string>, last: string, links: nat)
    requires up != [] && up[0] != ".." && last != ".."
    requires var found := Follow(t, at, up, links);
             LeadsToFolder(t, found) && NoLink(t, found.at + [last])
    ensures Follow(t, at, up + [last], links) == Reached(Follow(t, at, up, links).at + [last])
    decreases links, |up|, 0
  {
    var rest := up + [last];
    assert rest[0] == up[0] && rest[1..] == up[1..] + [last];
    var next := at + [up[0]];
    match t[next]
    case Folder => LastStep(t, next, up[1..], last, links);
    case Link(target) =>
      assert Comps(target) + rest[1..] == Comps(target) + up[1..] + [last];
      LastStep(t, if IsAbs(target) then [] else at, Comps(target) + up[1..], last, links - 1);
    case File(_) =>
  }

  /** Something that is no directory stays in the way. */
  lemma StuckStays(t: Tree, p: Path, m: nat)
    requires m < |p|
    requires var u := MakeDirs(t, [], p, MAX_LINKS, m);
             WellFormed(u) && !LeadsToDir(u, p[..m + 1]) && MakeDirs(t, [], p, MAX_LINKS, m + 1) == u
    ensures !LeadsToDir(WithDirs(t, p), p)
  {
    StuckFrom(t, p, m, |p|);
    var u := MakeDirs(t, [], p, MAX_LINKS, m);
    if LeadsToDir(u, p) {
      assert p == p[..m + 1] + p[m + 1..];
      FollowPrefix(u, [], p[..m + 1], p[m + 1..], MAX_LINKS);
    }
  }

  lemma {:induction false} StuckFrom(t: Tree, p: Path, m: nat, n: nat)
    requires m < n <= |p|
    requires var u := MakeDirs(t, [], p, MAX_LINKS, m);
             WellFormed(u) && !LeadsToDir(u, p[..m + 1]) && MakeDirs(t, [], p, MAX_LINKS, m + 1) == u
    ensures MakeDirs(t, [], p, MAX_LINKS, n) == MakeDirs(t, [], p, MAX_LINKS, m)
    decreases n
  {
    if n > m + 1 {
      StuckFrom(t, p, m, n - 1);
      NoSpotBehind(MakeDirs(t, [], p, MAX_LINKS, m), p, m, n);
    }
  }

  lemma NoSpotBehind(u: Tree, p: Path, m: nat, n: nat)
    requires m + 1 < n <= |p| && WellFormed(u) && !LeadsToDir(u, p[..m + 1])
    ensures Spot(u, p[..n]).Nowhere?
  {
    var first, more := p[..m + 1], p[m + 1..n - 1];
    assert p[..n][..n - 1] == first + more;
    if LeadsToDir(u, first + more) {
      FollowPrefix(u, [], first, more, MAX_LINKS);
    }
  }

  /** Directories on the way that are there are not made. */
  lemma {:induction false} AllThere(t: Tree, p: Path, n: nat)
    requires WellFormed(t) && NoParent(p) && n <= |p| && LeadsToDir(t, p[..n])
    ensures MakeDirs(t, [], p, MAX_LINKS, n) == t
  {
    if n > 0 {
      assert p[..n] == p[..n - 1] + [p[n - 1]];
      FollowPrefix(t, [], p[..n - 1], [p[n - 1]], MAX_LINKS);
      AllThere(t, p, n - 1);
      MakeOneIs(t, p, n - 1);
    }
  }

  /** When all but the last name is there, MkdirAll makes what is missing, and is content with a directory. */
  lemma WithDirsAt(t: Tree, p: Path, q: Location, n: nat)
    requires WellFormed(t) && p != [] && NoParent(p) && Spot(t, p) == Reached(q) && NoLink(t, q) && n <= |p|
    ensures MakeDirs(t, [], p, MAX_LINKS, n) == (if n < |p| || q in t then t else t[q := Folder])
    ensures LeadsToDir(WithDirs(t, p), p) <==> q !in t || t[q].Folder?
  {
    AllButLast(t, p, n);
    AllButLast(t, p, |p| - 1);
    assert p[..|p|] == p;
    if q in t {
      LeadsToSpot(t, p);
    } else {
      NewLeads(t, p, q);
    }
  }

  lemma AllButLast(t: Tree, p: Path, n: nat)
    requires WellFormed(t) && p != [] && NoParent(p) && Spot(t, p).Reached? && n <= |p|
    ensures n < |p| ==> MakeDirs(t, [], p, MAX_LINKS, n) == t
  {
    var m := |p| - 1;
    if n < m {
      assert p[..m] == p[..n] + p[n..m];
      FollowPrefix(t, [], p[..n], p[n..m], MAX_LINKS);
    }
    if n <= m {
      AllThere(t, p, n);
    }
  }

  /** When MkdirAll succeeds, a directory is in the place of that name exactly when no link was. */
  lemma MadeExactly(t: Tree, p: Path, q: Location)
    requires WellFormed(t) && p != [] && NoParent(p) && Spot(t, p) == Reached(q) && LeadsToDir(WithDirs(t, p), p)
    ensures IsFolder(WithDirs(t, p), q) <==> NoLink(t, q)
  {
    AllButLast(t, p, |p| - 1);
    assert p[..|p|] == p;
    if NoLink(t, q) {
      WithDirsAt(t, p, q, |p|);
    }
  }

  /** Where a link leads to a directory, MkdirAll makes nothing, and what is then put there goes through the link. */
  lemma ThroughLink(t: Tree, root: Path, home: Location, q: Location, name: string)
    requires WellFormed(t) && Leads(t, root) == Reached(home) && home <= q && q != home && IsFolder(t, Parent(q))
    requires NoParent(root) && NoParent(q) && q in t && t[q].Link? && LeadsToDir(t, Target(q, home, root))
    ensures var p := Target(q, home, root);
            && WithDirs(t, p) == t
            && Spot(t, p + [name]) == Reached(Leads(t, p).at + [name]) != Reached(q + [name])
  {
    var p := Target(q, home, root);
    assert p[..|p|] == p && (p + [name])[..|p|] == p;
    AllThere(t, p, |p|);
    assert Leads(t, p).at != q;
    assert (Leads(t, p).at + [name])[..|Leads(t, p).at|] == Leads(t, p).at;
    assert (q + [name])[..|q|] == q;
  }

  /******* Roads *******/

  /** Part of a tree is enough to get to a name. */
  ghost predicate RoadTo(road: Tree, p: Path, at: Location) {
    && p != [] && at != [] && p[|p| - 1] == at[|at| - 1]
    && Leads(road, p[..|p| - 1]) == Reached(Parent(at)) && IsFolder(road, Parent(at))
  }

  lemma RoadHolds(road: Tree, t: Tree, p: Path, at: Location)
    requires RoadTo(road, p, at) && PartOf(road, t)
    ensures Spot(t, p) == Reached(at)
  {
    FollowMore(road, t, [], p[..|p| - 1], MAX_LINKS);
    assert at == Parent(at) + [at[|at| - 1]];
  }

  /** All but what lies beneath a place; the place itself is kept. */
  ghost function Around(t: Tree, at: Location): Tree {
    map p | p in t && !(at <= p && at != p) :: t[p]
  }

  /** The way to a name does not lead through what lies beneath it. */
  ghost predicate SafeRoad(t: Tree, p: Path) {
    p != [] && NoParent(p) && Spot(t, p).Reached? && RoadTo(Around(t, Spot(t, p).at), p, Spot(t, p).at)
  }

  /** The listed paths and the rest make up the subtree, and none of the rest is shorter than a listed one. */
  ghost predicate WalkedSoFar(t: Tree, root: Location, listing: seq<Location>, rest: set<Location>) {
    && InWalkOrder(t, root, listing)
    && (forall p :: p in rest ==> p in t && root <= p && p !in listing)
    && (forall p :: p in t && root <= p ==> p in listing || p in rest)
    && (forall p, q :: p in listing && q in rest ==> |p| <= |q|)
  }

  lemma WalkNext(t: Tree, root: Location, listing: seq<Location>, rest: set<Location>, p: Location)
    requires WellFormed(t) && WalkedSoFar(t, root, listing, rest)
    requires p in rest && forall q :: q in rest ==> |p| <= |q|
    ensures WalkedSoFar(t, root, listing + [p], rest - {p})
  {
    var next := listing + [p];
    assert next[|listing|] == p;
    assert forall q :: q in next <==> q in listing || q == p;
    if p != root {
      assert Parent(p) in t && root <= Parent(p);
      assert Parent(p) !in rest;
    }
    forall i | 0 <= i < |listing|
      ensures next[i] == listing[i] && listing[i] != p && !(p <= listing[i])
    {
      assert listing[i] in listing;
      SamePrefix(p, listing[i]);
    }
  }

  lemma SamePrefix(p: Location, q: Location)
    ensures p <= q && |q| <= |p| ==> p == q
  {
  }
}
