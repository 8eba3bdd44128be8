/** Files, directories and symbolic links by where they really are, and how the system follows paths through the links. */
module LinkTree {
  import opened LexicalPath

  datatype Node = Folder | File(content: string) | Link(target: string)

  /** A location is spelled without links, "." and "..". */
  type Location = seq<string>

  type Tree = map<Location, Node>

  /** How many links the system follows in one path. */
  const MAX_LINKS := 40

  function Parent(at: Location): Location
    requires at != []
  {
    at[..|at| - 1]
  }

  function Up(at: Location): Location {
    if at == [] then [] else Parent(at)
  }

  /** A directory, and not a link to one. */
  predicate IsFolder(tree: Tree, at: Location) {
    at in tree && tree[at].Folder?
  }

  /** The root is a directory, and everything else lies in a directory. */
  ghost predicate WellFormed(tree: Tree) {
    && IsFolder(tree, [])
    && forall at :: at in tree ==> NoParent(at) && (at != [] ==> IsFolder(tree, Parent(at)))
  }

  datatype Found = Reached(at: Location) | Nowhere

  /** Where the components lead from a directory, the last one followed too; only the last one may be missing. A number of
      links is followed at most. */
  function Follow(tree: Tree, at: Location, rest: seq<string>, links: nat): Found
    decreases links, |rest|
  {
    if rest == [] then Reached(at)
    else if rest[0] == ".." then Follow(tree, Up(at), rest[1..], links)
    else
      var next := at + [rest[0]];
      if next !in tree then (if |rest| == 1 then Reached(next) else Nowhere)
      else
        match tree[next]
        case Folder => Follow(tree, next, rest[1..], links)
        case File(_) => if |rest| == 1 then Reached(next) else Nowhere
        case Link(target) =>
          if links == 0 then Nowhere
          else Follow(tree, if IsAbs(target) then [] else at, Comps(target) + rest[1..], links - 1)
  }

  /** Where something new would go: its directory is followed, its name is not. */
  function Entry(tree: Tree, at: Location, rest: seq<string>, links: nat): Found
    requires rest != []
  {
    var parent := Follow(tree, at, rest[..|rest| - 1], links);
    if parent.Reached? && IsFolder(tree, parent.at) then Reached(parent.at + [rest[|rest| - 1]])
    else Nowhere
  }

  /** Places a node where nothing is. */
  function Place(tree: Tree, found: Found, node: Node): Tree {
    if found.Reached? && found.at !in tree then tree[found.at := node] else tree
  }

  /** mkdir of the prefixes of a path one after the other, the first n of them; one that is there is no error. */
  function MakeDirs(tree: Tree, at: Location, rest: seq<string>, links: nat, n: nat): Tree
    requires n <= |rest|
  {
    if n == 0 then tree
    else
      var before := MakeDirs(tree, at, rest, links, n - 1);
      Place(before, Entry(before, at, rest[..n], links), Folder)
  }

  /** open with O_CREATE and O_TRUNC: a link in the last place is followed, and what it leads to may be missing. */
  function OpenFile(tree: Tree, at: Location, rest: seq<string>, links: nat, content: string): Tree {
    var found := Follow(tree, at, rest, links);
    if found.Reached? && found.at != [] && IsFolder(tree, Parent(found.at)) && !IsFolder(tree, found.at)
    then tree[found.at := File(content)]
    else tree
  }

  function MakeSymlink(tree: Tree, at: Location, rest: seq<string>, links: nat, target: string): Tree {
    if rest == [] || target == "" then tree else Place(tree, Entry(tree, at, rest, links), Link(target))
  }

  /******* Following in stages, and in other trees *******/

  lemma {:induction false} AncestorsAreFolders(tree: Tree, at: Location, n: nat)
    requires WellFormed(tree) && at in tree && n < |at|
    ensures IsFolder(tree, at[..n])
    decreases |at|
  {
    if n < |at| - 1 {
      AncestorsAreFolders(tree, Parent(at), n);
      assert Parent(at)[..n] == at[..n];
    }
  }

  /** The directories on the way from one place down to another are there. */
  ghost predicate Stairs(tree: Tree, at: Location, rest: seq<string>) {
    forall k :: 0 <= k <= |rest| ==> IsFolder(tree, at + rest[..k])
  }

  lemma StairsNext(tree: Tree, at: Location, rest: seq<string>)
    requires Stairs(tree, at, rest) && rest != []
    ensures IsFolder(tree, at + [rest[0]]) && Stairs(tree, at + [rest[0]], rest[1..])
  {
    assert rest[..1] == [rest[0]];
    forall k | 0 <= k <= |rest[1..]|
      ensures IsFolder(tree, at + [rest[0]] + rest[1..][..k])
    {
      assert at + [rest[0]] + rest[1..][..k] == at + rest[..k + 1];
    }
  }

  lemma {:induction false} FollowStairs(tree: Tree, at: Location, rest: seq<string>, links: nat)
    requires Stairs(tree, at, rest) && NoParent(rest)
    ensures Follow(tree, at, rest, links) == Reached(at + rest)
    decreases |rest|
  {
    if rest != [] {
      StairsNext(tree, at, rest);
      FollowStairs(tree, at + [rest[0]], rest[1..], links);
      assert at + [rest[0]] + rest[1..] == at + rest;
    } else {
      assert at + rest == at;
    }
  }

  /** A path that leads to a directory goes on from there. */
  lemma {:induction false} FollowOn(tree: Tree, at: Location, a: seq<string>, b: seq<string>, links: nat, found: Location)
    requires Follow(tree, at, a, links) == Reached(found) && IsFolder(tree, found) && Stairs(tree, found, b) && NoParent(b)
    ensures Follow(tree, at, a + b, links) == Reached(found + b)
    decreases links, |a|
  {
    if a == [] {
      assert a + b == b;
      FollowStairs(tree, at, b, links);
    } else if a[0] == ".." {
      assert (a + b)[0] == ".." && (a + b)[1..] == a[1..] + b;
      FollowOn(tree, Up(at), a[1..], b, links, found);
    } else {
      FollowOnNext(tree, at, a, b, links, found);
    }
  }

  lemma {:induction false} FollowOnNext(tree: Tree, at: Location, a: seq<string>, b: seq<string>, links: nat, found: Location)
    requires a != [] && a[0] != ".." && NoParent(b)
    requires Follow(tree, at, a, links) == Reached(found) && IsFolder(tree, found) && Stairs(tree, found, b)
    ensures Follow(tree, at, a + b, links) == Reached(found + b)
    decreases links, |a|, 0
  {
    var rest, next := a + b, at + [a[0]];
    assert rest[0] == a[0] && rest[1..] == a[1..] + b;
    match tree[next]
    case Folder => FollowOn(tree, next, a[1..], b, links, found);
    case Link(target) =>
      assert Comps(target) + a[1..] + b == Comps(target) + rest[1..];
      FollowOn(tree, if IsAbs(target) then [] else at, Comps(target) + a[1..], b, links - 1, found);
    case File(_) =>
  }

  /** Larger, but for what is in the files. */
  ghost predicate Larger(tree: Tree, more: Tree) {
    forall at :: at in tree ==> at in more && (if tree[at].File? then more[at].File? else more[at] == tree[at])
  }

  ghost predicate PartOf(tree: Tree, more: Tree) {
    forall at :: at in tree ==> at in more && more[at] == tree[at]
  }

  /** A path that leads to something leads there in every larger tree. */
  lemma {:induction false} FollowMore(tree: Tree, more: Tree, at: Location, rest: seq<string>, links: nat)
    requires Follow(tree, at, rest, links).Reached? && Follow(tree, at, rest, links).at in tree && Larger(tree, more)
    ensures Follow(more, at, rest, links) == Follow(tree, at, rest, links)
    decreases links, |rest|
  {
    if rest != [] {
      if rest[0] == ".." {
        FollowMore(tree, more, Up(at), rest[1..], links);
      } else {
        var next := at + [rest[0]];
        match tree[next]
        case Folder => FollowMore(tree, more, next, rest[1..], links);
        case Link(target) =>
          FollowMore(tree, more, if IsAbs(target) then [] else at, Comps(target) + rest[1..], links - 1);
        case File(_) =>
      }
    }
  }

  lemma UpIsFolder(tree: Tree, at: Location)
    requires WellFormed(tree) && at in tree
    ensures IsFolder(tree, Up(at))
  {
  }

  predicate LeadsToFolder(tree: Tree, found: Found) {
    found.Reached? && IsFolder(tree, found.at)
  }

  /** The beginning of a path that leads to a directory leads to a directory. */
  lemma {:induction false} FollowPrefix(tree: Tree, at: Location, a: seq<string>, b: seq<string>, links: nat)
    requires WellFormed(tree) && IsFolder(tree, at) && LeadsToFolder(tree, Follow(tree, at, a + b, links))
    ensures LeadsToFolder(tree, Follow(tree, at, a, links))
    decreases links, |a|
  {
    if a != [] {
      var rest := a + b;
      assert rest[0] == a[0] && rest[1..] == a[1..] + b;
      if a[0] == ".." {
        UpIsFolder(tree, at);
        FollowPrefix(tree, Up(at), a[1..], b, links);
      } else {
        FollowPrefixNext(tree, at, a, b, links);
      }
    }
  }

  lemma {:induction false} FollowPrefixNext(tree: Tree, at: Location, a: seq<string>, b: seq<string>, links: nat)
    requires WellFormed(tree) && IsFolder(tree, at) && a != [] && a[0] != ".."
    requires LeadsToFolder(tree, Follow(tree, at, a + b, links))
    ensures LeadsToFolder(tree, Follow(tree, at, a, links))
    decreases links, |a|, 0
  {
    var rest := a + b;
    assert rest[0] == a[0] && rest[1..] == a[1..] + b;
    var next := at + [a[0]];
    match tree[next]
    case Folder => FollowPrefix(tree, next, a[1..], b, links);
    case Link(target) =>
      assert Comps(target) + rest[1..] == Comps(target) + a[1..] + b;
      FollowPrefix(tree, if IsAbs(target) then [] else at, Comps(target) + a[1..], b, links - 1);
    case File(_) =>
  }

  /** Names are never "..". */
  lemma {:induction false} FollowNames(tree: Tree, at: Location, rest: seq<string>, links: nat)
    requires NoParent(at)
    ensures var found := Follow(tree, at, rest, links);
            found.Reached? ==> NoParent(found.at)
    decreases links, |rest|
  {
    if rest != [] {
      if rest[0] == ".." {
        FollowNames(tree, Up(at), rest[1..], links);
      } else {
        var next := at + [rest[0]];
        if next in tree {
          match tree[next]
          case Folder => FollowNames(tree, next, rest[1..], links);
          case Link(target) =>
            if links > 0 {
              FollowNames(tree, if IsAbs(target) then [] else at, Comps(target) + rest[1..], links - 1);
            }
          case File(_) =>
        }
      }
    }
  }

  /******* Links that lead down *******/

  /** Relative, and without a way up. */
  predicate LeadsDown(target: string) {
    !IsAbs(target) && NoParent(Comps(target))
  }

  /** Every link at or beneath a place leads down. */
  ghost predicate Tame(tree: Tree, home: Location) {
    forall at :: at in tree && home <= at && tree[at].Link? ==> LeadsDown(tree[at].target)
  }

  /** Nothing differs but at or beneath a place. */
  ghost predicate SameOutside(tree: Tree, tree': Tree, home: Location) {
    forall at :: !(home <= at) ==> (at in tree <==> at in tree') && (at in tree ==> tree'[at] == tree[at])
  }

  /** What a call on a path beneath a place does. */
  ghost predicate StaysInside(tree: Tree, tree': Tree, home: Location) {
    Tame(tree', home) && SameOutside(tree, tree', home)
  }

  /** Following any path without a way up through links that lead down never leaves the place it starts from. */
  lemma {:induction false} FollowInside(tree: Tree, home: Location, at: Location, rest: seq<string>, links: nat)
    requires Tame(tree, home) && home <= at && NoParent(rest)
    ensures var found := Follow(tree, at, rest, links);
            found.Reached? ==> home <= found.at
    decreases links, |rest|
  {
    if rest != [] {
      var next, rest' := at + [rest[0]], rest[1..];
      assert NoParent(rest') && home <= next;
      if next in tree {
        match tree[next]
        case Folder => FollowInside(tree, home, next, rest', links);
        case File(_) =>
        case Link(target) =>
          if links > 0 {
            DownAndOn(tree, home, next, target, rest');
            FollowInside(tree, home, at, Comps(target) + rest', links - 1);
          }
      }
    }
  }

  lemma DownAndOn(tree: Tree, home: Location, at: Location, target: string, rest: seq<string>)
    requires Tame(tree, home) && home <= at && at in tree && tree[at] == Link(target) && NoParent(rest)
    ensures !IsAbs(target) && NoParent(Comps(target) + rest)
  {
    assert LeadsDown(target);
  }

  lemma EntryInside(tree: Tree, home: Location, rest: seq<string>, links: nat)
    requires Tame(tree, home) && rest != [] && NoParent(rest)
    ensures var found := Entry(tree, home, rest, links);
            found.Reached? ==> home <= found.at
  {
    FollowInside(tree, home, home, rest[..|rest| - 1], links);
  }

  lemma PlaceInside(tree: Tree, home: Location, found: Found, node: Node)
    requires Tame(tree, home) && (found.Reached? ==> home <= found.at) && (node.Link? ==> LeadsDown(node.target))
    ensures StaysInside(tree, Place(tree, found, node), home)
  {
  }

  lemma {:induction false} MakeDirsInside(tree: Tree, home: Location, rest: seq<string>, links: nat, n: nat)
    requires Tame(tree, home) && NoParent(rest) && n <= |rest|
    ensures StaysInside(tree, MakeDirs(tree, home, rest, links, n), home)
  {
    if n > 0 {
      var before := MakeDirs(tree, home, rest, links, n - 1);
      MakeDirsInside(tree, home, rest, links, n - 1);
      EntryInside(before, home, rest[..n], links);
      PlaceInside(before, home, Entry(before, home, rest[..n], links), Folder);
    }
  }

  lemma OpenFileInside(tree: Tree, home: Location, rest: seq<string>, links: nat, content: string)
    requires Tame(tree, home) && NoParent(rest)
    ensures StaysInside(tree, OpenFile(tree, home, rest, links, content), home)
  {
    FollowInside(tree, home, home, rest, links);
  }

  lemma MakeSymlinkInside(tree: Tree, home: Location, rest: seq<string>, links: nat, target: string)
    requires Tame(tree, home) && NoParent(rest) && LeadsDown(target)
    ensures StaysInside(tree, MakeSymlink(tree, home, rest, links, target), home)
  {
    if rest != [] {
      EntryInside(tree, home, rest, links);
      PlaceInside(tree, home, Entry(tree, home, rest, links), Link(target));
    }
  }

  /******* Trees stay trees *******/

  /** A tree again, with every directory that was there. */
  ghost predicate Grown(tree: Tree, tree': Tree) {
    WellFormed(tree') && forall at :: IsFolder(tree, at) ==> IsFolder(tree', at)
  }

  lemma SetKeeps(tree: Tree, at: Location, node: Node)
    requires WellFormed(tree) && at != [] && NoParent(at) && IsFolder(tree, Parent(at)) && !IsFolder(tree, at)
    ensures Grown(tree, tree[at := node])
  {
    var tree' := tree[at := node];
    forall p | p in tree'
      ensures NoParent(p) && (p != [] ==> IsFolder(tree', Parent(p)))
    {
      if p != at && p != [] {
        assert p in tree && IsFolder(tree, Parent(p));
      }
    }
  }

  lemma PlaceKeeps(tree: Tree, home: Location, rest: seq<string>, links: nat, node: Node)
    requires WellFormed(tree) && NoParent(home) && rest != [] && NoParent(rest)
    ensures Grown(tree, Place(tree, Entry(tree, home, rest, links), node))
  {
    var found := Entry(tree, home, rest, links);
    FollowNames(tree, home, rest[..|rest| - 1], links);
    if found.Reached? && found.at !in tree {
      SetKeeps(tree, found.at, node);
    }
  }

  lemma GrownTwice(a: Tree, b: Tree, c: Tree)
    requires Grown(a, b) && Grown(b, c)
    ensures Grown(a, c)
  {
  }

  lemma {:induction false} MakeDirsKeeps(tree: Tree, home: Location, rest: seq<string>, links: nat, n: nat)
    requires WellFormed(tree) && NoParent(home) && NoParent(rest) && n <= |rest|
    ensures Grown(tree, MakeDirs(tree, home, rest, links, n))
  {
    if n > 0 {
      var before, p := MakeDirs(tree, home, rest, links, n - 1), rest[..n];
      MakeDirsKeeps(tree, home, rest, links, n - 1);
      assert NoParent(p);
      PlaceKeeps(before, home, p, links, Folder);
      GrownTwice(tree, before, Place(before, Entry(before, home, p, links), Folder));
    }
  }

  lemma OpenFileKeeps(tree: Tree, home: Location, rest: seq<string>, links: nat, content: string)
    requires WellFormed(tree) && NoParent(home)
    ensures Grown(tree, OpenFile(tree, home, rest, links, content))
  {
    var found := Follow(tree, home, rest, links);
    FollowNames(tree, home, rest, links);
    if found.Reached? && found.at != [] && IsFolder(tree, Parent(found.at)) && !IsFolder(tree, found.at) {
      SetKeeps(tree, found.at, File(content));
    }
  }

  /******* Trees get larger *******/

  lemma {:induction false} MakeDirsOnlyAdd(tree: Tree, home: Location, rest: seq<string>, links: nat, n: nat)
    requires n <= |rest|
    ensures PartOf(tree, MakeDirs(tree, home, rest, links, n))
  {
    if n > 0 {
      MakeDirsOnlyAdd(tree, home, rest, links, n - 1);
    }
  }

  /** A path that leads to where nothing is leads there when something is. */
  lemma {:induction false} FollowNew(tree: Tree, spot: Location, node: Node, at: Location, rest: seq<string>, links: nat)
    requires Follow(tree, at, rest, links) == Reached(spot) && spot !in tree && at in tree && !node.Link? && WellFormed(tree)
    ensures Follow(tree[spot := node], at, rest, links) == Reached(spot)
    decreases links, |rest|
  {
    if rest != [] {
      if rest[0] == ".." {
        UpIsFolder(tree, at);
        FollowNew(tree, spot, node, Up(at), rest[1..], links);
      } else {
        var next := at + [rest[0]];
        if next in tree {
          match tree[next]
          case Folder => FollowNew(tree, spot, node, next, rest[1..], links);
          case Link(target) =>
            FollowNew(tree, spot, node, if IsAbs(target) then [] else at, Comps(target) + rest[1..], links - 1);
          case File(_) =>
        }
      }
    }
  }

  /** What is followed to is no link. */
  lemma {:induction false} FollowedIsNoLink(tree: Tree, at: Location, rest: seq<string>, links: nat)
    requires WellFormed(tree) && IsFolder(tree, at)
    ensures var found := Follow(tree, at, rest, links);
            found.Reached? && found.at in tree ==> !tree[found.at].Link?
    decreases links, |rest|
  {
    if rest != [] {
      if rest[0] == ".." {
        UpIsFolder(tree, at);
        FollowedIsNoLink(tree, Up(at), rest[1..], links);
      } else {
        var next := at + [rest[0]];
        if next in tree {
          match tree[next]
          case Folder => FollowedIsNoLink(tree, next, rest[1..], links);
          case Link(target) =>
            if links > 0 {
              FollowedIsNoLink(tree, if IsAbs(target) then [] else at, Comps(target) + rest[1..], links - 1);
            }
          case File(_) =>
        }
      }
    }
  }

  lemma LinkIsMade(tree: Tree, home: Location, rest: seq<string>, links: nat, target: string)
    requires rest != [] && target != "" && Entry(tree, home, rest, links).Reached? && Entry(tree, home, rest, links).at !in tree
    ensures var spot, after := Entry(tree, home, rest, links), MakeSymlink(tree, home, rest, links, target);
            after == tree[spot.at := Link(target)] && Entry(after, home, rest, links) == spot
  {
    var spot := Entry(tree, home, rest, links).at;
    FollowMore(tree, tree[spot := Link(target)], home, rest[..|rest| - 1], links);
  }
}
