/** What an extraction has delivered is delivered wherever its tree is moved to. */
module ArchiveInPlace {
  import opened ArchiveExtract
  import opened ArchivePaths
  import opened LexicalPath
  import opened LinkTree
  import opened TreeFs
  import opened TreeMoves
  import ArchiveTree

  /** One tree has beneath b what the other has beneath a, where links lead down. */
  ghost predicate Alike(u: Tree, v: Tree, a: Location, b: Location) {
    HoldsTree(u, v, a, b) && Tame(u, a) && IsFolder(u, a) && IsFolder(v, b)
  }

  function Shifted(found: Found, a: Location, b: Location): Found
    requires found.Reached? ==> a <= found.at
  {
    if found.Reached? then Reached(Target(found.at, a, b)) else Nowhere
  }

  lemma SameNode(u: Tree, v: Tree, a: Location, b: Location, p: Location)
    requires Alike(u, v, a, b) && a <= p
    ensures var q := Target(p, a, b);
            (p in u <==> q in v) && (p in u ==> (p != a ==> v[q] == u[p]) && (v[q].Folder? <==> u[p].Folder?))
  {
    if p == a {
      assert Target(p, a, b) == b;
    }
  }

  lemma NextAlike(a: Location, b: Location, p: Location, name: string)
    requires a <= p
    ensures a <= p + [name] != a && Target(p + [name], a, b) == Target(p, a, b) + [name]
  {
    assert (p + [name])[|a|..] == p[|a|..] + [name];
  }

  /** Paths lead to corresponding places. */
  lemma {:induction false} FollowAlike(u: Tree, v: Tree, a: Location, b: Location, at: Location, rest: seq<string>, links: nat)
    requires Alike(u, v, a, b) && a <= at && NoParent(rest)
    ensures var found := Follow(u, at, rest, links);
            (found.Reached? ==> a <= found.at) && Follow(v, Target(at, a, b), rest, links) == Shifted(found, a, b)
    decreases links, |rest|
  {
    if rest != [] {
      var next, rest' := at + [rest[0]], rest[1..];
      NextAlike(a, b, at, rest[0]);
      SameNode(u, v, a, b, next);
      if next in u {
        match u[next]
        case Folder => FollowAlike(u, v, a, b, next, rest', links);
        case File(_) =>
        case Link(target) =>
          if links > 0 {
            DownAndOn(u, a, next, target, rest');
            FollowAlike(u, v, a, b, at, Comps(target) + rest', links - 1);
          }
      }
    }
  }

  lemma EntryAlike(u: Tree, v: Tree, a: Location, b: Location, rest: seq<string>, links: nat)
    requires Alike(u, v, a, b) && rest != [] && NoParent(rest)
    ensures var found := Entry(u, a, rest, links);
            (found.Reached? ==> a <= found.at != a) && Entry(v, b, rest, links) == Shifted(found, a, b)
  {
    var up := Follow(u, a, rest[..|rest| - 1], links);
    assert Target(a, a, b) == b;
    FollowAlike(u, v, a, b, a, rest[..|rest| - 1], links);
    if up.Reached? {
      SameNode(u, v, a, b, up.at);
      NextAlike(a, b, up.at, rest[|rest| - 1]);
    }
  }

  /** Where a header's path leads. */
  lemma PlaceAlike(u: Tree, v: Tree, root: seq<string>, a: Location, b: Location, path: string)
    requires Alike(u, v, a, b) && PathBeneath(root, path) && root <= Comps(path)
    ensures var found := ArchiveTree.Place(u, ArchiveTree.Target(root, a), path);
            && (found.Reached? ==> a <= found.at)
            && ArchiveTree.Place(v, ArchiveTree.Target(root, b), path) == Shifted(found, a, b)
  {
    assert Target(a, a, b) == b;
    FollowAlike(u, v, a, b, a, Comps(path)[|root|..], MAX_LINKS);
  }

  lemma FileAlike(c: Config, u: Tree, v: Tree, root: seq<string>, a: Location, b: Location, h: Header, at: Location)
    requires Alike(u, v, a, b) && Sound(c, root) && a <= at
    requires ArchiveTree.FileAt(c, u, ArchiveTree.Target(root, a), h, at)
    ensures ArchiveTree.FileAt(c, v, ArchiveTree.Target(root, b), h, Target(at, a, b))
  {
    assert PathBeneath(root, c.place(h).path);
    PlaceAlike(u, v, root, a, b, c.place(h).path);
  }

  lemma DeliveredAlike(c: Config, u: Tree, v: Tree, root: seq<string>, a: Location, b: Location, headers: seq<Header>, i: nat)
    requires Alike(u, v, a, b) && Sound(c, root) && i < |headers|
    requires ArchiveTree.Delivered(c, u, ArchiveTree.Target(root, a), headers, i)
    ensures ArchiveTree.Delivered(c, v, ArchiveTree.Target(root, b), headers, i)
  {
    var h, path := headers[i], c.place(headers[i]).path;
    assert PathBeneath(root, path);
    match h.kind
    case Directory =>
      PlaceAlike(u, v, root, a, b, path);
      SameNode(u, v, a, b, ArchiveTree.Place(u, ArchiveTree.Target(root, a), path).at);
    case Regular => FileDeliveredAlike(c, u, v, root, a, b, headers, i);
    case Symlink =>
      EntryAlike(u, v, a, b, Comps(path)[|root|..], MAX_LINKS);
      SameNode(u, v, a, b, Entry(u, a, Comps(path)[|root|..], MAX_LINKS).at);
    case OtherKind =>
  }

  lemma FileDeliveredAlike(c: Config, u: Tree, v: Tree, root: seq<string>, a: Location, b: Location, headers: seq<Header>, i: nat)
    requires Alike(u, v, a, b) && Sound(c, root) && i < |headers| && headers[i].kind.Regular?
    requires ArchiveTree.Delivered(c, u, ArchiveTree.Target(root, a), headers, i)
    ensures ArchiveTree.Delivered(c, v, ArchiveTree.Target(root, b), headers, i)
  {
    var path := c.place(headers[i]).path;
    assert PathBeneath(root, path);
    PlaceAlike(u, v, root, a, b, path);
    var at := ArchiveTree.Place(u, ArchiveTree.Target(root, a), path).at;
    SameNode(u, v, a, b, at);
    forall j | i < j < |headers| && ArchiveTree.FileAt(c, u, ArchiveTree.Target(root, a), headers[j], at)
      ensures ArchiveTree.FileAt(c, v, ArchiveTree.Target(root, b), headers[j], Target(at, a, b))
    {
      FileAlike(c, u, v, root, a, b, headers[j], at);
    }
  }

  /** What is delivered in one place is delivered in the other. */
  lemma AllDeliveredAlike(c: Config, u: Tree, v: Tree, root: seq<string>, a: Location, b: Location, headers: seq<Header>)
    requires Alike(u, v, a, b) && Sound(c, root) && ArchiveTree.AllDelivered(c, u, ArchiveTree.Target(root, a), headers)
    ensures ArchiveTree.AllDelivered(c, v, ArchiveTree.Target(root, b), headers)
  {
    forall i | 0 <= i < |headers|
      ensures ArchiveTree.Delivered(c, v, ArchiveTree.Target(root, b), headers, i)
    {
      DeliveredAlike(c, u, v, root, a, b, headers, i);
    }
  }
}
