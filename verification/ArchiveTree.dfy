/** What the calls of an extraction do to a tree in which links are followed. */
module ArchiveTree {
  import opened ArchiveExtract
  import opened ArchivePaths
  import opened LexicalPath
  import opened LinkTree

  /** The target directory: the root spells it, and it is really at home. */
  datatype Target = Target(root: seq<string>, home: Location)

  /** How far a call gets: how many directories it makes, or whether it opens its file at all, and how much it writes. */
  datatype Extent = Extent(steps: nat, written: nat)

  /** The effect of one call, which may stop early. A path beneath the root goes on from home. The directories above the
      root are there. */
  function Effect(tree: Tree, t: Target, call: Call, extent: Extent): Tree {
    var comps := Comps(call.path);
    if !(t.root <= comps) then tree
    else
      var rest := comps[|t.root|..];
      match call
      case MkdirAll(_) => MakeDirs(tree, t.home, rest, MAX_LINKS, Min(extent.steps, |rest|))
      case WriteFile(_, content) =>
        if extent.steps == 0 then tree else OpenFile(tree, t.home, rest, MAX_LINKS, content[..Min(extent.written, |content|)])
      case MakeLink(_, target) => if extent.steps == 0 then tree else MakeSymlink(tree, t.home, rest, MAX_LINKS, target)
  }

  function Min(a: nat, b: nat): nat {
    if a <= b then a else b
  }

  /** The tree after the calls, each with the extent to which it succeeds. */
  function AfterCalls(tree: Tree, t: Target, calls: seq<Call>, extents: seq<Extent>): Tree
    requires |extents| == |calls|
  {
    if calls == [] then tree
    else
      var n := |calls| - 1;
      Effect(AfterCalls(tree, t, calls[..n], extents[..n]), t, calls[n], extents[n])
  }

  lemma EffectInside(tree: Tree, t: Target, call: Call, extent: Extent)
    requires Tame(tree, t.home) && CallBeneath(t.root, call)
    ensures StaysInside(tree, Effect(tree, t, call, extent), t.home)
  {
    var comps := Comps(call.path);
    if t.root <= comps {
      var rest := comps[|t.root|..];
      assert NoParent(rest);
      match call
      case MkdirAll(_) => MakeDirsInside(tree, t.home, rest, MAX_LINKS, Min(extent.steps, |rest|));
      case WriteFile(_, content) => OpenFileInside(tree, t.home, rest, MAX_LINKS, content[..Min(extent.written, |content|)]);
      case MakeLink(_, target) => MakeSymlinkInside(tree, t.home, rest, MAX_LINKS, target);
    }
  }

  lemma EffectGrows(tree: Tree, t: Target, call: Call, extent: Extent)
    requires WellFormed(tree) && NoParent(t.home) && CallBeneath(t.root, call)
    ensures Grown(tree, Effect(tree, t, call, extent))
  {
    var comps := Comps(call.path);
    if t.root <= comps {
      var rest := comps[|t.root|..];
      assert NoParent(rest);
      match call
      case MkdirAll(_) => MakeDirsKeeps(tree, t.home, rest, MAX_LINKS, Min(extent.steps, |rest|));
      case WriteFile(_, content) => OpenFileKeeps(tree, t.home, rest, MAX_LINKS, content[..Min(extent.written, |content|)]);
      case MakeLink(_, target) =>
        if rest != [] {
          PlaceKeeps(tree, t.home, rest, MAX_LINKS, Link(target));
        }
    }
  }

  lemma {:induction false} CallsGrow(tree: Tree, t: Target, calls: seq<Call>, extents: seq<Extent>)
    requires |extents| == |calls| && WellFormed(tree) && NoParent(t.home)
    requires forall call :: call in calls ==> CallBeneath(t.root, call)
    ensures Grown(tree, AfterCalls(tree, t, calls, extents))
  {
    if calls != [] {
      var n := |calls| - 1;
      CallsGrow(tree, t, calls[..n], extents[..n]);
      EffectGrows(AfterCalls(tree, t, calls[..n], extents[..n]), t, calls[n], extents[n]);
    }
  }

  lemma {:induction false} CallsInside(tree: Tree, t: Target, calls: seq<Call>, extents: seq<Extent>)
    requires |extents| == |calls| && Tame(tree, t.home)
    requires forall call :: call in calls ==> CallBeneath(t.root, call)
    ensures StaysInside(tree, AfterCalls(tree, t, calls, extents), t.home)
  {
    if calls != [] {
      var n := |calls| - 1;
      CallsInside(tree, t, calls[..n], extents[..n]);
      EffectInside(AfterCalls(tree, t, calls[..n], extents[..n]), t, calls[n], extents[n]);
    }
  }

  /** No archive, however far its extraction gets, changes anything outside the target directory, also through the links it
      makes itself, when the links that were there lead down; in an empty directory there are none. The first call makes the
      target directory; the tree is what that leaves. */
  lemma ExtractionStaysInside(cwd: string, targetDir: string, o: Options, headers: seq<Header>,
                              made: seq<Call>, extents: seq<Extent>, tree: Tree, home: Location)
    requires IsAbs(cwd) && targetDir != "" && Resolved(cwd, targetDir) != []
    requires made != [] && made <= Plan(ConfigFor(cwd, targetDir, o), headers) && |extents| == |made| - 1
    requires Tame(tree, home)
    ensures var after := AfterCalls(tree, Target(Resolved(cwd, targetDir), home), made[1..], extents);
            StaysInside(tree, after, home) && (WellFormed(tree) && NoParent(home) ==> Grown(tree, after))
  {
    ConfigIsSound(cwd, targetDir, o);
    PlanBeneath(ConfigFor(cwd, targetDir, o), Resolved(cwd, targetDir), headers, made);
    CallsInside(tree, Target(Resolved(cwd, targetDir), home), made[1..], extents);
    if WellFormed(tree) && NoParent(home) {
      CallsGrow(tree, Target(Resolved(cwd, targetDir), home), made[1..], extents);
    }
  }

  lemma PlanBeneath(c: Config, root: seq<string>, headers: seq<Header>, made: seq<Call>)
    requires Sound(c, root) && root != [] && made != [] && made <= Plan(c, headers)
    ensures forall call :: call in made[1..] ==> CallBeneath(root, call)
  {
    forall call | call in made[1..]
      ensures CallBeneath(root, call)
    {
      var i :| 0 <= i < |made| - 1 && made[1..][i] == call;
      CallsStayBeneath(c, root, headers, i + 1);
    }
  }

  /******* What calls that succeed leave *******/

  /** Where a path beneath the root leads. */
  function Place(tree: Tree, t: Target, path: string): Found
    requires t.root <= Comps(path)
  {
    Follow(tree, t.home, Comps(path)[|t.root|..], MAX_LINKS)
  }

  /** The call does all that it is asked for, and is not stopped by what it finds. */
  predicate Succeeds(tree: Tree, t: Target, call: Call, extent: Extent) {
    t.root <= Comps(call.path) ==>
      var rest := Comps(call.path)[|t.root|..];
      match call
      case MkdirAll(_) => extent.steps >= |rest| && LeadsToFolder(Effect(tree, t, call, extent), Place(Effect(tree, t, call, extent), t, call.path))
      case WriteFile(_, content) =>
        var found := Place(tree, t, call.path);
        && extent.steps > 0 && extent.written >= |content|
        && found.Reached? && found.at != [] && IsFolder(tree, Parent(found.at)) && !IsFolder(tree, found.at)
      case MakeLink(_, target) =>
        && extent.steps > 0 && rest != [] && target != ""
        && Entry(tree, t.home, rest, MAX_LINKS).Reached? && Entry(tree, t.home, rest, MAX_LINKS).at !in tree
  }

  predicate AllSucceed(tree: Tree, t: Target, calls: seq<Call>, extents: seq<Extent>)
    requires |extents| == |calls|
  {
    var n := |calls|;
    n == 0 || (AllSucceed(tree, t, calls[..n - 1], extents[..n - 1])
               && Succeeds(AfterCalls(tree, t, calls[..n - 1], extents[..n - 1]), t, calls[n - 1], extents[n - 1]))
  }

  /** The call writes the file that is at this place. */
  predicate WritesAt(tree: Tree, t: Target, call: Call, at: Location) {
    call.WriteFile? && t.root <= Comps(call.path) && Place(tree, t, call.path) == Reached(at)
  }

  /** What call i has made is there: the directory, the link, or a file, with its content unless a later call writes it. */
  ghost predicate Stands(tree: Tree, t: Target, calls: seq<Call>, i: nat)
    requires i < |calls|
  {
    t.root <= Comps(calls[i].path) ==>
      var rest := Comps(calls[i].path)[|t.root|..];
      match calls[i]
      case MkdirAll(path) => LeadsToFolder(tree, Place(tree, t, path))
      case WriteFile(path, content) =>
        var found := Place(tree, t, path);
        && found.Reached? && found.at in tree && tree[found.at].File?
        && ((forall j :: i < j < |calls| ==> !WritesAt(tree, t, calls[j], found.at)) ==> tree[found.at] == File(content))
      case MakeLink(_, target) =>
        && rest != [] && Entry(tree, t.home, rest, MAX_LINKS).Reached? && Entry(tree, t.home, rest, MAX_LINKS).at in tree
        && tree[Entry(tree, t.home, rest, MAX_LINKS).at] == Link(target)
  }

  lemma EffectIsLarger(tree: Tree, t: Target, call: Call, extent: Extent)
    requires WellFormed(tree) && IsFolder(tree, t.home)
    ensures Larger(tree, Effect(tree, t, call, extent))
    ensures !call.WriteFile? ==> PartOf(tree, Effect(tree, t, call, extent))
  {
    if t.root <= Comps(call.path) {
      var rest := Comps(call.path)[|t.root|..];
      match call
      case MkdirAll(_) => MakeDirsOnlyAdd(tree, t.home, rest, MAX_LINKS, Min(extent.steps, |rest|));
      case WriteFile(_, _) => FollowedIsNoLink(tree, t.home, rest, MAX_LINKS);
      case MakeLink(_, _) =>
    }
  }

  /** Writing a file leads to it. */
  lemma WrittenIsThere(tree: Tree, t: Target, call: Call, extent: Extent)
    requires WellFormed(tree) && IsFolder(tree, t.home)
    requires call.WriteFile? && t.root <= Comps(call.path) && Succeeds(tree, t, call, extent)
    ensures var at, after := Place(tree, t, call.path).at, Effect(tree, t, call, extent);
            after == tree[at := File(call.content)] && Place(after, t, call.path) == Reached(at)
  {
    var rest, at := Comps(call.path)[|t.root|..], Place(tree, t, call.path).at;
    assert call.content[..Min(extent.written, |call.content|)] == call.content;
    if at in tree {
      EffectIsLarger(tree, t, call, extent);
      FollowMore(tree, Effect(tree, t, call, extent), t.home, rest, MAX_LINKS);
    } else {
      FollowNew(tree, at, File(call.content), t.home, rest, MAX_LINKS);
    }
  }

  lemma LinkIsThere(tree: Tree, t: Target, call: Call, extent: Extent)
    requires call.MakeLink? && t.root <= Comps(call.path) && Succeeds(tree, t, call, extent)
    ensures var rest, after := Comps(call.path)[|t.root|..], Effect(tree, t, call, extent);
            rest != [] && var spot := Entry(tree, t.home, rest, MAX_LINKS);
            spot.Reached? && after == tree[spot.at := Link(call.target)] && Entry(after, t.home, rest, MAX_LINKS) == spot
  {
    LinkIsMade(tree, t.home, Comps(call.path)[|t.root|..], MAX_LINKS, call.target);
  }

  /** The new call has made what it was to make. */
  lemma NewStands(tree: Tree, t: Target, calls: seq<Call>, call: Call, extent: Extent)
    requires WellFormed(tree) && IsFolder(tree, t.home) && Succeeds(tree, t, call, extent)
    ensures Stands(Effect(tree, t, call, extent), t, calls + [call], |calls|)
  {
    if t.root <= Comps(call.path) {
      match call
      case MkdirAll(_) =>
      case WriteFile(_, _) => WrittenIsThere(tree, t, call, extent);
      case MakeLink(_, _) => LinkIsThere(tree, t, call, extent);
    }
  }

  /** What stood before still stands. */
  lemma StandsStill(tree: Tree, t: Target, calls: seq<Call>, i: nat, call: Call, extent: Extent)
    requires WellFormed(tree) && IsFolder(tree, t.home) && Succeeds(tree, t, call, extent)
    requires i < |calls| && Stands(tree, t, calls, i)
    ensures Stands(Effect(tree, t, call, extent), t, calls + [call], i)
  {
    var after, earlier := Effect(tree, t, call, extent), calls[i];
    EffectIsLarger(tree, t, call, extent);
    assert (calls + [call])[i] == earlier;
    if t.root <= Comps(earlier.path) {
      var rest := Comps(earlier.path)[|t.root|..];
      if earlier.MakeLink? {
        FollowMore(tree, after, t.home, rest[..|rest| - 1], MAX_LINKS);
      } else {
        FollowMore(tree, after, t.home, rest, MAX_LINKS);
        if earlier.WriteFile? {
          ContentStands(tree, t, calls, i, call, extent);
        }
      }
    }
  }

  lemma ContentStands(tree: Tree, t: Target, calls: seq<Call>, i: nat, call: Call, extent: Extent)
    requires WellFormed(tree) && IsFolder(tree, t.home) && Succeeds(tree, t, call, extent)
    requires i < |calls| && calls[i].WriteFile? && t.root <= Comps(calls[i].path) && Stands(tree, t, calls, i)
    ensures var at, after, more := Place(tree, t, calls[i].path).at, Effect(tree, t, call, extent), calls + [call];
            (forall j :: i < j < |more| ==> !WritesAt(after, t, more[j], at)) ==> at in after && after[at] == File(calls[i].content)
  {
    var at, after, more := Place(tree, t, calls[i].path).at, Effect(tree, t, call, extent), calls + [call];
    EffectIsLarger(tree, t, call, extent);
    if forall j :: i < j < |more| ==> !WritesAt(after, t, more[j], at) {
      forall j | i < j < |calls|
        ensures !WritesAt(tree, t, calls[j], at)
      {
        assert more[j] == calls[j];
        if WritesAt(tree, t, calls[j], at) {
          FollowMore(tree, after, t.home, Comps(calls[j].path)[|t.root|..], MAX_LINKS);
        }
      }
      assert more[|calls|] == call;
      if call.WriteFile? && t.root <= Comps(call.path) {
        WrittenIsThere(tree, t, call, extent);
      }
    }
  }

  ghost predicate AllThere(tree: Tree, t: Target, calls: seq<Call>) {
    forall i :: 0 <= i < |calls| ==> Stands(tree, t, calls, i)
  }

  lemma ThereNext(tree: Tree, t: Target, calls: seq<Call>, call: Call, extent: Extent)
    requires WellFormed(tree) && IsFolder(tree, t.home) && Succeeds(tree, t, call, extent) && AllThere(tree, t, calls)
    ensures AllThere(Effect(tree, t, call, extent), t, calls + [call])
  {
    NewStands(tree, t, calls, call, extent);
    forall i | 0 <= i < |calls|
      ensures Stands(Effect(tree, t, call, extent), t, calls + [call], i)
    {
      StandsStill(tree, t, calls, i, call, extent);
    }
  }

  /** When all calls succeed, all that they made is there in the end. */
  lemma {:induction false} AllStand(tree: Tree, t: Target, calls: seq<Call>, extents: seq<Extent>)
    requires |extents| == |calls| && WellFormed(tree) && IsFolder(tree, t.home) && AllSucceed(tree, t, calls, extents)
    requires forall call :: call in calls ==> CallBeneath(t.root, call)
    ensures WellFormed(AfterCalls(tree, t, calls, extents)) && IsFolder(AfterCalls(tree, t, calls, extents), t.home)
    ensures AllThere(AfterCalls(tree, t, calls, extents), t, calls)
  {
    if calls != [] {
      var n := |calls| - 1;
      var before := AfterCalls(tree, t, calls[..n], extents[..n]);
      AllStand(tree, t, calls[..n], extents[..n]);
      EffectGrows(before, t, calls[n], extents[n]);
      ThereNext(before, t, calls[..n], calls[n], extents[n]);
      assert calls[..n] + [calls[n]] == calls;
    }
  }

  /******* What an extraction leaves for each header *******/

  /** The header is a file, and leads here. */
  predicate FileAt(c: Config, tree: Tree, t: Target, h: Header, at: Location) {
    && h.kind.Regular? && c.place(h).Within? && t.root <= Comps(c.place(h).path)
    && Place(tree, t, c.place(h).path) == Reached(at)
  }

  /** In the place of a header is what it describes: a directory, a link with its target, or a file, with its content unless
      a later header is a file there. */
  ghost predicate Delivered(c: Config, tree: Tree, t: Target, headers: seq<Header>, i: nat)
    requires i < |headers|
  {
    var h := headers[i];
    && c.place(h).Within? && t.root <= Comps(c.place(h).path)
    && var path := c.place(h).path;
       var rest := Comps(path)[|t.root|..];
       match h.kind
       case Directory => LeadsToFolder(tree, Place(tree, t, path))
       case Regular =>
         var found := Place(tree, t, path);
         && found.Reached? && found.at in tree && tree[found.at].File?
         && ((forall j :: i < j < |headers| ==> !FileAt(c, tree, t, headers[j], found.at)) ==> tree[found.at] == File(h.content))
       case Symlink =>
         && rest != [] && Entry(tree, t.home, rest, MAX_LINKS).Reached? && Entry(tree, t.home, rest, MAX_LINKS).at in tree
         && tree[Entry(tree, t.home, rest, MAX_LINKS).at] == Link(h.linkName)
       case OtherKind => true
  }

  ghost predicate AllDelivered(c: Config, tree: Tree, t: Target, headers: seq<Header>) {
    forall i :: 0 <= i < |headers| ==> Delivered(c, tree, t, headers, i)
  }

  /** Every file is written for some header. */
  lemma WriterOf(c: Config, headers: seq<Header>, calls: seq<Call>, m: nat) returns (j: nat)
    requires AllFulfilled(c, headers, calls) && 0 < m < |calls| == CallsBefore(headers, |headers|) && calls[m].WriteFile?
    ensures j < |headers| && headers[j].kind.Regular? && m == CallsBefore(headers, j) + 1
    ensures c.place(headers[j]).Within? && calls[m].path == c.place(headers[j]).path
  {
    j := HeaderOfCall(headers, |headers|, m);
    assert FulfilsHeader(c, headers, calls, j);
  }

  /** A file that no later header writes is written by no later call. */
  lemma NotWrittenLater(c: Config, headers: seq<Header>, calls: seq<Call>, tree: Tree, t: Target, i: nat, at: Location, m: nat)
    requires i < |headers| && AllFulfilled(c, headers, calls) && |calls| == CallsBefore(headers, |headers|)
    requires forall j :: i < j < |headers| ==> !FileAt(c, tree, t, headers[j], at)
    requires CallsBefore(headers, i) + 1 < m < |calls|
    ensures !WritesAt(tree, t, calls[m], at)
  {
    if calls[m].WriteFile? {
      var j := WriterOf(c, headers, calls, m);
      if j <= i {
        CallsBeforeGrows(headers, j, i);
      } else {
        assert !FileAt(c, tree, t, headers[j], at);
      }
    }
  }

  lemma NoneWritesLater(c: Config, headers: seq<Header>, calls: seq<Call>, tree: Tree, t: Target, i: nat, at: Location)
    requires i < |headers| && AllFulfilled(c, headers, calls) && |calls| == CallsBefore(headers, |headers|)
    requires forall j :: i < j < |headers| ==> !FileAt(c, tree, t, headers[j], at)
    ensures forall m :: CallsBefore(headers, i) < m < |calls[1..]| ==> !WritesAt(tree, t, calls[1..][m], at)
  {
    forall m | CallsBefore(headers, i) < m < |calls[1..]|
      ensures !WritesAt(tree, t, calls[1..][m], at)
    {
      assert calls[1..][m] == calls[m + 1];
      NotWrittenLater(c, headers, calls, tree, t, i, at, m + 1);
    }
  }

  lemma FileDelivered(c: Config, headers: seq<Header>, calls: seq<Call>, tree: Tree, t: Target, i: nat)
    requires i < |headers| && AllFulfilled(c, headers, calls) && |calls| == CallsBefore(headers, |headers|)
    requires headers[i].kind.Regular? && c.place(headers[i]).Within? && t.root <= Comps(c.place(headers[i]).path)
    requires var k := CallsBefore(headers, i);
             k < |calls| - 1 && calls[k + 1] == WriteFile(c.place(headers[i]).path, headers[i].content) && Stands(tree, t, calls[1..], k)
    ensures Delivered(c, tree, t, headers, i)
  {
    var k, at := CallsBefore(headers, i), Place(tree, t, c.place(headers[i]).path).at;
    assert calls[1..][k] == calls[k + 1];
    if forall j :: i < j < |headers| ==> !FileAt(c, tree, t, headers[j], at) {
      NoneWritesLater(c, headers, calls, tree, t, i, at);
    }
  }

  lemma HeaderDelivered(c: Config, headers: seq<Header>, calls: seq<Call>, tree: Tree, t: Target, i: nat)
    requires i < |headers| && AllFulfilled(c, headers, calls) && |calls| == CallsBefore(headers, |headers|) && Sound(c, t.root)
    requires AllThere(tree, t, calls[1..])
    ensures Delivered(c, tree, t, headers, i)
  {
    var h, k := headers[i], CallsBefore(headers, i);
    assert FulfilsHeader(c, headers, calls, i);
    assert PathBeneath(t.root, c.place(h).path);
    if h.kind.Regular? {
      assert Stands(tree, t, calls[1..], k);
      FileDelivered(c, headers, calls, tree, t, i);
    } else if !h.kind.OtherKind? {
      assert calls[1..][k] == calls[k + 1] && Stands(tree, t, calls[1..], k);
    }
  }

  /** When an extraction succeeds, every header is delivered. */
  lemma ExtractionDelivers(cwd: string, targetDir: string, o: Options, headers: seq<Header>,
                           made: seq<Call>, extents: seq<Extent>, tree: Tree, home: Location)
    requires IsAbs(cwd) && targetDir != "" && Resolved(cwd, targetDir) != []
    requires made == Plan(ConfigFor(cwd, targetDir, o), headers) && AllAdmissible(ConfigFor(cwd, targetDir, o), headers)
    requires |extents| == |made| - 1 && WellFormed(tree) && IsFolder(tree, home)
    requires AllSucceed(tree, Target(Resolved(cwd, targetDir), home), made[1..], extents)
    ensures var t := Target(Resolved(cwd, targetDir), home);
            AllDelivered(ConfigFor(cwd, targetDir, o), AfterCalls(tree, t, made[1..], extents), t, headers)
  {
    var c, t := ConfigFor(cwd, targetDir, o), Target(Resolved(cwd, targetDir), home);
    ConfigIsSound(cwd, targetDir, o);
    PlanFulfils(c, headers);
    PlanBeneath(c, t.root, headers, made);
    AllStand(tree, t, made[1..], extents);
    forall i | 0 <= i < |headers|
      ensures Delivered(c, AfterCalls(tree, t, made[1..], extents), t, headers, i)
    {
      HeaderDelivered(c, headers, made, AfterCalls(tree, t, made[1..], extents), t, i);
    }
  }
}
