/** Archives without links: exactly when all their calls succeed. */
module PlainArchives {
  import opened ArchiveExtract
  import opened ArchivePaths
  import opened LexicalPath
  import opened LinkTree
  import opened TreeArchiver
  import opened TreeFs
  import ArchiveTree

  /** The way from the root to where a call's path leads; a path above the root needs none. */
  function Rest(root: seq<string>, call: Call): seq<string> {
    if root <= Comps(call.path) then Comps(call.path)[|root|..] else []
  }

  /******* The tree that calls without links make *******/

  ghost predicate FileOf(root: seq<string>, home: Location, calls: seq<Call>, at: Location) {
    exists i :: 0 <= i < |calls| && calls[i].WriteFile? && at == home + Rest(root, calls[i])
  }

  ghost predicate DirOf(root: seq<string>, home: Location, calls: seq<Call>, at: Location) {
    exists i :: 0 <= i < |calls| && calls[i].MkdirAll? && at <= home + Rest(root, calls[i])
  }

  /** Beneath the target there are no links, files only where they were written, and directories only on the way to those
      that were made. */
  ghost predicate OnlyMade(tree: Tree, root: seq<string>, home: Location, calls: seq<Call>) {
    forall at :: at in tree && home <= at && at != home ==>
      match tree[at]
      case Folder => DirOf(root, home, calls, at)
      case File(_) => FileOf(root, home, calls, at)
      case Link(_) => false
  }

  ghost predicate AllDirs(tree: Tree, root: seq<string>, home: Location, calls: seq<Call>) {
    forall i :: 0 <= i < |calls| && calls[i].MkdirAll? ==> Stairs(tree, home, Rest(root, calls[i]))
  }

  ghost predicate Made(tree: Tree, root: seq<string>, home: Location, calls: seq<Call>) {
    WellFormed(tree) && IsFolder(tree, home) && OnlyMade(tree, root, home, calls) && AllDirs(tree, root, home, calls)
  }

  /******* Calls that fit together *******/

  ghost predicate Plain(root: seq<string>, calls: seq<Call>) {
    forall call :: call in calls ==> CallBeneath(root, call) && !call.MakeLink?
  }

  /** A file is not in the place of a directory, or of one above it. */
  ghost predicate Apart(root: seq<string>, file: Call, dir: Call) {
    Rest(root, file) != [] && !(Rest(root, file) <= Rest(root, dir))
  }

  ghost predicate NoClash(root: seq<string>, calls: seq<Call>) {
    forall i, j :: 0 <= i < |calls| && 0 <= j < |calls| && calls[i].WriteFile? && calls[j].MkdirAll? ==>
      Apart(root, calls[i], calls[j])
  }

  /** Each file comes right after the directory that it is in. */
  ghost predicate DirsFirst(root: seq<string>, calls: seq<Call>) {
    forall j :: 0 <= j < |calls| && calls[j].WriteFile? && Rest(root, calls[j]) != [] ==>
      0 < j && calls[j - 1].MkdirAll? && Rest(root, calls[j - 1]) == Parent(Rest(root, calls[j]))
  }

  lemma DirOfMore(root: seq<string>, home: Location, calls: seq<Call>, call: Call, at: Location)
    ensures DirOf(root, home, calls, at) ==> DirOf(root, home, calls + [call], at)
    ensures call.MkdirAll? && at <= home + Rest(root, call) ==> DirOf(root, home, calls + [call], at)
  {
    var more := calls + [call];
    assert more[|calls|] == call;
    if DirOf(root, home, calls, at) {
      var i :| 0 <= i < |calls| && calls[i].MkdirAll? && at <= home + Rest(root, calls[i]);
      assert more[i] == calls[i];
    }
  }

  lemma FileOfMore(root: seq<string>, home: Location, calls: seq<Call>, call: Call, at: Location)
    ensures FileOf(root, home, calls, at) ==> FileOf(root, home, calls + [call], at)
    ensures call.WriteFile? && at == home + Rest(root, call) ==> FileOf(root, home, calls + [call], at)
  {
    var more := calls + [call];
    assert more[|calls|] == call;
    if FileOf(root, home, calls, at) {
      var i :| 0 <= i < |calls| && calls[i].WriteFile? && at == home + Rest(root, calls[i]);
      assert more[i] == calls[i];
    }
  }

  /******* Making directories where no files are *******/

  ghost predicate NoFileOnWay(tree: Tree, home: Location, rest: seq<string>) {
    forall m :: 0 <= m <= |rest| && home + rest[..m] in tree ==> IsFolder(tree, home + rest[..m])
  }

  /** More directories, on the way. */
  ghost predicate WithWay(tree: Tree, after: Tree, home: Location, rest: seq<string>) {
    && PartOf(tree, after)
    && forall at :: at in after && at !in tree ==> after[at].Folder? && home <= at <= home + rest
  }

  lemma {:induction false} MakesWay(tree: Tree, home: Location, rest: seq<string>, n: nat)
    requires n <= |rest| && NoParent(rest) && IsFolder(tree, home) && NoFileOnWay(tree, home, rest)
    ensures var after := MakeDirs(tree, home, rest, MAX_LINKS, n);
            Stairs(after, home, rest[..n]) && WithWay(tree, after, home, rest)
  {
    if n == 0 {
      assert home + rest[..0] == home;
    } else {
      MakesWay(tree, home, rest, n - 1);
      WayNext(tree, MakeDirs(tree, home, rest, MAX_LINKS, n - 1), home, rest, n);
    }
  }

  lemma WayNext(tree: Tree, before: Tree, home: Location, rest: seq<string>, n: nat)
    requires 0 < n <= |rest| && NoParent(rest) && IsFolder(tree, home) && NoFileOnWay(tree, home, rest)
    requires Stairs(before, home, rest[..n - 1]) && WithWay(tree, before, home, rest)
    ensures var after := Place(before, Entry(before, home, rest[..n], MAX_LINKS), Folder);
            Stairs(after, home, rest[..n]) && WithWay(tree, after, home, rest)
  {
    var q, up := rest[..n], rest[..n - 1];
    assert q[..|q| - 1] == up && up[..n - 1] == up && home + up + [rest[n - 1]] == home + q;
    FollowStairs(before, home, up, MAX_LINKS);
    assert Entry(before, home, q, MAX_LINKS) == Reached(home + q);
    var after := Place(before, Reached(home + q), Folder);
    assert home + q <= home + rest;
    assert IsFolder(after, home + q);
    forall k | 0 <= k <= n
      ensures IsFolder(after, home + q[..k])
    {
      if k < n {
        assert q[..k] == up[..k];
      } else {
        assert q[..k] == q;
      }
    }
  }

  /******* One more call *******/

  /** The call fits those before it. */
  ghost predicate Joins(root: seq<string>, calls: seq<Call>, call: Call) {
    && (call.MkdirAll? ==> forall i :: 0 <= i < |calls| && calls[i].WriteFile? ==> Apart(root, calls[i], call))
    && (call.WriteFile? ==>
          && Rest(root, call) != [] && calls != [] && calls[|calls| - 1].MkdirAll?
          && Rest(root, calls[|calls| - 1]) == Parent(Rest(root, call))
          && forall j :: 0 <= j < |calls| && calls[j].MkdirAll? ==> Apart(root, call, calls[j]))
  }

  lemma SameTail(home: Location, a: seq<string>, b: seq<string>)
    ensures home + a == home + b ==> a == b
    ensures home + a <= home + b ==> a <= b
  {
    assert (home + a)[|home|..] == a && (home + b)[|home|..] == b;
  }

  lemma NoFileIsOnWay(tree: Tree, root: seq<string>, home: Location, calls: seq<Call>, call: Call)
    requires Made(tree, root, home, calls) && call.MkdirAll? && Joins(root, calls, call)
    ensures NoFileOnWay(tree, home, Rest(root, call))
  {
    var rest := Rest(root, call);
    forall m | 0 <= m <= |rest|
      ensures home + rest[..m] in tree ==> IsFolder(tree, home + rest[..m])
    {
      forall i | 0 <= i < |calls| && calls[i].WriteFile?
        ensures home + rest[..m] != home + Rest(root, calls[i])
      {
        SameTail(home, rest[..m], Rest(root, calls[i]));
        assert Apart(root, calls[i], call);
      }
      assert !FileOf(root, home, calls, home + rest[..m]);
    }
  }

  lemma MadeWithWay(tree: Tree, after: Tree, root: seq<string>, home: Location, calls: seq<Call>, call: Call)
    requires Made(tree, root, home, calls) && call.MkdirAll? && WellFormed(after) && WithWay(tree, after, home, Rest(root, call))
    requires Stairs(after, home, Rest(root, call))
    ensures Made(after, root, home, calls + [call])
  {
    forall at | at in after && home <= at && at != home
      ensures match after[at]
              case Folder => DirOf(root, home, calls + [call], at)
              case File(_) => FileOf(root, home, calls + [call], at)
              case Link(_) => false
    {
      DirOfMore(root, home, calls, call, at);
      FileOfMore(root, home, calls, call, at);
    }
    forall i | 0 <= i <= |calls| && (calls + [call])[i].MkdirAll?
      ensures Stairs(after, home, Rest(root, (calls + [call])[i]))
    {
      if i < |calls| {
        assert Stairs(tree, home, Rest(root, calls[i]));
      }
    }
  }

  lemma MkdirSucceeds(tree: Tree, t: ArchiveTree.Target, calls: seq<Call>, call: Call)
    requires Made(tree, t.root, t.home, calls) && call.MkdirAll? && CallBeneath(t.root, call) && Joins(t.root, calls, call)
    ensures ArchiveTree.Succeeds(tree, t, call, Whole(call))
    ensures Made(ArchiveTree.Effect(tree, t, call, Whole(call)), t.root, t.home, calls + [call])
  {
    var rest, after := Rest(t.root, call), ArchiveTree.Effect(tree, t, call, Whole(call));
    if t.root <= Comps(call.path) {
      NoFileIsOnWay(tree, t.root, t.home, calls, call);
      MakesWay(tree, t.home, rest, |rest|);
      assert rest[..|rest|] == rest;
      FollowStairs(after, t.home, rest, MAX_LINKS);
      ArchiveTree.EffectGrows(tree, t, call, Whole(call));
    } else {
      assert t.home + rest[..0] == t.home;
    }
    MadeWithWay(tree, after, t.root, t.home, calls, call);
  }

  lemma WrittenFits(tree: Tree, root: seq<string>, home: Location, calls: seq<Call>, call: Call)
    requires Made(tree, root, home, calls) && call.WriteFile? && Joins(root, calls, call)
    ensures var at := home + Rest(root, call);
            at != [] && Parent(at) == home + Parent(Rest(root, call)) && !IsFolder(tree, at) && NoLink(tree, at)
    ensures Stairs(tree, home, Parent(Rest(root, call)))
  {
    forall j | 0 <= j < |calls| && calls[j].MkdirAll?
      ensures !(home + Rest(root, call) <= home + Rest(root, calls[j]))
    {
      SameTail(home, Rest(root, call), Rest(root, calls[j]));
      assert Apart(root, call, calls[j]);
    }
    assert !DirOf(root, home, calls, home + Rest(root, call));
    assert Stairs(tree, home, Rest(root, calls[|calls| - 1]));
  }

  lemma MadeWithFile(tree: Tree, root: seq<string>, home: Location, calls: seq<Call>, call: Call)
    requires Made(tree, root, home, calls) && call.WriteFile? && Rest(root, call) != []
    requires !IsFolder(tree, home + Rest(root, call))
    requires WellFormed(tree[home + Rest(root, call) := File(call.content)])
    ensures Made(tree[home + Rest(root, call) := File(call.content)], root, home, calls + [call])
  {
    var after := tree[home + Rest(root, call) := File(call.content)];
    forall at | at in after && home <= at && at != home
      ensures match after[at]
              case Folder => DirOf(root, home, calls + [call], at)
              case File(_) => FileOf(root, home, calls + [call], at)
              case Link(_) => false
    {
      DirOfMore(root, home, calls, call, at);
      FileOfMore(root, home, calls, call, at);
    }
    forall i | 0 <= i <= |calls| && (calls + [call])[i].MkdirAll?
      ensures Stairs(after, home, Rest(root, (calls + [call])[i]))
    {
      assert Stairs(tree, home, Rest(root, calls[i]));
    }
  }

  /** Past directories to a name that is no link. */
  lemma FollowDown(tree: Tree, home: Location, rest: seq<string>)
    requires rest != [] && NoParent(rest) && Stairs(tree, home, Parent(rest)) && NoLink(tree, home + rest)
    ensures Follow(tree, home, rest, MAX_LINKS) == Reached(home + rest)
  {
    var up, last := Parent(rest), rest[|rest| - 1];
    FollowStairs(tree, home, up, MAX_LINKS);
    assert home + up[..|up|] == home + up;
    assert up + [last] == rest && home + up + [last] == home + rest;
    LastStep(tree, home, up, last, MAX_LINKS);
  }

  lemma WritePlace(tree: Tree, t: ArchiveTree.Target, calls: seq<Call>, call: Call)
    requires Made(tree, t.root, t.home, calls) && call.WriteFile? && CallBeneath(t.root, call) && Joins(t.root, calls, call)
    ensures ArchiveTree.Place(tree, t, call.path) == Reached(t.home + Rest(t.root, call))
    ensures var at := t.home + Rest(t.root, call);
            at != [] && IsFolder(tree, Parent(at)) && !IsFolder(tree, at)
  {
    WrittenFits(tree, t.root, t.home, calls, call);
    FollowDown(tree, t.home, Rest(t.root, call));
    StairsEnd(tree, t.home, Parent(Rest(t.root, call)));
  }

  lemma StairsEnd(tree: Tree, home: Location, rest: seq<string>)
    requires Stairs(tree, home, rest)
    ensures IsFolder(tree, home + rest)
  {
    assert rest[..|rest|] == rest;
  }

  lemma WriteSucceeds(tree: Tree, t: ArchiveTree.Target, calls: seq<Call>, call: Call)
    requires Made(tree, t.root, t.home, calls) && call.WriteFile? && CallBeneath(t.root, call) && Joins(t.root, calls, call)
    requires NoParent(t.home)
    ensures ArchiveTree.Succeeds(tree, t, call, Whole(call))
    ensures Made(ArchiveTree.Effect(tree, t, call, Whole(call)), t.root, t.home, calls + [call])
  {
    WritePlace(tree, t, calls, call);
    ArchiveTree.EffectGrows(tree, t, call, Whole(call));
    assert call.content[..|call.content|] == call.content;
    MadeWithFile(tree, t.root, t.home, calls, call);
  }

  /******* All calls *******/

  lemma JoinsBefore(root: seq<string>, calls: seq<Call>, n: nat)
    requires n < |calls| && NoClash(root, calls) && DirsFirst(root, calls) && Plain(root, calls)
    requires forall i :: 0 <= i < |calls| && calls[i].WriteFile? ==> Rest(root, calls[i]) != []
    ensures Joins(root, calls[..n], calls[n]) && CallBeneath(root, calls[n]) && !calls[n].MakeLink?
  {
    assert calls[n] in calls;
  }

  ghost predicate Fitting(root: seq<string>, calls: seq<Call>) {
    && Plain(root, calls) && NoClash(root, calls) && DirsFirst(root, calls)
    && forall i :: 0 <= i < |calls| && calls[i].WriteFile? ==> Rest(root, calls[i]) != []
  }

  lemma FittingBefore(root: seq<string>, calls: seq<Call>, n: nat)
    requires Fitting(root, calls) && n <= |calls|
    ensures Fitting(root, calls[..n])
  {
    assert forall call :: call in calls[..n] ==> call in calls;
  }

  lemma {:induction false} FittingSucceed(tree: Tree, t: ArchiveTree.Target, calls: seq<Call>)
    requires Made(tree, t.root, t.home, []) && NoParent(t.home) && Fitting(t.root, calls)
    ensures ArchiveTree.AllSucceed(tree, t, calls, Wholes(calls))
    ensures Made(ArchiveTree.AfterCalls(tree, t, calls, Wholes(calls)), t.root, t.home, calls)
  {
    if calls != [] {
      var n := |calls| - 1;
      FittingBefore(t.root, calls, n);
      FittingSucceed(tree, t, calls[..n]);
      NextSucceeds(ArchiveTree.AfterCalls(tree, t, calls[..n], Wholes(calls[..n])), t, calls, n);
      assert Wholes(calls)[..n] == Wholes(calls[..n]) && calls[..n + 1] == calls;
    }
  }

  lemma NextSucceeds(tree: Tree, t: ArchiveTree.Target, calls: seq<Call>, n: nat)
    requires n < |calls| && Made(tree, t.root, t.home, calls[..n]) && NoParent(t.home) && Fitting(t.root, calls)
    ensures ArchiveTree.Succeeds(tree, t, calls[n], Whole(calls[n]))
    ensures Made(ArchiveTree.Effect(tree, t, calls[n], Whole(calls[n])), t.root, t.home, calls[..n + 1])
  {
    JoinsBefore(t.root, calls, n);
    assert calls[..n] + [calls[n]] == calls[..n + 1];
    if calls[n].MkdirAll? {
      MkdirSucceeds(tree, t, calls[..n], calls[n]);
    } else {
      WriteSucceeds(tree, t, calls[..n], calls[n]);
    }
  }

  /** What is written is a file in the end, and what is made a directory. */
  lemma ClashFails(tree: Tree, t: ArchiveTree.Target, calls: seq<Call>, i: nat, j: nat)
    requires IsFolder(tree, t.home) && WellFormed(tree) && i < |calls| && j < |calls|
    requires calls[i].WriteFile? && calls[j].MkdirAll? && t.root <= Comps(calls[i].path)
    requires ArchiveTree.Stands(tree, t, calls, i) && ArchiveTree.Stands(tree, t, calls, j)
    ensures Rest(t.root, calls[i]) != [] && !(Rest(t.root, calls[i]) <= Rest(t.root, calls[j]))
  {
    var file, dir := Rest(t.root, calls[i]), Rest(t.root, calls[j]);
    if t.root <= Comps(calls[j].path) && file <= dir {
      assert file + dir[|file|..] == dir;
      FollowPrefix(tree, t.home, file, dir[|file|..], MAX_LINKS);
    }
  }

  lemma SucceedingFits(tree: Tree, t: ArchiveTree.Target, calls: seq<Call>)
    requires Made(tree, t.root, t.home, []) && Plain(t.root, calls) && DirsFirst(t.root, calls)
    requires ArchiveTree.AllSucceed(tree, t, calls, Wholes(calls))
    ensures Fitting(t.root, calls)
  {
    var after := ArchiveTree.AfterCalls(tree, t, calls, Wholes(calls));
    ArchiveTree.AllStand(tree, t, calls, Wholes(calls));
    forall i, j | 0 <= i < |calls| && 0 <= j < |calls| && calls[i].WriteFile? && calls[j].MkdirAll?
      ensures Apart(t.root, calls[i], calls[j])
    {
      assert calls[i] in calls;
      ClashFails(after, t, calls, i, j);
    }
    forall i | 0 <= i < |calls| && calls[i].WriteFile?
      ensures Rest(t.root, calls[i]) != []
    {
      assert calls[i] in calls && ArchiveTree.Stands(after, t, calls, i);
    }
  }

  /******* The headers *******/

  function RestOf(c: Config, root: seq<string>, h: Header): seq<string>
    requires c.place(h).Within? && root <= Comps(c.place(h).path)
  {
    Comps(c.place(h).path)[|root|..]
  }

  /** The header has a directory there: its own, or one above it. */
  ghost predicate Needs(c: Config, root: seq<string>, h: Header, dir: seq<string>)
    requires c.place(h).Within? && root <= Comps(c.place(h).path)
  {
    dir <= RestOf(c, root, h) && (h.kind.Directory? || dir != RestOf(c, root, h))
  }

  ghost predicate AllPlaced(c: Config, root: seq<string>, headers: seq<Header>) {
    forall i :: 0 <= i < |headers| ==> c.place(headers[i]).Within? && root <= Comps(c.place(headers[i]).path)
  }

  /** No file is in the place of the target, or of a directory that some header needs. */
  ghost predicate FilesApart(c: Config, root: seq<string>, headers: seq<Header>)
    requires AllPlaced(c, root, headers)
  {
    forall i :: 0 <= i < |headers| && headers[i].kind.Regular? ==>
      && RestOf(c, root, headers[i]) != []
      && forall j :: 0 <= j < |headers| ==> !Needs(c, root, headers[j], RestOf(c, root, headers[i]))
  }

  lemma RestOfParent(c: Config, root: seq<string>, h: Header)
    requires root != [] && c.place(h).Within? && PathBeneath(root, c.place(h).path)
    ensures var rest := RestOf(c, root, h);
            Rest(root, MkdirAll(Dir(c.place(h).path))) == if rest == [] then [] else Parent(rest)
  {
    DirOfSpelled(Comps(c.place(h).path));
    ParentRest(root, Comps(c.place(h).path));
  }

  lemma ParentRest(root: seq<string>, comps: seq<string>)
    requires root != [] && root <= comps
    ensures if root == comps then !(root <= Parent(comps)) && comps[|root|..] == []
            else root <= Parent(comps) && comps[|root|..] != [] && Parent(comps)[|root|..] == Parent(comps[|root|..])
  {
  }

  /** The calls of a header that leads there, from call k. */
  ghost predicate CallsFor(root: seq<string>, kind: Kind, rest: seq<string>, calls: seq<Call>, k: nat) {
    && k < |calls| && (!kind.OtherKind? ==> k + 1 < |calls|)
    && calls[k].MkdirAll? && Rest(root, calls[k]) == (if rest == [] then [] else Parent(rest))
    && (kind.Regular? ==> calls[k + 1].WriteFile? && Rest(root, calls[k + 1]) == rest)
    && (kind.Directory? ==> calls[k + 1].MkdirAll? && Rest(root, calls[k + 1]) == rest)
  }

  lemma RestsOfCalls(c: Config, root: seq<string>, h: Header, calls: seq<Call>, k: nat)
    requires root != [] && Sound(c, root) && Fulfils(c, h, calls, k)
    ensures c.place(h).Within? && root <= Comps(c.place(h).path)
    ensures CallsFor(root, h.kind, RestOf(c, root, h), calls, k)
  {
    assert PathBeneath(root, c.place(h).path);
    RestOfParent(c, root, h);
  }

  /** The calls for headers of which none is a link. */
  ghost predicate Extracts(c: Config, root: seq<string>, headers: seq<Header>, calls: seq<Call>) {
    && root != [] && Sound(c, root) && AllFulfilled(c, headers, calls) && |calls| == CallsBefore(headers, |headers|)
    && forall i :: 0 <= i < |headers| ==> !headers[i].kind.Symlink?
  }

  lemma HeaderCalls(c: Config, root: seq<string>, headers: seq<Header>, calls: seq<Call>, i: nat)
    requires Extracts(c, root, headers, calls) && i < |headers|
    ensures var h := headers[i];
            && c.place(h).Within? && root <= Comps(c.place(h).path) && 0 < CallsBefore(headers, i)
            && CallsFor(root, h.kind, RestOf(c, root, h), calls, CallsBefore(headers, i))
  {
    assert FulfilsHeader(c, headers, calls, i);
    RestsOfCalls(c, root, headers[i], calls, CallsBefore(headers, i));
    CallsBeforeGrows(headers, 0, i);
  }

  lemma ArePlaced(c: Config, root: seq<string>, headers: seq<Header>, calls: seq<Call>)
    requires Extracts(c, root, headers, calls)
    ensures AllPlaced(c, root, headers)
  {
    forall i | 0 <= i < |headers|
      ensures c.place(headers[i]).Within? && root <= Comps(c.place(headers[i]).path)
    {
      HeaderCalls(c, root, headers, calls, i);
    }
  }

  /** A call is the first or the second one of its header. */
  lemma CallOfHeader(headers: seq<Header>, m: nat) returns (j: nat)
    requires 0 < m < CallsBefore(headers, |headers|)
    ensures j < |headers|
    ensures m == CallsBefore(headers, j) || (m == CallsBefore(headers, j) + 1 && !headers[j].kind.OtherKind?)
  {
    j := HeaderOfCall(headers, |headers|, m);
  }

  /** Which header a directory is made for. */
  lemma NeederOf(c: Config, root: seq<string>, headers: seq<Header>, calls: seq<Call>, m: nat) returns (j: nat)
    requires Extracts(c, root, headers, calls) && AllPlaced(c, root, headers) && 0 < m < |calls| && calls[m].MkdirAll?
    ensures j < |headers|
    ensures Rest(root, calls[m]) == [] || Needs(c, root, headers[j], Rest(root, calls[m]))
  {
    j := CallOfHeader(headers, m);
    HeaderCalls(c, root, headers, calls, j);
    NeededDir(root, headers[j].kind, RestOf(c, root, headers[j]), calls, CallsBefore(headers, j), m);
  }

  lemma NeededDir(root: seq<string>, kind: Kind, rest: seq<string>, calls: seq<Call>, k: nat, m: nat)
    requires CallsFor(root, kind, rest, calls, k) && !kind.Symlink? && (m == k || (m == k + 1 && !kind.OtherKind?))
    requires calls[m].MkdirAll?
    ensures var dir := Rest(root, calls[m]);
            dir == [] || (dir <= rest && (kind.Directory? || dir != rest))
  {
  }

  /** Which header a file is written for, right after its directory. */
  lemma WriterIs(c: Config, root: seq<string>, headers: seq<Header>, calls: seq<Call>, m: nat) returns (i: nat)
    requires Extracts(c, root, headers, calls) && AllPlaced(c, root, headers) && 0 < m < |calls| && calls[m].WriteFile?
    ensures i < |headers| && headers[i].kind.Regular? && Rest(root, calls[m]) == RestOf(c, root, headers[i])
    ensures Rest(root, calls[m]) != [] ==>
              1 < m && calls[m - 1].MkdirAll? && Rest(root, calls[m - 1]) == Parent(Rest(root, calls[m]))
  {
    i := CallOfHeader(headers, m);
    HeaderCalls(c, root, headers, calls, i);
  }

  lemma DirsComeFirst(c: Config, root: seq<string>, headers: seq<Header>, calls: seq<Call>)
    requires Extracts(c, root, headers, calls) && AllPlaced(c, root, headers)
    ensures DirsFirst(root, calls[1..])
  {
    forall m | 0 < m < |calls| && calls[m].WriteFile?
      ensures Rest(root, calls[m]) != [] ==>
                1 < m && calls[m - 1].MkdirAll? && Rest(root, calls[m - 1]) == Parent(Rest(root, calls[m]))
    {
      var i := WriterIs(c, root, headers, calls, m);
    }
    TailDirsFirst(root, calls);
  }

  lemma TailDirsFirst(root: seq<string>, calls: seq<Call>)
    requires calls != []
    requires forall m :: 0 < m < |calls| && calls[m].WriteFile? && Rest(root, calls[m]) != [] ==>
               1 < m && calls[m - 1].MkdirAll? && Rest(root, calls[m - 1]) == Parent(Rest(root, calls[m]))
    ensures DirsFirst(root, calls[1..])
  {
    var tail := calls[1..];
    assert forall j :: 0 <= j < |tail| ==> tail[j] == calls[j + 1];
  }

  lemma CallsApart(c: Config, root: seq<string>, headers: seq<Header>, calls: seq<Call>, a: nat, b: nat)
    requires Extracts(c, root, headers, calls) && AllPlaced(c, root, headers) && FilesApart(c, root, headers)
    requires 0 < a < |calls| && 0 < b < |calls| && calls[a].WriteFile? && calls[b].MkdirAll?
    ensures Apart(root, calls[a], calls[b])
  {
    var i := WriterIs(c, root, headers, calls, a);
    var j := NeederOf(c, root, headers, calls, b);
    assert !Needs(c, root, headers[j], RestOf(c, root, headers[i]));
  }

  /** Files that are apart have calls that fit together. */
  lemma FittingCalls(c: Config, root: seq<string>, headers: seq<Header>, calls: seq<Call>)
    requires Extracts(c, root, headers, calls) && AllPlaced(c, root, headers) && FilesApart(c, root, headers)
    requires Plain(root, calls[1..])
    ensures Fitting(root, calls[1..])
  {
    var tail := calls[1..];
    DirsComeFirst(c, root, headers, calls);
    forall a, b | 0 <= a < |tail| && 0 <= b < |tail| && tail[a].WriteFile? && tail[b].MkdirAll?
      ensures Apart(root, tail[a], tail[b])
    {
      CallsApart(c, root, headers, calls, a + 1, b + 1);
    }
    forall a | 0 <= a < |tail| && tail[a].WriteFile?
      ensures Rest(root, tail[a]) != []
    {
      var i := WriterIs(c, root, headers, calls, a + 1);
    }
  }

  /** And calls that fit together are those of files that are apart. */
  lemma FittingFiles(c: Config, root: seq<string>, headers: seq<Header>, calls: seq<Call>)
    requires Extracts(c, root, headers, calls) && AllPlaced(c, root, headers) && Fitting(root, calls[1..])
    ensures FilesApart(c, root, headers)
  {
    forall i | 0 <= i < |headers| && headers[i].kind.Regular?
      ensures RestOf(c, root, headers[i]) != []
      ensures forall j :: 0 <= j < |headers| ==> !Needs(c, root, headers[j], RestOf(c, root, headers[i]))
    {
      HeaderCalls(c, root, headers, calls, i);
      assert calls[1..][CallsBefore(headers, i)] == calls[CallsBefore(headers, i) + 1];
      forall j | 0 <= j < |headers|
        ensures !Needs(c, root, headers[j], RestOf(c, root, headers[i]))
      {
        FileApartFrom(c, root, headers, calls, i, j);
      }
    }
  }

  lemma FileApartFrom(c: Config, root: seq<string>, headers: seq<Header>, calls: seq<Call>, i: nat, j: nat)
    requires Extracts(c, root, headers, calls) && AllPlaced(c, root, headers) && Fitting(root, calls[1..])
    requires i < |headers| && j < |headers| && headers[i].kind.Regular?
    ensures !Needs(c, root, headers[j], RestOf(c, root, headers[i]))
  {
    HeaderCalls(c, root, headers, calls, i);
    HeaderCalls(c, root, headers, calls, j);
    DirApart(root, calls, CallsBefore(headers, i), RestOf(c, root, headers[i]),
             CallsBefore(headers, j), headers[j].kind, RestOf(c, root, headers[j]));
  }

  lemma DirApart(root: seq<string>, calls: seq<Call>, a: nat, file: seq<string>, b: nat, kind: Kind, rest: seq<string>)
    requires 0 < a && 0 < b && calls != [] && NoClash(root, calls[1..])
    requires CallsFor(root, Regular, file, calls, a) && CallsFor(root, kind, rest, calls, b)
    ensures !(file <= rest && (kind.Directory? || file != rest))
  {
    var tail := calls[1..];
    assert tail[a] == calls[a + 1] && tail[b - 1] == calls[b];
    assert Apart(root, tail[a], tail[b - 1]);
    if kind.Directory? {
      assert tail[b] == calls[b + 1] && Apart(root, tail[a], tail[b]);
    }
  }

  /******* Exactly when a plain archive can be extracted *******/

  /** Without links, an archive that passes is extracted into an empty directory exactly when no file is in the place of the
      target, or where a directory has to be. */
  lemma {:induction false} CanExtractExactly(cwd: string, o: Options, headers: seq<Header>, tree: Tree, dir: Path, home: Location)
    requires IsAbs(cwd) && dir != [] && Proper(dir) && NoParent(dir)
    requires WellFormed(tree) && IsFolder(tree, home) && Subtree(tree, home) == {home}
    requires forall i :: 0 <= i < |headers| ==> !headers[i].kind.Symlink?
    ensures var c := ConfigFor(cwd, Spell(true, dir), o);
            CanExtract(cwd, o, headers, tree, dir, home) <==>
              AllAdmissible(c, headers) && AllPlaced(c, dir, headers) && FilesApart(c, dir, headers)
  {
    var c, t := ConfigFor(cwd, Spell(true, dir), o), ArchiveTree.Target(dir, home);
    SpelledResolves(cwd, dir);
    ConfigIsSound(cwd, Spell(true, dir), o);
    EmptyIsMade(tree, dir, home);
    if AllAdmissible(c, headers) {
      PlanFulfils(c, headers);
      var calls := Plan(c, headers);
      ArePlaced(c, dir, headers, calls);
      PlainPlan(c, dir, headers, calls);
      if FilesApart(c, dir, headers) {
        FittingCalls(c, dir, headers, calls);
        FittingSucceed(tree, t, calls[1..]);
      }
      if ArchiveTree.AllSucceed(tree, t, calls[1..], Wholes(calls[1..])) {
        DirsComeFirst(c, dir, headers, calls);
        SucceedingFits(tree, t, calls[1..]);
        FittingFiles(c, dir, headers, calls);
      }
    }
  }

  lemma EmptyIsMade(tree: Tree, root: seq<string>, home: Location)
    requires WellFormed(tree) && IsFolder(tree, home) && Subtree(tree, home) == {home}
    ensures Made(tree, root, home, []) && NoParent(home)
  {
    assert forall at :: at in tree && home <= at ==> at in Subtree(tree, home);
  }

  lemma PlainPlan(c: Config, root: seq<string>, headers: seq<Header>, calls: seq<Call>)
    requires calls == Plan(c, headers) && Extracts(c, root, headers, calls) && AllPlaced(c, root, headers) && calls != []
    ensures Plain(root, calls[1..])
  {
    ArchiveTree.PlanBeneath(c, root, headers, calls);
    forall call | call in calls[1..]
      ensures !call.MakeLink?
    {
      var m :| 0 <= m < |calls| - 1 && calls[1..][m] == call;
      NoLinkCall(c, root, headers, calls, m + 1);
    }
  }

  lemma NoLinkCall(c: Config, root: seq<string>, headers: seq<Header>, calls: seq<Call>, m: nat)
    requires Extracts(c, root, headers, calls) && AllPlaced(c, root, headers) && 0 < m < |calls|
    ensures !calls[m].MakeLink?
  {
    var j := CallOfHeader(headers, m);
    HeaderCalls(c, root, headers, calls, j);
  }
}
