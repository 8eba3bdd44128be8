/** The archiver at work on a tree: the calls of an extraction and what they do. */
module TreeArchiver {
  import opened ArchiveExtract
  import opened LexicalPath
  import opened LinkTree
  import opened TreeFs
  import ArchiveTree

  /** At or beneath a place is what the headers describe, extracted to a directory of that path. */
  ghost predicate HoldsArchive(cwd: string, o: Options, headers: seq<Header>, tree: Tree, dir: Path, home: Location) {
    ArchiveTree.AllDelivered(ConfigFor(cwd, Spell(true, dir), o), tree, ArchiveTree.Target(dir, home), headers)
  }

  /** All headers pass, and no call is stopped by what it finds. */
  ghost predicate CanExtract(cwd: string, o: Options, headers: seq<Header>, tree: Tree, dir: Path, home: Location) {
    var config := ConfigFor(cwd, Spell(true, dir), o);
    && AllAdmissible(config, headers) && Plan(config, headers) != []
    && var calls := Plan(config, headers)[1..];
       ArchiveTree.AllSucceed(tree, ArchiveTree.Target(dir, home), calls, Wholes(calls))
  }

  class Archiver {
    const cwd: string
    const options: Options
    ghost var runs: nat
    ghost var faults: nat      // how often reading an archive or a call has failed by itself
    ghost var written: Tree    // the filesystem as the last run left it
    ghost var succeeded: bool  // whether that run got to the end

    constructor (cwd: string, options: Options)
      requires IsAbs(cwd)
      ensures this.cwd == cwd && this.options == options && runs == 0 && faults == 0
    {
      this.cwd, this.options := cwd, options;
      runs, faults, written, succeeded := 0, 0, map[], false;
    }

    /** Extracts into an empty directory that the path leads to. */
    method Extract(fs: FileSystem, headers: seq<Header>, dir: Path) returns (ok: bool)
      requires fs.Valid() && IsAbs(cwd) && |headers| <= MAX_INT64 && dir != [] && Proper(dir) && NoParent(dir)
      requires LeadsToDir(fs.nodes, dir) && Subtree(fs.nodes, Leads(fs.nodes, dir).at) == {Leads(fs.nodes, dir).at}
      modifies this, fs
      ensures fs.Valid() && fs.faults == old(fs.faults) && old(faults) <= faults
      ensures var home := old(Leads(fs.nodes, dir).at);
              Settled(cwd, options, headers, old(fs.nodes), fs.nodes, dir, home, ok, faults == old(faults))
      ensures runs == old(runs) + 1 && written == fs.nodes && succeeded == ok
    {
      ghost var newFaults;
      ok, newFaults := ListAndMake(fs, cwd, options, headers, dir, Leads(fs.nodes, dir).at);
      runs, faults, written, succeeded := runs + 1, faults + newFaults, fs.nodes, ok;
    }
  }

  /** Nothing has changed outside the directory; after a success it holds the archive; and without faults it is the archive
      that decides. */
  ghost predicate Settled(cwd: string, o: Options, headers: seq<Header>, before: Tree, after: Tree, dir: Path, home: Location,
                          ok: bool, faultless: bool) {
    && StillThere(before, after, home)
    && (ok ==> HoldsArchive(cwd, o, headers, after, dir, home))
    && (faultless ==> (ok <==> CanExtract(cwd, o, headers, before, dir, home)))
  }

  method ListAndMake(fs: FileSystem, cwd: string, o: Options, headers: seq<Header>, dir: Path, home: Location)
    returns (ok: bool, ghost newFaults: nat)
    requires fs.Valid() && IsAbs(cwd) && |headers| <= MAX_INT64 && dir != [] && Proper(dir) && NoParent(dir)
    requires IsFolder(fs.nodes, home) && Subtree(fs.nodes, home) == {home}
    modifies fs`nodes
    ensures fs.Valid() && Settled(cwd, o, headers, old(fs.nodes), fs.nodes, dir, home, ok, newFaults == 0)
  {
    NoLinksInside(fs.nodes, home);
    var n, calls;
    ok, n, calls, newFaults := ListCalls(ConfigFor(cwd, Spell(true, dir), o), headers);
    if calls != [] {
      var made := MakeCalls(fs, cwd, o, calls, Upto(headers, n), dir, home, !ok);
      Outcome(cwd, o, headers, calls, ok, newFaults, old(fs.nodes), fs.nodes, dir, home, made);
      ok := ok && made;
    }
  }

  /** The calls of an extraction, of which the last one may have failed. */
  method ListCalls(config: Config, headers: seq<Header>) returns (ok: bool, n: nat, calls: seq<Call>, ghost faults: nat)
    requires config.targetDir != "" && |headers| <= MAX_INT64
    ensures n <= |headers| && calls <= Plan(config, Upto(headers, n)) && (faults == 0 || ok ==> calls != [])
    ensures Listed(config, headers, calls, ok, faults)
  {
    var extraction := new Extraction(config);
    ok, n := extraction.Extract(headers);
    calls, faults := extraction.calls, extraction.faults;
    PlanBegins(config, Upto(headers, n));
    if !ok && faults == 0 {
      StopsAll(config, headers, n);
    }
  }

  /** Without faults it is the headers that decide. */
  ghost predicate Listed(config: Config, headers: seq<Header>, calls: seq<Call>, ok: bool, faults: nat) {
    && (ok ==> AllAdmissible(config, headers) && calls == Plan(config, headers))
    && (faults == 0 && AllAdmissible(config, headers) ==> ok)
  }

  /** A call that is not stopped from outside does all that it is asked for. */
  function Whole(call: Call): ArchiveTree.Extent {
    ArchiveTree.Extent(|Comps(call.path)| + 1, if call.WriteFile? then |call.content| else 0)
  }

  function Wholes(calls: seq<Call>): seq<ArchiveTree.Extent> {
    seq(|calls|, i requires 0 <= i < |calls| => Whole(calls[i]))
  }

  /** The calls so far have made the tree what it is. */
  ghost predicate Progress(before: Tree, now: Tree, t: ArchiveTree.Target, calls: seq<Call>, extents: seq<ArchiveTree.Extent>) {
    |extents| == |calls| && now == ArchiveTree.AfterCalls(before, t, calls, extents)
  }

  /** They have been made in full, and succeeded or not. */
  ghost predicate InFull(before: Tree, t: ArchiveTree.Target, calls: seq<Call>, extents: seq<ArchiveTree.Extent>, ok: bool)
    requires |extents| == |calls|
  {
    extents == Wholes(calls) && (ok <==> ArchiveTree.AllSucceed(before, t, calls, extents))
  }

  lemma ProgressNext(before: Tree, now: Tree, t: ArchiveTree.Target, calls: seq<Call>, extents: seq<ArchiveTree.Extent>,
                     call: Call, extent: ArchiveTree.Extent)
    requires Progress(before, now, t, calls, extents)
    ensures Progress(before, ArchiveTree.Effect(now, t, call, extent), t, calls + [call], extents + [extent])
    ensures InFull(before, t, calls, extents, true) && extent == Whole(call) ==>
              InFull(before, t, calls + [call], extents + [extent], ArchiveTree.Succeeds(now, t, call, extent))
  {
    var calls', extents' := calls + [call], extents + [extent];
    assert calls'[..|calls|] == calls && extents'[..|calls|] == extents;
    if extents == Wholes(calls) && extent == Whole(call) {
      assert extents' == Wholes(calls');
    }
  }

  /** Makes the calls until one does not succeed. The last one may have been stopped. */
  method MakeUntilFailure(fs: FileSystem, t: ArchiveTree.Target, calls: seq<Call>, stopped: bool)
    returns (ok: bool, ghost extents: seq<ArchiveTree.Extent>)
    modifies fs`nodes
    ensures |extents| <= |calls| && Progress(old(fs.nodes), fs.nodes, t, calls[..|extents|], extents)
    ensures !stopped ==> InFull(old(fs.nodes), t, calls[..|extents|], extents, ok) && (ok ==> |extents| == |calls|)
  {
    extents := [];
    var i := 0;
    ok := true;
    while ok && i < |calls|
      invariant i == |extents| <= |calls| && Progress(old(fs.nodes), fs.nodes, t, calls[..i], extents)
      invariant !stopped ==> InFull(old(fs.nodes), t, calls[..i], extents, ok)
    {
      var extent: ArchiveTree.Extent := Whole(calls[i]);
      if stopped && i == |calls| - 1 {
        extent := *;
      }
      assert calls[..i] + [calls[i]] == calls[..i + 1];
      ProgressNext(old(fs.nodes), fs.nodes, t, calls[..i], extents, calls[i], extent);
      ok := ArchiveTree.Succeeds(fs.nodes, t, calls[i], extent);
      fs.nodes := ArchiveTree.Effect(fs.nodes, t, calls[i], extent);
      extents := extents + [extent];
      i := i + 1;
    }
  }

  /** The first call finds the directory; the others do what they do in the tree. */
  method MakeCalls(fs: FileSystem, cwd: string, o: Options, calls: seq<Call>, headers: seq<Header>, dir: Path, home: Location,
                   stopped: bool) returns (ok: bool)
    requires fs.Valid() && IsAbs(cwd) && dir != [] && Proper(dir) && NoParent(dir)
    requires calls != [] && calls <= Plan(ConfigFor(cwd, Spell(true, dir), o), headers)
    requires IsFolder(fs.nodes, home) && Subtree(fs.nodes, home) == {home}
    modifies fs`nodes
    ensures fs.Valid() && StillThere(old(fs.nodes), fs.nodes, home)
    ensures !stopped ==> Complete(old(fs.nodes), fs.nodes, ArchiveTree.Target(dir, home), calls[1..], ok)
  {
    ghost var extents;
    ok, extents := MakeUntilFailure(fs, ArchiveTree.Target(dir, home), calls[1..], stopped);
    RunsInside(cwd, o, dir, headers, calls, extents, old(fs.nodes), home);
    if !stopped {
      CompleteIs(old(fs.nodes), fs.nodes, ArchiveTree.Target(dir, home), calls[1..], extents, ok);
    }
  }

  /** The directory is still there, and nothing has changed outside. */
  ghost predicate StillThere(before: Tree, after: Tree, home: Location) {
    IsFolder(after, home) && Pruned(after, home) == Pruned(before, home) && Tame(after, home)
  }

  lemma CompleteIs(before: Tree, after: Tree, t: ArchiveTree.Target, calls: seq<Call>, extents: seq<ArchiveTree.Extent>, ok: bool)
    requires |extents| <= |calls| && Progress(before, after, t, calls[..|extents|], extents)
    requires InFull(before, t, calls[..|extents|], extents, ok) && (ok ==> |extents| == |calls|)
    ensures Complete(before, after, t, calls, ok)
  {
    assert calls[..|calls|] == calls;
    if ArchiveTree.AllSucceed(before, t, calls, Wholes(calls)) {
      SucceedsBefore(before, t, calls, Wholes(calls), |extents|);
      assert Wholes(calls)[..|extents|] == Wholes(calls[..|extents|]);
    }
  }

  /** All calls have been made in full, or one of them would not succeed. */
  ghost predicate Complete(before: Tree, after: Tree, t: ArchiveTree.Target, calls: seq<Call>, ok: bool) {
    && (ok <==> ArchiveTree.AllSucceed(before, t, calls, Wholes(calls)))
    && (ok ==> after == ArchiveTree.AfterCalls(before, t, calls, Wholes(calls)))
  }

  lemma FrontOfFront<T>(s: seq<T>, k: nat, n: nat)
    requires n <= k <= |s|
    ensures s[..k][..n] == s[..n]
  {
  }

  lemma {:induction false} SucceedsBefore(tree: Tree, t: ArchiveTree.Target, calls: seq<Call>, extents: seq<ArchiveTree.Extent>, n: nat)
    requires n <= |calls| == |extents| && ArchiveTree.AllSucceed(tree, t, calls, extents)
    ensures ArchiveTree.AllSucceed(tree, t, calls[..n], extents[..n])
    decreases |calls|
  {
    var k := |calls| - 1;
    if n == |calls| {
      assert calls[..n] == calls && extents[..n] == extents;
    } else {
      SucceedsBefore(tree, t, calls[..k], extents[..k], n);
      FrontOfFront(calls, k, n);
      FrontOfFront(extents, k, n);
    }
  }

  lemma {:induction false} AdmissibleBefore(c: Config, headers: seq<Header>, n: nat)
    requires n <= |headers| && AllAdmissible(c, headers)
    ensures AllAdmissible(c, headers[..n])
    decreases |headers|
  {
    var k := |headers| - 1;
    if n == |headers| {
      assert headers[..n] == headers;
    } else {
      AdmissibleBefore(c, headers[..k], n);
      FrontOfFront(headers, k, n);
    }
  }

  lemma StopsAll(c: Config, headers: seq<Header>, n: nat)
    requires n < |headers| && !Admissible(c, headers[n], n + 1, Total(headers[..n + 1]))
    ensures !AllAdmissible(c, headers)
  {
    OneMore(c, headers, n);
    if AllAdmissible(c, headers) {
      AdmissibleBefore(c, headers, n + 1);
    }
  }

  lemma Delivers(cwd: string, o: Options, headers: seq<Header>, made: seq<Call>, before: Tree, after: Tree, dir: Path, home: Location)
    requires IsAbs(cwd) && dir != [] && Proper(dir) && NoParent(dir) && WellFormed(before) && IsFolder(before, home)
    requires var c := ConfigFor(cwd, Spell(true, dir), o);
             made == Plan(c, headers) && AllAdmissible(c, headers) && made != []
    requires Complete(before, after, ArchiveTree.Target(dir, home), made[1..], true)
    ensures HoldsArchive(cwd, o, headers, after, dir, home)
  {
    SpelledResolves(cwd, dir);
    ArchiveTree.ExtractionDelivers(cwd, Spell(true, dir), o, headers, made, Wholes(made[1..]), before, home);
  }

  lemma Outcome(cwd: string, o: Options, headers: seq<Header>, calls: seq<Call>, ok: bool, faults: nat, before: Tree, after: Tree,
                dir: Path, home: Location, made: bool)
    requires IsAbs(cwd) && dir != [] && Proper(dir) && NoParent(dir) && WellFormed(before) && IsFolder(before, home)
    requires calls != [] && Listed(ConfigFor(cwd, Spell(true, dir), o), headers, calls, ok, faults)
    requires ok ==> Complete(before, after, ArchiveTree.Target(dir, home), calls[1..], made)
    ensures ok && made ==> HoldsArchive(cwd, o, headers, after, dir, home)
    ensures faults == 0 ==> (ok && made <==> CanExtract(cwd, o, headers, before, dir, home))
  {
    if ok && made {
      Delivers(cwd, o, headers, calls, before, after, dir, home);
    }
  }

  lemma RunsInside(cwd: string, o: Options, dir: Path, headers: seq<Header>, calls: seq<Call>,
                   extents: seq<ArchiveTree.Extent>, tree: Tree, home: Location)
    requires IsAbs(cwd) && dir != [] && Proper(dir) && NoParent(dir) && WellFormed(tree)
    requires calls != [] && calls <= Plan(ConfigFor(cwd, Spell(true, dir), o), headers) && |extents| <= |calls| - 1
    requires IsFolder(tree, home) && Subtree(tree, home) == {home}
    ensures var after := ArchiveTree.AfterCalls(tree, ArchiveTree.Target(dir, home), calls[1..][..|extents|], extents);
            WellFormed(after) && StillThere(tree, after, home)
  {
    var made := calls[..|extents| + 1];
    RestOfFirst(calls, Plan(ConfigFor(cwd, Spell(true, dir), o), headers), |extents|);
    NoLinksInside(tree, home);
    MadeInside(cwd, o, dir, headers, made, extents, tree, home);
  }

  lemma RestOfFirst<T>(s: seq<T>, all: seq<T>, k: nat)
    requires k < |s| && s <= all
    ensures s[..k + 1][1..] == s[1..][..k] && s[..k + 1] <= all
  {
  }

  lemma MadeInside(cwd: string, o: Options, dir: Path, headers: seq<Header>, made: seq<Call>,
                   extents: seq<ArchiveTree.Extent>, tree: Tree, home: Location)
    requires IsAbs(cwd) && dir != [] && Proper(dir) && NoParent(dir) && WellFormed(tree)
    requires made != [] && made <= Plan(ConfigFor(cwd, Spell(true, dir), o), headers) && |extents| == |made| - 1
    requires IsFolder(tree, home) && Tame(tree, home)
    ensures var after := ArchiveTree.AfterCalls(tree, ArchiveTree.Target(dir, home), made[1..], extents);
            WellFormed(after) && StillThere(tree, after, home)
  {
    SpelledResolves(cwd, dir);
    ArchiveTree.ExtractionStaysInside(cwd, Spell(true, dir), o, headers, made, extents, tree, home);
    PrunedSame(tree, ArchiveTree.AfterCalls(tree, ArchiveTree.Target(dir, home), made[1..], extents), home);
  }

  lemma SpelledResolves(cwd: string, dir: Path)
    requires Proper(dir) && NoParent(dir)
    ensures Resolved(cwd, Spell(true, dir)) == dir && Spell(true, dir) != ""
  {
    SpellComps(true, dir);
    NormNoParent(true, [], dir);
    assert [] + dir == dir;
  }

  lemma NoLinksInside(tree: Tree, home: Location)
    requires IsFolder(tree, home) && Subtree(tree, home) == {home}
    ensures Tame(tree, home)
  {
    assert forall at :: at in tree && home <= at ==> at in Subtree(tree, home);
  }

  lemma PrunedSame(tree: Tree, after: Tree, home: Location)
    requires SameOutside(tree, after, home)
    ensures Pruned(after, home) == Pruned(tree, home)
  {
  }
}
