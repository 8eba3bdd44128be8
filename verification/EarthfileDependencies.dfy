/** Dependencies of earthly/earthfile/dependencies.go: a recursive collection of references, done once and kept. */
module EarthfileDependencies {
  import opened DependencyRefs
  import opened EarthfileAst
  import opened EarthfileWalk
  import opened Lists
  import opened Optional
  import opened Text

  /** The locals that the closures of parseDependencies share. */
  class Collector {
    var deps: seq<Dependency>
    var seen: set<string>
    ghost var refs: seq<Dependency>  // every reference offered so far

    ghost predicate Valid()
      reads this
    {
      deps == FirstByKey(refs) && seen == SeenKeys(refs)
    }

    constructor ()
      ensures Valid() && refs == []
    {
      deps, seen, refs := [], {}, [];
    }

    method AddDep(target: string, source: string)
      requires Valid()
      modifies this
      ensures Valid() && refs == old(refs) + RefTo(target, source)
    {
      if target == "" {
        return;
      }
      var dep := Dependency(target, source);
      var key := dep.source + ":" + dep.target;
      FirstByKeySnoc(refs, dep);
      if key !in seen {
        seen := seen + {key};
        deps := deps + [dep];
      }
      refs := refs + [dep];
    }

    method ProcessCommand(cmd: AstCommand, source: string)
      requires Valid()
      modifies this
      ensures Valid() && refs == old(refs) + CommandRefs(ConvertCommand(cmd), source)
    {
      match cmd.name
      case "BUILD" =>
        if |cmd.args| > 0 {
          AddDep(cmd.args[0], source);
        }
      case "FROM" =>
        if |cmd.args| > 0 && IsTargetReference(cmd.args[0]) {
          AddDep(cmd.args[0], source);
        }
      case "COPY" =>
        ProcessCopyCommand(cmd, source);
      case _ =>
    }

    method ProcessCopyCommand(cmd: AstCommand, source: string)
      requires Valid()
      modifies this
      ensures Valid() && refs == old(refs) + CopyRefs(cmd.args, source)
    {
      for i := 0 to |cmd.args|
        invariant Valid() && refs == old(refs) + CopyRefs(cmd.args[..i], source)
      {
        var arg := cmd.args[i];
        ghost var r := refs;
        if HasPrefix(arg, "--from=") {
          var target := TrimPrefix(arg, "--from=");
          if IsTargetReference(target) {
            AddDep(target, source);
          }
        } else if IsTargetWithArtifact(arg) {
          var target := ExtractTargetFromArtifact(arg);
          if target != "" {
            AddDep(target, source);
          }
        }
        CopyStep(old(refs), r, refs, cmd.args, i, source);
      }
      assert cmd.args[..|cmd.args|] == cmd.args;
    }

    method ProcessBlock(block: Block, source: string)
      requires Valid()
      modifies this
      ensures Valid() && refs == Collect(old(refs), Nodes(block), source)
      decreases block, 0
    {
      for i := 0 to |block|
        invariant Valid() && refs == Collect(old(refs), Nodes(block[..i]), source)
      {
        ProcessStatement(block[i], source);
        CollectNext(old(refs), block, i, source);
      }
      assert block[..|block|] == block;
    }

    method ProcessStatement(s: Statement, source: string)
      requires Valid()
      modifies this
      ensures Valid() && refs == Collect(old(refs), StatementNodes(s), source)
      decreases s, 4
    {
      CollectStatement(refs, s, source);
      if s.command.Some? {
        ProcessCommand(s.command.value, source);
      }
      if s.cond.Some? {
        ProcessIfStatement(s.cond.value, source);
      }
      if s.loop.Some? {
        ProcessBlock(s.loop.value.body, source);
      }
      if s.with.Some? {
        ProcessBlock(s.with.value.body, source);
      }
      if s.try.Some? {
        ProcessTryStatement(s.try.value, source);
      }
      if s.wait.Some? {
        ProcessBlock(s.wait.value.body, source);
      }
    }

    method ProcessIfStatement(s: IfStatement, source: string)
      requires Valid()
      modifies this
      ensures Valid() && refs == Collect(old(refs), IfNodes(s), source)
      decreases s, 3
    {
      CollectIf(refs, s, source);
      ProcessBlock(s.ifBody, source);
      ghost var r := refs;
      for i := 0 to |s.elseIfs|
        invariant Valid() && refs == Collect(r, ElseIfNodes(s.elseIfs[..i]), source)
      {
        ProcessBlock(s.elseIfs[i].body, source);
        CollectElseIf(r, s.elseIfs, i, source);
      }
      assert s.elseIfs[..|s.elseIfs|] == s.elseIfs;
      if s.elseBody.Body? {
        ProcessBlock(s.elseBody.block, source);
      }
    }

    method ProcessTryStatement(s: TryStatement, source: string)
      requires Valid()
      modifies this
      ensures Valid() && refs == Collect(old(refs), TryNodes(s), source)
      decreases s, 3
    {
      CollectTry(refs, s, source);
      ProcessBlock(s.tryBody, source);
      if s.catchBody.Body? {
        ProcessBlock(s.catchBody.block, source);
      }
      if s.finallyBody.Body? {
        ProcessBlock(s.finallyBody.block, source);
      }
    }
  }

  /******* How the nodes of each kind of statement are collected *******/

  lemma CopyStep(r: seq<Dependency>, s: seq<Dependency>, t: seq<Dependency>, args: seq<string>, i: nat, source: string)
    requires i < |args|
    requires s == r + CopyRefs(args[..i], source)
    requires t == s + RefTo(CopyTarget(args[i]), source)
    ensures t == r + CopyRefs(args[..i + 1], source)
  {
    CopyRefsNext(args, i, source);
    Regroup(r, CopyRefs(args[..i], source), RefTo(CopyTarget(args[i]), source));
  }

  lemma CopyRefsNext(args: seq<string>, i: nat, source: string)
    requires i < |args|
    ensures CopyRefs(args[..i + 1], source) == CopyRefs(args[..i], source) + RefTo(CopyTarget(args[i]), source)
  {
    assert args[..i + 1][..i] == args[..i] && args[..i + 1][i] == args[i];
  }

  lemma {:induction false} NodesSnoc(block: Block, s: Statement)
    ensures Nodes(block + [s]) == Nodes(block) + StatementNodes(s)
    decreases |block|
  {
    if block == [] {
      assert (block + [s])[1..] == [];
    } else {
      assert (block + [s])[0] == block[0] && (block + [s])[1..] == block[1..] + [s];
      NodesSnoc(block[1..], s);
    }
  }

  lemma CollectNext(r: seq<Dependency>, block: Block, i: nat, source: string)
    requires i < |block|
    ensures Collect(r, Nodes(block[..i + 1]), source) ==
            Collect(Collect(r, Nodes(block[..i]), source), StatementNodes(block[i]), source)
  {
    assert block[..i + 1] == block[..i] + [block[i]];
    NodesSnoc(block[..i], block[i]);
    CollectAppend(r, Nodes(block[..i]), StatementNodes(block[i]), source);
  }

  lemma {:induction false} ElseIfNodesSnoc(elseIfs: seq<ElseIf>, e: ElseIf)
    ensures ElseIfNodes(elseIfs + [e]) == ElseIfNodes(elseIfs) + [NodeOver(Control("ELSE IF", If, e.expression), e.body)]
    decreases |elseIfs|
  {
    if elseIfs == [] {
      assert (elseIfs + [e])[1..] == [];
    } else {
      assert (elseIfs + [e])[0] == elseIfs[0] && (elseIfs + [e])[1..] == elseIfs[1..] + [e];
      ElseIfNodesSnoc(elseIfs[1..], e);
    }
  }

  /** A control command refers to nothing itself, only the commands under it do. */
  lemma CollectControl(r: seq<Dependency>, name: string, ctype: CommandType, args: seq<string>, body: Block, source: string)
    ensures Collect(r, [NodeOver(Control(name, ctype, args), body)], source) == Collect(r, Nodes(body), source)
  {
    var nodes := [NodeOver(Control(name, ctype, args), body)];
    assert nodes[1..] == [] && r + [] == r;
  }

  lemma CollectPlain(r: seq<Dependency>, c: AstCommand, source: string)
    ensures Collect(r, [Node(ConvertCommand(c), [])], source) == r + CommandRefs(ConvertCommand(c), source)
  {
    var nodes := [Node(ConvertCommand(c), [])];
    assert nodes[1..] == [];
  }

  function CollectOptional(r: seq<Dependency>, body: OptionalBlock, source: string): seq<Dependency> {
    if body.NoBlock? then r else Collect(r, Nodes(body.block), source)
  }

  lemma OptionalControl(r: seq<Dependency>, name: string, ctype: CommandType, body: OptionalBlock, source: string)
    ensures Collect(r, OptionalNode(Control(name, ctype, []), body), source) == CollectOptional(r, body, source)
  {
    if body.Body? {
      CollectControl(r, name, ctype, [], body.block, source);
    }
  }

  lemma CollectElseIf(r: seq<Dependency>, elseIfs: seq<ElseIf>, i: nat, source: string)
    requires i < |elseIfs|
    ensures Collect(r, ElseIfNodes(elseIfs[..i + 1]), source) ==
            Collect(Collect(r, ElseIfNodes(elseIfs[..i]), source), Nodes(elseIfs[i].body), source)
  {
    var e := elseIfs[i];
    var node := NodeOver(Control("ELSE IF", If, e.expression), e.body);
    assert elseIfs[..i + 1] == elseIfs[..i] + [e];
    ElseIfNodesSnoc(elseIfs[..i], e);
    CollectAppend(r, ElseIfNodes(elseIfs[..i]), [node], source);
    CollectControl(Collect(r, ElseIfNodes(elseIfs[..i]), source), "ELSE IF", If, e.expression, e.body, source);
  }

  lemma CollectIf(r: seq<Dependency>, s: IfStatement, source: string)
    ensures Collect(r, IfNodes(s), source) ==
            CollectOptional(Collect(Collect(r, Nodes(s.ifBody), source), ElseIfNodes(s.elseIfs), source), s.elseBody, source)
  {
    var first := [NodeOver(Control("IF", If, s.expression), s.ifBody)];
    var last := OptionalNode(Control("ELSE", If, []), s.elseBody);
    CollectAppend(r, first, ElseIfNodes(s.elseIfs) + last, source);
    CollectControl(r, "IF", If, s.expression, s.ifBody, source);
    var r1 := Collect(r, Nodes(s.ifBody), source);
    CollectAppend(r1, ElseIfNodes(s.elseIfs), last, source);
    OptionalControl(Collect(r1, ElseIfNodes(s.elseIfs), source), "ELSE", If, s.elseBody, source);
  }

  lemma CollectTry(r: seq<Dependency>, s: TryStatement, source: string)
    ensures Collect(r, TryNodes(s), source) ==
            CollectOptional(CollectOptional(Collect(r, Nodes(s.tryBody), source), s.catchBody, source), s.finallyBody, source)
  {
    var first := [NodeOver(Control("TRY", Try, []), s.tryBody)];
    var middle := OptionalNode(Control("CATCH", Try, []), s.catchBody);
    var last := OptionalNode(Control("FINALLY", Try, []), s.finallyBody);
    CollectAppend(r, first, middle + last, source);
    CollectControl(r, "TRY", Try, [], s.tryBody, source);
    var r1 := Collect(r, Nodes(s.tryBody), source);
    CollectAppend(r1, middle, last, source);
    OptionalControl(r1, "CATCH", Try, s.catchBody, source);
    OptionalControl(CollectOptional(r1, s.catchBody, source), "FINALLY", Try, s.finallyBody, source);
  }

  function CollectCommandField(r: seq<Dependency>, s: Statement, source: string): seq<Dependency> {
    if s.command.None? then r else r + CommandRefs(ConvertCommand(s.command.value), source)
  }

  function CollectCond(r: seq<Dependency>, s: Statement, source: string): seq<Dependency> {
    if s.cond.None? then r else Collect(r, IfNodes(s.cond.value), source)
  }

  function CollectLoop(r: seq<Dependency>, s: Statement, source: string): seq<Dependency> {
    if s.loop.None? then r else Collect(r, Nodes(s.loop.value.body), source)
  }

  function CollectWith(r: seq<Dependency>, s: Statement, source: string): seq<Dependency> {
    if s.with.None? then r else Collect(r, Nodes(s.with.value.body), source)
  }

  function CollectTried(r: seq<Dependency>, s: Statement, source: string): seq<Dependency> {
    if s.try.None? then r else Collect(r, TryNodes(s.try.value), source)
  }

  function CollectWait(r: seq<Dependency>, s: Statement, source: string): seq<Dependency> {
    if s.wait.None? then r else Collect(r, Nodes(s.wait.value.body), source)
  }

  lemma CollectFields(r: seq<Dependency>, s: Statement, source: string)
    ensures Collect(r, CommandNodes(s), source) == CollectCommandField(r, s, source)
    ensures Collect(r, LoopNodes(s), source) == CollectLoop(r, s, source)
    ensures Collect(r, WithNodes(s), source) == CollectWith(r, s, source)
    ensures Collect(r, WaitNodes(s), source) == CollectWait(r, s, source)
  {
    if s.command.Some? {
      CollectPlain(r, s.command.value, source);
    }
    if s.loop.Some? {
      CollectControl(r, "FOR", For, s.loop.value.args, s.loop.value.body, source);
    }
    if s.with.Some? {
      CollectControl(r, s.with.value.command.name, With, s.with.value.command.args, s.with.value.body, source);
    }
    if s.wait.Some? {
      CollectControl(r, "WAIT", Wait, [], s.wait.value.body, source);
    }
  }

  /** A statement field by field, in the order the fields are processed. */
  lemma CollectStatement(r: seq<Dependency>, s: Statement, source: string)
    ensures Collect(r, StatementNodes(s), source) ==
            CollectWait(CollectTried(CollectWith(CollectLoop(CollectCond(CollectCommandField(r, s, source),
              s, source), s, source), s, source), s, source), s, source)
  {
    var n5 := WaitNodes(s);
    var n4 := TriedNodes(s) + n5;
    var n3 := WithNodes(s) + n4;
    var n2 := LoopNodes(s) + n3;
    var n1 := CondNodes(s) + n2;
    CollectAppend(r, CommandNodes(s), n1, source);
    CollectFields(r, s, source);
    var r0 := CollectCommandField(r, s, source);
    CollectAppend(r0, CondNodes(s), n2, source);
    var r1 := CollectCond(r0, s, source);
    CollectAppend(r1, LoopNodes(s), n3, source);
    CollectFields(r1, s, source);
    var r2 := CollectLoop(r1, s, source);
    CollectAppend(r2, WithNodes(s), n4, source);
    CollectFields(r2, s, source);
    var r3 := CollectWith(r2, s, source);
    CollectAppend(r3, TriedNodes(s), n5, source);
    var r4 := CollectTried(r3, s, source);
    CollectFields(r4, s, source);
  }

  /******* The dependencies of a file *******/

  function DependenciesOf(ast: Option<Ast>): seq<Dependency> {
    if ast.None? then [] else FirstByKey(AllRefs(ast.value))
  }

  class Earthfile {
    const ast: Option<Ast>
    var dependencies: seq<Dependency>
    var dependenciesLoaded: bool

    ghost predicate Valid()
      reads this
    {
      dependenciesLoaded ==> dependencies == DependenciesOf(ast)
    }

    constructor (ast: Option<Ast>)
      ensures Valid() && this.ast == ast
    {
      this.ast, dependencies, dependenciesLoaded := ast, [], false;
    }

    /** The first call parses, later ones give the same list again. */
    method Dependencies() returns (deps: seq<Dependency>)
      requires Valid()
      modifies this
      ensures Valid() && dependenciesLoaded
      ensures deps == DependenciesOf(ast)
      ensures old(dependenciesLoaded) ==> dependencies == old(dependencies)
    {
      if !dependenciesLoaded {
        dependenciesLoaded := true;
        dependencies := ParseDependencies();
      }
      deps := dependencies;
    }

    method ParseDependencies() returns (deps: seq<Dependency>)
      ensures deps == DependenciesOf(ast)
    {
      if ast.None? {
        return [];
      }
      var file := ast.value;
      var c := new Collector();
      c.ProcessBlock(file.baseRecipe, "");
      ghost var r := c.refs;
      for i := 0 to |file.targets|
        invariant c.Valid() && CollectTargets(c.refs, file.targets[i..]) == CollectTargets(r, file.targets)
      {
        c.ProcessBlock(file.targets[i].body, file.targets[i].name);
        assert file.targets[i..][1..] == file.targets[i + 1..];
      }
      CollectedAreAllRefs(file);
      deps := c.deps;
    }
  }

  function BuildOf(target: string): Statement {
    CommandStatement(AstCommand("BUILD", [target]))
  }

  lemma BuildRefs(target: string, source: string)
    requires target != ""
    ensures VisitRefs(Preorder(Nodes([BuildOf(target)]), 0), source) == [Dependency(target, source)]
  {
    var c := AstCommand("BUILD", [target]);
    var node := [Node(ConvertCommand(c), [])];
    CommandStatementNodes(c);
    CollectPlain([], c, source);
    CollectIsWalk([], node, 0, source);
    assert [] + VisitRefs(Preorder(node, 0), source) == VisitRefs(Preorder(node, 0), source);
  }

  /** An Earthfile with two targets, one named after the other and a colon: its two references become one dependency. */
  lemma MergedDependencies(ast: Ast)
    requires ast == Ast([], [Recipe("b", [BuildOf("c:+t")]), Recipe("b:c", [BuildOf("+t")])], [])
    ensures AllRefs(ast) == [Dependency("c:+t", "b"), Dependency("+t", "b:c")]
    ensures DependenciesOf(Some(ast)) == [Dependency("c:+t", "b")]
  {
    TwoBuilds("b", "c:+t", "b:c", "+t");
    assert Nodes([]) == [] && Preorder([], 0) == [] && VisitRefs([], "") == [];
    ColonNamesMerge();
  }

  lemma TwoBuilds(a: string, s: string, b: string, t: string)
    requires s != "" && t != ""
    ensures TargetRefs([Recipe(a, [BuildOf(s)]), Recipe(b, [BuildOf(t)])]) == [Dependency(s, a), Dependency(t, b)]
  {
    var targets := [Recipe(a, [BuildOf(s)]), Recipe(b, [BuildOf(t)])];
    BuildRefs(s, a);
    BuildRefs(t, b);
    assert targets[1..] == [targets[1]] && targets[1..][1..] == [];
    assert TargetRefs(targets[1..]) == [Dependency(t, b)];
  }
}
