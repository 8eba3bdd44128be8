/** WalkCommands of earthly/earthfile/earthfile.go, against the pre-order of the tree of commands. */
module EarthfileWalk {
  import opened EarthfileAst
  import opened Optional

  datatype Visit = Visit(cmd: Cmd, depth: nat)

  /** The callback; what it answers may depend on all calls before. True is a nil error. */
  type WalkFunc = (seq<Visit>, Visit) -> bool

  /** The calls made so far, and whether the last one returned without an error. */
  datatype Walked = Walked(visits: seq<Visit>, ok: bool)

  function Call(fn: WalkFunc, before: seq<Visit>, cmd: Cmd, depth: nat): Walked {
    Walked(before + [Visit(cmd, depth)], fn(before, Visit(cmd, depth)))
  }

  /******* The walker *******/

  function WalkBlock(block: Block, depth: nat, fn: WalkFunc, before: seq<Visit>): Walked
    decreases block, 0
  {
    if block == [] then Walked(before, true)
    else
      var w := WalkStatement(block[0], depth, fn, before);
      if !w.ok then w else WalkBlock(block[1..], depth, fn, w.visits)
  }

  /** A control command and the block under it. */
  function WalkNested(cmd: Cmd, body: Block, depth: nat, fn: WalkFunc, before: seq<Visit>): Walked
    decreases body, 1
  {
    var w := Call(fn, before, cmd, depth);
    if !w.ok then w else WalkBlock(body, depth + 1, fn, w.visits)
  }

  function WalkElseIfs(elseIfs: seq<ElseIf>, depth: nat, fn: WalkFunc, before: seq<Visit>): Walked
    decreases elseIfs, 0
  {
    if elseIfs == [] then Walked(before, true)
    else
      var w := WalkNested(Control("ELSE IF", If, elseIfs[0].expression), elseIfs[0].body, depth, fn, before);
      if !w.ok then w else WalkElseIfs(elseIfs[1..], depth, fn, w.visits)
  }

  function WalkOptional(cmd: Cmd, body: OptionalBlock, depth: nat, fn: WalkFunc, before: seq<Visit>): Walked
    decreases body, 2
  {
    if body.NoBlock? then Walked(before, true) else WalkNested(cmd, body.block, depth, fn, before)
  }

  function WalkIf(s: IfStatement, depth: nat, fn: WalkFunc, before: seq<Visit>): Walked
    decreases s, 3
  {
    var w := WalkNested(Control("IF", If, s.expression), s.ifBody, depth, fn, before);
    if !w.ok then w
    else
      var v := WalkElseIfs(s.elseIfs, depth, fn, w.visits);
      if !v.ok then v else WalkOptional(Control("ELSE", If, []), s.elseBody, depth, fn, v.visits)
  }

  function WalkTry(s: TryStatement, depth: nat, fn: WalkFunc, before: seq<Visit>): Walked
    decreases s, 3
  {
    var w := WalkNested(Control("TRY", Try, []), s.tryBody, depth, fn, before);
    if !w.ok then w
    else
      var v := WalkOptional(Control("CATCH", Try, []), s.catchBody, depth, fn, w.visits);
      if !v.ok then v else WalkOptional(Control("FINALLY", Try, []), s.finallyBody, depth, fn, v.visits)
  }

  function WalkCommand(s: Statement, depth: nat, fn: WalkFunc, before: seq<Visit>): Walked {
    if s.command.None? then Walked(before, true) else Call(fn, before, ConvertCommand(s.command.value), depth)
  }

  function WalkCond(s: Statement, depth: nat, fn: WalkFunc, before: seq<Visit>): Walked
    decreases s, 3
  {
    if s.cond.None? then Walked(before, true) else WalkIf(s.cond.value, depth, fn, before)
  }

  function WalkLoop(s: Statement, depth: nat, fn: WalkFunc, before: seq<Visit>): Walked
    decreases s, 3
  {
    if s.loop.None? then Walked(before, true)
    else WalkNested(Control("FOR", For, s.loop.value.args), s.loop.value.body, depth, fn, before)
  }

  function WalkWith(s: Statement, depth: nat, fn: WalkFunc, before: seq<Visit>): Walked
    decreases s, 3
  {
    if s.with.None? then Walked(before, true)
    else WalkNested(WithCommand(s.with.value), s.with.value.body, depth, fn, before)
  }

  function WalkTried(s: Statement, depth: nat, fn: WalkFunc, before: seq<Visit>): Walked
    decreases s, 3
  {
    if s.try.None? then Walked(before, true) else WalkTry(s.try.value, depth, fn, before)
  }

  function WalkWait(s: Statement, depth: nat, fn: WalkFunc, before: seq<Visit>): Walked
    decreases s, 3
  {
    if s.wait.None? then Walked(before, true)
    else WalkNested(Control("WAIT", Wait, []), s.wait.value.body, depth, fn, before)
  }

  function WithCommand(w: WithStatement): Cmd {
    Control(w.command.name, With, w.command.args)
  }

  function WalkStatement(s: Statement, depth: nat, fn: WalkFunc, before: seq<Visit>): Walked
    decreases s, 4
  {
    var w0 := WalkCommand(s, depth, fn, before);
    if !w0.ok then w0 else
    var w1 := WalkCond(s, depth, fn, w0.visits);
    if !w1.ok then w1 else
    var w2 := WalkLoop(s, depth, fn, w1.visits);
    if !w2.ok then w2 else
    var w3 := WalkWith(s, depth, fn, w2.visits);
    if !w3.ok then w3 else
    var w4 := WalkTried(s, depth, fn, w3.visits);
    if !w4.ok then w4 else WalkWait(s, depth, fn, w4.visits)
  }

  function WalkRecipes(recipes: seq<Recipe>, fn: WalkFunc, before: seq<Visit>): Walked {
    if recipes == [] then Walked(before, true)
    else
      var w := WalkBlock(recipes[0].body, 0, fn, before);
      if !w.ok then w else WalkRecipes(recipes[1..], fn, w.visits)
  }

  function WalkCommands(ast: Ast, fn: WalkFunc): Walked {
    var w := WalkBlock(ast.baseRecipe, 0, fn, []);
    if !w.ok then w else
    var v := WalkRecipes(ast.targets, fn, w.visits);
    if !v.ok then v else WalkRecipes(ast.functions, fn, v.visits)
  }

  /******* The tree of commands *******/

  datatype Node = Node(cmd: Cmd, children: seq<Node>)

  function Nodes(block: Block): seq<Node>
    decreases block, 0
  {
    if block == [] then [] else StatementNodes(block[0]) + Nodes(block[1..])
  }

  function NodeOver(cmd: Cmd, body: Block): Node
    decreases body, 1
  {
    Node(cmd, Nodes(body))
  }

  function ElseIfNodes(elseIfs: seq<ElseIf>): seq<Node>
    decreases elseIfs, 0
  {
    if elseIfs == [] then []
    else [NodeOver(Control("ELSE IF", If, elseIfs[0].expression), elseIfs[0].body)] + ElseIfNodes(elseIfs[1..])
  }

  function OptionalNode(cmd: Cmd, body: OptionalBlock): seq<Node>
    decreases body, 2
  {
    if body.NoBlock? then [] else [NodeOver(cmd, body.block)]
  }

  function IfNodes(s: IfStatement): seq<Node>
    decreases s, 3
  {
    [NodeOver(Control("IF", If, s.expression), s.ifBody)] +
    (ElseIfNodes(s.elseIfs) + OptionalNode(Control("ELSE", If, []), s.elseBody))
  }

  function TryNodes(s: TryStatement): seq<Node>
    decreases s, 3
  {
    [NodeOver(Control("TRY", Try, []), s.tryBody)] +
    (OptionalNode(Control("CATCH", Try, []), s.catchBody) + OptionalNode(Control("FINALLY", Try, []), s.finallyBody))
  }

  function CommandNodes(s: Statement): seq<Node> {
    if s.command.None? then [] else [Node(Plain(s.command.value.name, s.command.value.args), [])]
  }

  function LoopNodes(s: Statement): seq<Node>
    decreases s, 3
  {
    if s.loop.None? then [] else [NodeOver(Control("FOR", For, s.loop.value.args), s.loop.value.body)]
  }

  function WithNodes(s: Statement): seq<Node>
    decreases s, 3
  {
    if s.with.None? then []
    else [NodeOver(Control(s.with.value.command.name, With, s.with.value.command.args), s.with.value.body)]
  }

  function WaitNodes(s: Statement): seq<Node>
    decreases s, 3
  {
    if s.wait.None? then [] else [NodeOver(Control("WAIT", Wait, []), s.wait.value.body)]
  }

  function CondNodes(s: Statement): seq<Node>
    decreases s, 3
  {
    if s.cond.None? then [] else IfNodes(s.cond.value)
  }

  function TriedNodes(s: Statement): seq<Node>
    decreases s, 3
  {
    if s.try.None? then [] else TryNodes(s.try.value)
  }

  function StatementNodes(s: Statement): seq<Node>
    decreases s, 4
  {
    CommandNodes(s) + (CondNodes(s) + (LoopNodes(s) + (WithNodes(s) + (TriedNodes(s) + WaitNodes(s)))))
  }

  /** Each command before those under it, which are one deeper. */
  function Preorder(nodes: seq<Node>, depth: nat): seq<Visit>
    decreases nodes
  {
    if nodes == [] then []
    else [Visit(nodes[0].cmd, depth)] + Preorder(nodes[0].children, depth + 1) + Preorder(nodes[1..], depth)
  }

  function RecipeVisits(recipes: seq<Recipe>): seq<Visit> {
    if recipes == [] then [] else Preorder(Nodes(recipes[0].body), 0) + RecipeVisits(recipes[1..])
  }

  /** All commands of the file: base recipe, targets, functions. */
  function AllVisits(ast: Ast): seq<Visit> {
    Preorder(Nodes(ast.baseRecipe), 0) + (RecipeVisits(ast.targets) + RecipeVisits(ast.functions))
  }

  lemma OneStatement(s: Statement)
    ensures Nodes([s]) == StatementNodes(s)
  {
    var rest := [s][1..];
    assert rest == [] && Nodes(rest) == [];
    assert StatementNodes(s) + [] == StatementNodes(s);
  }

  /** The statement of a plain command. */
  function CommandStatement(c: AstCommand): Statement {
    Statement(Some(c), None, None, None, None, None)
  }

  lemma CommandStatementNodes(c: AstCommand)
    ensures Nodes([CommandStatement(c)]) == [Node(ConvertCommand(c), [])]
  {
    OneStatement(CommandStatement(c));
  }

  /******* Calling in turn until an error *******/

  function CallAll(fn: WalkFunc, before: seq<Visit>, visits: seq<Visit>): Walked
    decreases |visits|
  {
    if visits == [] then Walked(before, true)
    else
      var w := Call(fn, before, visits[0].cmd, visits[0].depth);
      if !w.ok then w else CallAll(fn, w.visits, visits[1..])
  }

  lemma {:induction false} CallAppend(fn: WalkFunc, before: seq<Visit>, a: seq<Visit>, b: seq<Visit>)
    ensures var w := CallAll(fn, before, a);
            CallAll(fn, before, a + b) == if !w.ok then w else CallAll(fn, w.visits, b)
    decreases |a|
  {
    if a == [] {
      assert a + b == b;
    } else {
      assert (a + b)[0] == a[0] && (a + b)[1..] == a[1..] + b;
      CallAppend(fn, before + [a[0]], a[1..], b);
    }
  }

  lemma {:induction false} PreorderAppend(a: seq<Node>, b: seq<Node>, depth: nat)
    ensures Preorder(a + b, depth) == Preorder(a, depth) + Preorder(b, depth)
    decreases |a|
  {
    if a == [] {
      assert a + b == b;
    } else {
      assert (a + b)[0] == a[0] && (a + b)[1..] == a[1..] + b;
      PreorderAppend(a[1..], b, depth);
      var head := [Visit(a[0].cmd, depth)] + Preorder(a[0].children, depth + 1);
      assert head + (Preorder(a[1..], depth) + Preorder(b, depth)) == (head + Preorder(a[1..], depth)) + Preorder(b, depth);
    }
  }

  /** Calling for the nodes a, then for b. */
  lemma CallNodes(fn: WalkFunc, before: seq<Visit>, a: seq<Node>, b: seq<Node>, depth: nat)
    ensures var w := CallAll(fn, before, Preorder(a, depth));
            CallAll(fn, before, Preorder(a + b, depth)) == if !w.ok then w else CallAll(fn, w.visits, Preorder(b, depth))
  {
    PreorderAppend(a, b, depth);
    CallAppend(fn, before, Preorder(a, depth), Preorder(b, depth));
  }

  lemma CallNode(fn: WalkFunc, before: seq<Visit>, cmd: Cmd, children: seq<Node>, depth: nat)
    ensures var w := Call(fn, before, cmd, depth);
            CallAll(fn, before, Preorder([Node(cmd, children)], depth)) ==
              if !w.ok then w else CallAll(fn, w.visits, Preorder(children, depth + 1))
  {
    var nodes := [Node(cmd, children)];
    var rest := Preorder(children, depth + 1);
    assert nodes[1..] == [] && Preorder([], depth) == [];
    assert Preorder(nodes, depth) == [Visit(cmd, depth)] + rest;
    assert ([Visit(cmd, depth)] + rest)[1..] == rest;
  }

  /******* The walker calls for the pre-order *******/

  lemma {:induction false} WalkBlockCalls(block: Block, depth: nat, fn: WalkFunc, before: seq<Visit>)
    ensures WalkBlock(block, depth, fn, before) == CallAll(fn, before, Preorder(Nodes(block), depth))
    decreases block, 0
  {
    if block == [] {
    } else {
      WalkStatementCalls(block[0], depth, fn, before);
      CallNodes(fn, before, StatementNodes(block[0]), Nodes(block[1..]), depth);
      var w := WalkStatement(block[0], depth, fn, before);
      if w.ok {
        WalkBlockCalls(block[1..], depth, fn, w.visits);
      }
    }
  }

  lemma {:induction false} WalkNestedCalls(cmd: Cmd, body: Block, depth: nat, fn: WalkFunc, before: seq<Visit>)
    ensures WalkNested(cmd, body, depth, fn, before) == CallAll(fn, before, Preorder([NodeOver(cmd, body)], depth))
    decreases body, 1
  {
    CallNode(fn, before, cmd, Nodes(body), depth);
    var w := Call(fn, before, cmd, depth);
    WalkBlockCalls(body, depth + 1, fn, w.visits);
  }

  lemma {:induction false} WalkElseIfsCalls(elseIfs: seq<ElseIf>, depth: nat, fn: WalkFunc, before: seq<Visit>)
    ensures WalkElseIfs(elseIfs, depth, fn, before) == CallAll(fn, before, Preorder(ElseIfNodes(elseIfs), depth))
    decreases elseIfs, 0
  {
    if elseIfs == [] {
    } else {
      var first := elseIfs[0];
      var cmd := Control("ELSE IF", If, first.expression);
      WalkNestedCalls(cmd, first.body, depth, fn, before);
      CallNodes(fn, before, [NodeOver(cmd, first.body)], ElseIfNodes(elseIfs[1..]), depth);
      var w := WalkNested(cmd, first.body, depth, fn, before);
      if w.ok {
        WalkElseIfsCalls(elseIfs[1..], depth, fn, w.visits);
      }
    }
  }

  lemma {:induction false} WalkOptionalCalls(cmd: Cmd, body: OptionalBlock, depth: nat, fn: WalkFunc, before: seq<Visit>)
    ensures WalkOptional(cmd, body, depth, fn, before) == CallAll(fn, before, Preorder(OptionalNode(cmd, body), depth))
    decreases body, 2
  {
    if body.Body? {
      WalkNestedCalls(cmd, body.block, depth, fn, before);
    }
  }

  lemma {:induction false} WalkIfCalls(s: IfStatement, depth: nat, fn: WalkFunc, before: seq<Visit>)
    ensures WalkIf(s, depth, fn, before) == CallAll(fn, before, Preorder(IfNodes(s), depth))
    decreases s, 3
  {
    var cmd := Control("IF", If, s.expression);
    var elseCmd := Control("ELSE", If, []);
    var w := WalkNested(cmd, s.ifBody, depth, fn, before);
    WalkNestedCalls(cmd, s.ifBody, depth, fn, before);
    CallNodes(fn, before, [NodeOver(cmd, s.ifBody)], ElseIfNodes(s.elseIfs) + OptionalNode(elseCmd, s.elseBody), depth);
    if w.ok {
      WalkElseIfsCalls(s.elseIfs, depth, fn, w.visits);
      var v := WalkElseIfs(s.elseIfs, depth, fn, w.visits);
      CallNodes(fn, w.visits, ElseIfNodes(s.elseIfs), OptionalNode(elseCmd, s.elseBody), depth);
      WalkOptionalCalls(elseCmd, s.elseBody, depth, fn, v.visits);
    }
  }

  lemma {:induction false} WalkTryCalls(s: TryStatement, depth: nat, fn: WalkFunc, before: seq<Visit>)
    ensures WalkTry(s, depth, fn, before) == CallAll(fn, before, Preorder(TryNodes(s), depth))
    decreases s, 3
  {
    var cmd := Control("TRY", Try, []);
    var catchCmd := Control("CATCH", Try, []);
    var finallyCmd := Control("FINALLY", Try, []);
    var w := WalkNested(cmd, s.tryBody, depth, fn, before);
    WalkNestedCalls(cmd, s.tryBody, depth, fn, before);
    CallNodes(fn, before, [NodeOver(cmd, s.tryBody)], OptionalNode(catchCmd, s.catchBody) + OptionalNode(finallyCmd, s.finallyBody), depth);
    if w.ok {
      WalkOptionalCalls(catchCmd, s.catchBody, depth, fn, w.visits);
      var v := WalkOptional(catchCmd, s.catchBody, depth, fn, w.visits);
      CallNodes(fn, w.visits, OptionalNode(catchCmd, s.catchBody), OptionalNode(finallyCmd, s.finallyBody), depth);
      WalkOptionalCalls(finallyCmd, s.finallyBody, depth, fn, v.visits);
    }
  }

  lemma WalkCommandCalls(s: Statement, depth: nat, fn: WalkFunc, before: seq<Visit>)
    ensures WalkCommand(s, depth, fn, before) == CallAll(fn, before, Preorder(CommandNodes(s), depth))
  {
    if s.command.Some? {
      CallNode(fn, before, ConvertCommand(s.command.value), [], depth);
    }
  }

  lemma {:induction false} WalkCondCalls(s: Statement, depth: nat, fn: WalkFunc, before: seq<Visit>)
    ensures WalkCond(s, depth, fn, before) == CallAll(fn, before, Preorder(CondNodes(s), depth))
    decreases s, 3
  {
    if s.cond.Some? {
      WalkIfCalls(s.cond.value, depth, fn, before);
    }
  }

  lemma {:induction false} WalkLoopCalls(s: Statement, depth: nat, fn: WalkFunc, before: seq<Visit>)
    ensures WalkLoop(s, depth, fn, before) == CallAll(fn, before, Preorder(LoopNodes(s), depth))
    decreases s, 3
  {
    if s.loop.Some? {
      WalkNestedCalls(Control("FOR", For, s.loop.value.args), s.loop.value.body, depth, fn, before);
    }
  }

  lemma {:induction false} WalkWithCalls(s: Statement, depth: nat, fn: WalkFunc, before: seq<Visit>)
    ensures WalkWith(s, depth, fn, before) == CallAll(fn, before, Preorder(WithNodes(s), depth))
    decreases s, 3
  {
    if s.with.Some? {
      WalkNestedCalls(WithCommand(s.with.value), s.with.value.body, depth, fn, before);
    }
  }

  lemma {:induction false} WalkTriedCalls(s: Statement, depth: nat, fn: WalkFunc, before: seq<Visit>)
    ensures WalkTried(s, depth, fn, before) == CallAll(fn, before, Preorder(TriedNodes(s), depth))
    decreases s, 3
  {
    if s.try.Some? {
      WalkTryCalls(s.try.value, depth, fn, before);
    }
  }

  lemma {:induction false} WalkWaitCalls(s: Statement, depth: nat, fn: WalkFunc, before: seq<Visit>)
    ensures WalkWait(s, depth, fn, before) == CallAll(fn, before, Preorder(WaitNodes(s), depth))
    decreases s, 3
  {
    if s.wait.Some? {
      WalkNestedCalls(Control("WAIT", Wait, []), s.wait.value.body, depth, fn, before);
    }
  }

  lemma {:induction false} WalkStatementCalls(s: Statement, depth: nat, fn: WalkFunc, before: seq<Visit>)
    ensures WalkStatement(s, depth, fn, before) == CallAll(fn, before, Preorder(StatementNodes(s), depth))
    decreases s, 4
  {
    var n5 := WaitNodes(s);
    var n4 := TriedNodes(s) + n5;
    var n3 := WithNodes(s) + n4;
    var n2 := LoopNodes(s) + n3;
    var n1 := CondNodes(s) + n2;
    var w0 := WalkCommand(s, depth, fn, before);
    WalkCommandCalls(s, depth, fn, before);
    CallNodes(fn, before, CommandNodes(s), n1, depth);
    if w0.ok {
      var w1 := WalkCond(s, depth, fn, w0.visits);
      WalkCondCalls(s, depth, fn, w0.visits);
      CallNodes(fn, w0.visits, CondNodes(s), n2, depth);
      if w1.ok {
        var w2 := WalkLoop(s, depth, fn, w1.visits);
        WalkLoopCalls(s, depth, fn, w1.visits);
        CallNodes(fn, w1.visits, LoopNodes(s), n3, depth);
        if w2.ok {
          var w3 := WalkWith(s, depth, fn, w2.visits);
          WalkWithCalls(s, depth, fn, w2.visits);
          CallNodes(fn, w2.visits, WithNodes(s), n4, depth);
          if w3.ok {
            var w4 := WalkTried(s, depth, fn, w3.visits);
            WalkTriedCalls(s, depth, fn, w3.visits);
            CallNodes(fn, w3.visits, TriedNodes(s), n5, depth);
            WalkWaitCalls(s, depth, fn, w4.visits);
          }
        }
      }
    }
  }

  lemma {:induction false} WalkRecipesCalls(recipes: seq<Recipe>, fn: WalkFunc, before: seq<Visit>)
    ensures WalkRecipes(recipes, fn, before) == CallAll(fn, before, RecipeVisits(recipes))
  {
    if recipes == [] {
    } else {
      WalkBlockCalls(recipes[0].body, 0, fn, before);
      CallAppend(fn, before, Preorder(Nodes(recipes[0].body), 0), RecipeVisits(recipes[1..]));
      var w := WalkBlock(recipes[0].body, 0, fn, before);
      WalkRecipesCalls(recipes[1..], fn, w.visits);
    }
  }

  /** The walk calls for every command of the pre-order in turn, and stops at the first error. */
  lemma WalkCallsPreorder(ast: Ast, fn: WalkFunc)
    ensures WalkCommands(ast, fn) == CallAll(fn, [], AllVisits(ast))
  {
    var base := Preorder(Nodes(ast.baseRecipe), 0);
    WalkBlockCalls(ast.baseRecipe, 0, fn, []);
    CallAppend(fn, [], base, RecipeVisits(ast.targets) + RecipeVisits(ast.functions));
    var w := WalkBlock(ast.baseRecipe, 0, fn, []);
    WalkRecipesCalls(ast.targets, fn, w.visits);
    CallAppend(fn, w.visits, RecipeVisits(ast.targets), RecipeVisits(ast.functions));
    var v := WalkRecipes(ast.targets, fn, w.visits);
    WalkRecipesCalls(ast.functions, fn, v.visits);
  }

  /** The call for visit k, made after those before it, answers without an error. */
  predicate Succeeds(fn: WalkFunc, visits: seq<Visit>, k: nat)
    requires k < |visits|
  {
    fn(visits[..k], visits[k])
  }

  /** After calls for the first n visits: the first error is the last of them, or there was none and all are done. */
  predicate Outcome(fn: WalkFunc, visits: seq<Visit>, from: nat, n: nat, ok: bool) {
    && n <= |visits|
    && (forall k :: from <= k < (if ok then n else n - 1) ==> Succeeds(fn, visits, k))
    && (if ok then n == |visits| else from < n && !Succeeds(fn, visits, n - 1))
  }

  lemma {:induction false} CallAllFrom(fn: WalkFunc, visits: seq<Visit>, from: nat) returns (n: nat)
    requires from <= |visits|
    ensures var w := CallAll(fn, visits[..from], visits[from..]);
            Outcome(fn, visits, from, n, w.ok) && w.visits == visits[..n]
    decreases |visits| - from
  {
    var rest := visits[from..];
    if from == |visits| {
      n := from;
    } else {
      assert rest[1..] == visits[from + 1..];
      assert visits[..from] + [rest[0]] == visits[..from + 1];
      assert Visit(rest[0].cmd, rest[0].depth) == visits[from];
      if Succeeds(fn, visits, from) {
        n := CallAllFrom(fn, visits, from + 1);
      } else {
        n := from + 1;
      }
    }
  }

  /** The calls made are a prefix of the pre-order: all of it when no call fails, and otherwise the shortest one ending in
      an error. */
  lemma WalkStopsAtFirstError(ast: Ast, fn: WalkFunc)
    ensures var w := WalkCommands(ast, fn);
            Outcome(fn, AllVisits(ast), 0, |w.visits|, w.ok) && w.visits == AllVisits(ast)[..|w.visits|]
  {
    var all := AllVisits(ast);
    WalkCallsPreorder(ast, fn);
    assert all[..0] == [] && all[0..] == all;
    var n := CallAllFrom(fn, all, 0);
  }
}
