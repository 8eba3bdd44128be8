/** Flattening a recipe into commands (earthly/earthfile/parser.go), against the walk of the same recipe. */
module EarthfileConvert {
  import opened EarthfileAst
  import opened EarthfileWalk
  import opened Lists
  import opened Optional

  /******* What the conversion gives *******/

  function Converted(block: Block): seq<Cmd>
    decreases block, 0
  {
    if block == [] then [] else ConvertedStatement(block[0]) + Converted(block[1..])
  }

  function ConvertedCommand(s: Statement): seq<Cmd> {
    if s.command.None? then [] else [ConvertCommand(s.command.value)]
  }

  function ConvertedWith(s: Statement): seq<Cmd>
    decreases s, 2
  {
    if s.with.None? then [] else [Control("WITH", With, [])] + Converted(s.with.value.body)
  }

  function ConvertedElseIfs(elseIfs: seq<ElseIf>): seq<Cmd>
    decreases elseIfs, 0
  {
    if elseIfs == [] then []
    else [Control("ELSE IF", If, elseIfs[0].expression)] + Converted(elseIfs[0].body) + ConvertedElseIfs(elseIfs[1..])
  }

  function ConvertedElse(body: OptionalBlock): seq<Cmd>
    decreases body, 1
  {
    if body.NoBlock? then [] else [Control("ELSE", If, [])] + Converted(body.block)
  }

  function ConvertedIf(s: Statement): seq<Cmd>
    decreases s, 2
  {
    if s.cond.None? then []
    else
      var c := s.cond.value;
      [Control("IF", If, c.expression)] + Converted(c.ifBody) + ConvertedElseIfs(c.elseIfs) + ConvertedElse(c.elseBody)
  }

  function ConvertedFor(s: Statement): seq<Cmd>
    decreases s, 2
  {
    if s.loop.None? then [] else [Control("FOR", For, s.loop.value.args)] + Converted(s.loop.value.body)
  }

  /** A WAIT becomes its body and a closing END; a TRY becomes nothing at all. */
  function ConvertedWait(s: Statement): seq<Cmd>
    decreases s, 2
  {
    if s.wait.None? then [] else Converted(s.wait.value.body) + [Control("END", Wait, [])]
  }

  function ConvertedStatement(s: Statement): seq<Cmd>
    decreases s, 3
  {
    ConvertedCommand(s) + ConvertedWith(s) + ConvertedIf(s) + ConvertedFor(s) + ConvertedWait(s)
  }

  /******* The conversion *******/

  method ConvertBlock(block: Block) returns (commands: seq<Cmd>)
    ensures commands == Converted(block)
    decreases block, 0
  {
    commands := [];
    for i := 0 to |block|
      invariant commands + Converted(block[i..]) == Converted(block)
    {
      var cmds := ConvertStatement(block[i]);
      assert block[i..][1..] == block[i + 1..];
      Regroup(commands, cmds, Converted(block[i + 1..]));
      commands := commands + cmds;
    }
    assert block[|block|..] == [];
  }

  method ConvertStatement(s: Statement) returns (commands: seq<Cmd>)
    ensures commands == ConvertedStatement(s)
    decreases s, 3
  {
    commands := [];
    if s.command.Some? {
      commands := commands + [ConvertCommand(s.command.value)];
    }
    if s.with.Some? {
      var nested := ConvertBlock(s.with.value.body);
      Regroup(commands, [Control("WITH", With, [])], nested);
      commands := commands + [Control("WITH", With, [])] + nested;
    }
    assert commands == ConvertedCommand(s) + ConvertedWith(s);
    var cond := ConvertIf(s);
    commands := commands + cond;
    if s.loop.Some? {
      var nested := ConvertBlock(s.loop.value.body);
      Regroup(commands, [Control("FOR", For, s.loop.value.args)], nested);
      commands := commands + [Control("FOR", For, s.loop.value.args)] + nested;
    }
    assert commands == ConvertedCommand(s) + ConvertedWith(s) + ConvertedIf(s) + ConvertedFor(s);
    if s.wait.Some? {
      var nested := ConvertBlock(s.wait.value.body);
      Regroup(commands, nested, [Control("END", Wait, [])]);
      commands := commands + nested + [Control("END", Wait, [])];
    }
  }

  method ConvertIf(s: Statement) returns (commands: seq<Cmd>)
    ensures commands == ConvertedIf(s)
    decreases s, 2
  {
    if s.cond.None? {
      return [];
    }
    var c := s.cond.value;
    var nested := ConvertBlock(c.ifBody);
    var start := [Control("IF", If, c.expression)] + nested;
    commands := start;
    for i := 0 to |c.elseIfs|
      invariant commands + ConvertedElseIfs(c.elseIfs[i..]) == start + ConvertedElseIfs(c.elseIfs)
    {
      var elseIf := Control("ELSE IF", If, c.elseIfs[i].expression);
      nested := ConvertBlock(c.elseIfs[i].body);
      assert c.elseIfs[i..][1..] == c.elseIfs[i + 1..];
      Regroup(commands, [elseIf], nested);
      Regroup(commands, [elseIf] + nested, ConvertedElseIfs(c.elseIfs[i + 1..]));
      commands := commands + [elseIf] + nested;
    }
    assert c.elseIfs[|c.elseIfs|..] == [];
    if c.elseBody.Body? {
      nested := ConvertBlock(c.elseBody.block);
      Regroup(commands, [Control("ELSE", If, [])], nested);
      commands := commands + [Control("ELSE", If, [])] + nested;
    }
  }

  /******* Plain commands, converted and walked *******/

  /** The commands that stand for themselves, and not for a control statement. */
  function Plains(commands: seq<Cmd>): seq<Cmd> {
    if commands == [] then []
    else (if commands[0].Plain? then [commands[0]] else []) + Plains(commands[1..])
  }

  function VisitedCommands(visits: seq<Visit>): seq<Cmd> {
    if visits == [] then [] else [visits[0].cmd] + VisitedCommands(visits[1..])
  }

  /** The plain commands under the nodes, each before those under it. */
  function NodePlains(nodes: seq<Node>): seq<Cmd> {
    if nodes == [] then []
    else (if nodes[0].cmd.Plain? then [nodes[0].cmd] else []) + NodePlains(nodes[0].children) + NodePlains(nodes[1..])
  }

  lemma {:induction false} PlainsAppend(a: seq<Cmd>, b: seq<Cmd>)
    ensures Plains(a + b) == Plains(a) + Plains(b)
    decreases |a|
  {
    if a == [] {
      assert a + b == b;
    } else {
      assert (a + b)[0] == a[0] && (a + b)[1..] == a[1..] + b;
      PlainsAppend(a[1..], b);
    }
  }

  lemma {:induction false} VisitedAppend(a: seq<Visit>, b: seq<Visit>)
    ensures VisitedCommands(a + b) == VisitedCommands(a) + VisitedCommands(b)
    decreases |a|
  {
    if a == [] {
      assert a + b == b;
    } else {
      assert (a + b)[0] == a[0] && (a + b)[1..] == a[1..] + b;
      VisitedAppend(a[1..], b);
    }
  }

  lemma {:induction false} NodePlainsAppend(a: seq<Node>, b: seq<Node>)
    ensures NodePlains(a + b) == NodePlains(a) + NodePlains(b)
    decreases |a|
  {
    if a == [] {
      assert a + b == b;
    } else {
      assert (a + b)[0] == a[0] && (a + b)[1..] == a[1..] + b;
      NodePlainsAppend(a[1..], b);
      var head := (if a[0].cmd.Plain? then [a[0].cmd] else []) + NodePlains(a[0].children);
      Regroup(head, NodePlains(a[1..]), NodePlains(b));
    }
  }

  /** These are the plain commands of the walk. */
  lemma {:induction false} WalkedPlains(nodes: seq<Node>, depth: nat)
    ensures Plains(VisitedCommands(Preorder(nodes, depth))) == NodePlains(nodes)
    decreases nodes
  {
    if nodes != [] {
      var first := [Visit(nodes[0].cmd, depth)];
      var below, rest := Preorder(nodes[0].children, depth + 1), Preorder(nodes[1..], depth);
      WalkedPlains(nodes[0].children, depth + 1);
      WalkedPlains(nodes[1..], depth);
      VisitedAppend(first + below, rest);
      VisitedAppend(first, below);
      PlainsAppend(VisitedCommands(first + below), VisitedCommands(rest));
      PlainsAppend(VisitedCommands(first), VisitedCommands(below));
      assert first[1..] == [];
      assert VisitedCommands(first) == [nodes[0].cmd];
      assert [nodes[0].cmd][1..] == [];
    }
  }

  lemma NestedPlains(cmd: Cmd, body: seq<Cmd>)
    requires cmd.Control?
    ensures Plains([cmd] + body) == Plains(body)
  {
    assert ([cmd] + body)[1..] == body;
  }

  lemma NodeOverPlains(cmd: Cmd, body: Block)
    requires cmd.Control?
    ensures NodePlains([NodeOver(cmd, body)]) == NodePlains(Nodes(body))
  {
    assert [NodeOver(cmd, body)][1..] == [];
  }

  /******* How many plain commands are under TRY statements *******/

  function Lost(block: Block): nat
    decreases block, 0
  {
    if block == [] then 0 else LostInStatement(block[0]) + Lost(block[1..])
  }

  function LostInElseIfs(elseIfs: seq<ElseIf>): nat
    decreases elseIfs, 0
  {
    if elseIfs == [] then 0 else Lost(elseIfs[0].body) + LostInElseIfs(elseIfs[1..])
  }

  function LostInOptional(body: OptionalBlock): nat
    decreases body, 1
  {
    if body.NoBlock? then 0 else Lost(body.block)
  }

  function LostInIf(s: Statement): nat
    decreases s, 2
  {
    if s.cond.None? then 0
    else Lost(s.cond.value.ifBody) + LostInElseIfs(s.cond.value.elseIfs) + LostInOptional(s.cond.value.elseBody)
  }

  /** A whole TRY statement is lost; under the others, what is lost in their bodies. */
  function LostInStatement(s: Statement): nat
    decreases s, 3
  {
    LostInIf(s)
    + (if s.loop.None? then 0 else Lost(s.loop.value.body))
    + (if s.with.None? then 0 else Lost(s.with.value.body))
    + |NodePlains(TriedNodes(s))|
    + (if s.wait.None? then 0 else Lost(s.wait.value.body))
  }

  /** No statement has a WITH beside an IF or a FOR; the parser sets one field of each statement. */
  predicate Ordered(block: Block)
    decreases block, 0
  {
    forall i :: 0 <= i < |block| ==> OrderedStatement(block[i])
  }

  predicate OrderedStatement(s: Statement)
    decreases s, 0
  {
    && (s.with.Some? ==> s.cond.None? && s.loop.None? && Ordered(s.with.value.body))
    && (s.cond.Some? ==> Ordered(s.cond.value.ifBody)
                         && (forall i :: 0 <= i < |s.cond.value.elseIfs| ==> Ordered(s.cond.value.elseIfs[i].body))
                         && (s.cond.value.elseBody.Body? ==> Ordered(s.cond.value.elseBody.block)))
    && (s.loop.Some? ==> Ordered(s.loop.value.body))
    && (s.wait.Some? ==> Ordered(s.wait.value.body))
  }

  /******* They agree *******/

  /** What is kept, what was walked, and how many were lost on the way. */
  predicate Agree(kept: seq<Cmd>, walked: seq<Cmd>, lost: nat) {
    |walked| == |kept| + lost && (lost == 0 ==> kept == walked)
  }

  lemma AgreeAppend(k: seq<Cmd>, w: seq<Cmd>, l: nat, k': seq<Cmd>, w': seq<Cmd>, l': nat)
    requires Agree(k, w, l) && Agree(k', w', l')
    ensures Agree(k + k', w + w', l + l')
  {
  }

  lemma {:induction false} BlockAgrees(block: Block)
    requires Ordered(block)
    ensures Agree(Plains(Converted(block)), NodePlains(Nodes(block)), Lost(block))
    decreases block, 0
  {
    if block != [] {
      var first, rest := block[0], block[1..];
      StatementAgrees(first);
      BlockAgrees(rest);
      PlainsAppend(ConvertedStatement(first), Converted(rest));
      NodePlainsAppend(StatementNodes(first), Nodes(rest));
      AgreeAppend(Plains(ConvertedStatement(first)), NodePlains(StatementNodes(first)), LostInStatement(first),
                  Plains(Converted(rest)), NodePlains(Nodes(rest)), Lost(rest));
    }
  }

  lemma {:induction false} NestedAgrees(cmd: Cmd, node: Cmd, body: Block)
    requires cmd.Control? && node.Control? && Ordered(body)
    ensures Agree(Plains([cmd] + Converted(body)), NodePlains([NodeOver(node, body)]), Lost(body))
    decreases body, 1
  {
    BlockAgrees(body);
    NestedPlains(cmd, Converted(body));
    NodeOverPlains(node, body);
  }

  lemma {:induction false} ElseIfsAgree(elseIfs: seq<ElseIf>)
    requires forall i :: 0 <= i < |elseIfs| ==> Ordered(elseIfs[i].body)
    ensures Agree(Plains(ConvertedElseIfs(elseIfs)), NodePlains(ElseIfNodes(elseIfs)), LostInElseIfs(elseIfs))
    decreases elseIfs, 0
  {
    if elseIfs != [] {
      var first, rest := elseIfs[0], elseIfs[1..];
      var cmd := Control("ELSE IF", If, first.expression);
      NestedAgrees(cmd, cmd, first.body);
      ElseIfsAgree(rest);
      PlainsAppend([cmd] + Converted(first.body), ConvertedElseIfs(rest));
      NodePlainsAppend([NodeOver(cmd, first.body)], ElseIfNodes(rest));
      AgreeAppend(Plains([cmd] + Converted(first.body)), NodePlains([NodeOver(cmd, first.body)]), Lost(first.body),
                  Plains(ConvertedElseIfs(rest)), NodePlains(ElseIfNodes(rest)), LostInElseIfs(rest));
    }
  }

  lemma {:induction false} ElseAgrees(body: OptionalBlock)
    requires body.Body? ==> Ordered(body.block)
    ensures Agree(Plains(ConvertedElse(body)), NodePlains(OptionalNode(Control("ELSE", If, []), body)), LostInOptional(body))
    decreases body, 2
  {
    if body.Body? {
      NestedAgrees(Control("ELSE", If, []), Control("ELSE", If, []), body.block);
    }
  }

  lemma {:induction false} IfAgrees(s: Statement)
    requires OrderedStatement(s)
    ensures Agree(Plains(ConvertedIf(s)), NodePlains(CondNodes(s)), LostInIf(s))
    decreases s, 2
  {
    if s.cond.Some? {
      var c := s.cond.value;
      var cmd, elseCmd := Control("IF", If, c.expression), Control("ELSE", If, []);
      NestedAgrees(cmd, cmd, c.ifBody);
      ElseIfsAgree(c.elseIfs);
      ElseAgrees(c.elseBody);
      var start := [cmd] + Converted(c.ifBody);
      PlainsAppend(start + ConvertedElseIfs(c.elseIfs), ConvertedElse(c.elseBody));
      PlainsAppend(start, ConvertedElseIfs(c.elseIfs));
      var node, elses := [NodeOver(cmd, c.ifBody)], OptionalNode(elseCmd, c.elseBody);
      NodePlainsAppend(node, ElseIfNodes(c.elseIfs) + elses);
      NodePlainsAppend(ElseIfNodes(c.elseIfs), elses);
      Regroup(NodePlains(node), NodePlains(ElseIfNodes(c.elseIfs)), NodePlains(elses));
      AgreeAppend(Plains(start), NodePlains(node), Lost(c.ifBody),
                  Plains(ConvertedElseIfs(c.elseIfs)), NodePlains(ElseIfNodes(c.elseIfs)), LostInElseIfs(c.elseIfs));
      AgreeAppend(Plains(start) + Plains(ConvertedElseIfs(c.elseIfs)), NodePlains(node) + NodePlains(ElseIfNodes(c.elseIfs)),
                  Lost(c.ifBody) + LostInElseIfs(c.elseIfs),
                  Plains(ConvertedElse(c.elseBody)), NodePlains(elses), LostInOptional(c.elseBody));
    }
  }

  lemma {:induction false} ForAgrees(s: Statement)
    requires OrderedStatement(s)
    ensures Agree(Plains(ConvertedFor(s)), NodePlains(LoopNodes(s)), if s.loop.None? then 0 else Lost(s.loop.value.body))
    decreases s, 2
  {
    if s.loop.Some? {
      var cmd := Control("FOR", For, s.loop.value.args);
      NestedAgrees(cmd, cmd, s.loop.value.body);
    }
  }

  lemma {:induction false} WithAgrees(s: Statement)
    requires OrderedStatement(s)
    ensures Agree(Plains(ConvertedWith(s)), NodePlains(WithNodes(s)), if s.with.None? then 0 else Lost(s.with.value.body))
    decreases s, 2
  {
    if s.with.Some? {
      NestedAgrees(Control("WITH", With, []), WithCommand(s.with.value), s.with.value.body);
    }
  }

  lemma {:induction false} WaitAgrees(s: Statement)
    requires OrderedStatement(s)
    ensures Agree(Plains(ConvertedWait(s)), NodePlains(WaitNodes(s)), if s.wait.None? then 0 else Lost(s.wait.value.body))
    decreases s, 2
  {
    if s.wait.Some? {
      var body, last := s.wait.value.body, [Control("END", Wait, [])];
      BlockAgrees(body);
      PlainsAppend(Converted(body), last);
      assert last[1..] == [];
      NodeOverPlains(Control("WAIT", Wait, []), body);
    }
  }

  lemma CommandAgrees(s: Statement)
    ensures Agree(Plains(ConvertedCommand(s)), NodePlains(CommandNodes(s)), 0)
  {
    if s.command.Some? {
      var cmd := ConvertCommand(s.command.value);
      assert [cmd][1..] == [] && [Node(cmd, [])][1..] == [];
    }
  }

  lemma ConvertedParts(s: Statement)
    ensures Plains(ConvertedStatement(s)) == Plains(ConvertedCommand(s)) + Plains(ConvertedWith(s)) + Plains(ConvertedIf(s))
                                             + Plains(ConvertedFor(s)) + Plains(ConvertedWait(s))
  {
    PlainsAppend(ConvertedCommand(s) + ConvertedWith(s) + ConvertedIf(s) + ConvertedFor(s), ConvertedWait(s));
    PlainsAppend(ConvertedCommand(s) + ConvertedWith(s) + ConvertedIf(s), ConvertedFor(s));
    PlainsAppend(ConvertedCommand(s) + ConvertedWith(s), ConvertedIf(s));
    PlainsAppend(ConvertedCommand(s), ConvertedWith(s));
  }

  lemma WalkedParts(s: Statement)
    ensures NodePlains(StatementNodes(s)) ==
            NodePlains(CommandNodes(s)) + (NodePlains(CondNodes(s)) + (NodePlains(LoopNodes(s)) + (NodePlains(WithNodes(s))
            + (NodePlains(TriedNodes(s)) + NodePlains(WaitNodes(s))))))
  {
    var n5 := WaitNodes(s);
    var n4 := TriedNodes(s) + n5;
    var n3 := WithNodes(s) + n4;
    var n2 := LoopNodes(s) + n3;
    var n1 := CondNodes(s) + n2;
    NodePlainsAppend(CommandNodes(s), n1);
    NodePlainsAppend(CondNodes(s), n2);
    NodePlainsAppend(LoopNodes(s), n3);
    NodePlainsAppend(WithNodes(s), n4);
    NodePlainsAppend(TriedNodes(s), n5);
  }

  /** The parts of a statement in the two orders; only a WITH changes its place, and then those it passes are empty. */
  lemma PartsAgree(kc: seq<Cmd>, kw: seq<Cmd>, ki: seq<Cmd>, kf: seq<Cmd>, kt: seq<Cmd>,
                   wc: seq<Cmd>, ww: seq<Cmd>, wi: seq<Cmd>, wf: seq<Cmd>, wy: seq<Cmd>, wt: seq<Cmd>,
                   lw: nat, li: nat, lf: nat, lt: nat)
    requires Agree(kc, wc, 0) && Agree(kw, ww, lw) && Agree(ki, wi, li) && Agree(kf, wf, lf) && Agree(kt, wt, lt)
    requires ww == [] || (wi == [] && wf == [])
    ensures Agree(kc + kw + ki + kf + kt, wc + (wi + (wf + (ww + (wy + wt)))), li + lf + lw + |wy| + lt)
  {
  }

  lemma {:induction false} StatementAgrees(s: Statement)
    requires OrderedStatement(s)
    ensures Agree(Plains(ConvertedStatement(s)), NodePlains(StatementNodes(s)), LostInStatement(s))
    decreases s, 3
  {
    CommandAgrees(s);
    WithAgrees(s);
    IfAgrees(s);
    ForAgrees(s);
    WaitAgrees(s);
    ConvertedParts(s);
    WalkedParts(s);
    PartsAgree(Plains(ConvertedCommand(s)), Plains(ConvertedWith(s)), Plains(ConvertedIf(s)), Plains(ConvertedFor(s)), Plains(ConvertedWait(s)),
               NodePlains(CommandNodes(s)), NodePlains(WithNodes(s)), NodePlains(CondNodes(s)), NodePlains(LoopNodes(s)),
               NodePlains(TriedNodes(s)), NodePlains(WaitNodes(s)),
               if s.with.None? then 0 else Lost(s.with.value.body), LostInIf(s),
               if s.loop.None? then 0 else Lost(s.loop.value.body), if s.wait.None? then 0 else Lost(s.wait.value.body));
  }

  /** A conversion keeps the plain commands of the walk, in its order, exactly when no plain command is under a TRY. */
  lemma ConversionKeepsPlains(block: Block, depth: nat)
    requires Ordered(block)
    ensures Plains(Converted(block)) == Plains(VisitedCommands(Preorder(Nodes(block), depth))) <==> Lost(block) == 0
  {
    BlockAgrees(block);
    WalkedPlains(Nodes(block), depth);
  }

  function TryOf(c: AstCommand): Statement {
    Statement(None, None, None, Some(TryStatement([CommandStatement(c)], NoBlock, NoBlock)), None, None)
  }

  /** A block of one TRY around one command: the walk meets the command, the conversion gives nothing. */
  lemma TryLosesItsCommands(c: AstCommand)
    ensures var block := [TryOf(c)];
            && Ordered(block) && Lost(block) == 1 && Converted(block) == []
            && Plains(VisitedCommands(Preorder(Nodes(block), 0))) == [ConvertCommand(c)]
  {
    var s := TryOf(c);
    OneStatement(s);
    TryNodesOf(c);
    WalkedPlains(Nodes([s]), 0);
    OneTry(s);
  }

  lemma OneTry(s: Statement)
    requires s.command.None? && s.cond.None? && s.loop.None? && s.with.None? && s.wait.None?
    ensures Ordered([s]) && Converted([s]) == [] && Lost([s]) == |NodePlains(TriedNodes(s))|
    ensures StatementNodes(s) == TriedNodes(s)
  {
    var rest := [s][1..];
    assert rest == [] && Lost(rest) == 0 && Converted(rest) == [];
    assert ConvertedStatement(s) == [];
  }

  lemma TryNodesOf(c: AstCommand)
    ensures NodePlains(TriedNodes(TryOf(c))) == [ConvertCommand(c)]
  {
    var body := [CommandStatement(c)];
    CommandStatementNodes(c);
    NodeOverPlains(Control("TRY", Try, []), body);
    var inner := [Node(ConvertCommand(c), [])];
    assert inner[1..] == [] && NodePlains(inner) == [ConvertCommand(c)];
    BareTryNodes(TryStatement(body, NoBlock, NoBlock));
  }

  lemma BareTryNodes(t: TryStatement)
    requires t.catchBody.NoBlock? && t.finallyBody.NoBlock?
    ensures TryNodes(t) == [NodeOver(Control("TRY", Try, []), t.tryBody)]
  {
    var cmd := Control("TRY", Try, []);
    assert OptionalNode(Control("CATCH", Try, []), t.catchBody) + OptionalNode(Control("FINALLY", Try, []), t.finallyBody) == [];
    assert [NodeOver(cmd, t.tryBody)] + [] == [NodeOver(cmd, t.tryBody)];
  }
}
