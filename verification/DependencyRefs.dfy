/** The references that commands of an Earthfile make to other targets, and the keys that tell them apart. */
module DependencyRefs {
  import opened EarthfileAst
  import opened EarthfileWalk
  import opened Lists
  import opened Text

  datatype Dependency = Dependency(target: string, source: string)

  /******* Classifying references *******/

  predicate IsTargetReference(s: string)
    ensures IsTargetReference(s) <==> '+' in s
  {
    CharIndex(s, '+');
    Contains(s, "+")
  }

  /** The part after the first plus sign holds a slash. */
  predicate IsTargetWithArtifact(s: string) {
    var plus := Index(s, "+");
    plus != -1 && Contains(s[plus + 1..], "/")
  }

  function ExtractTargetFromArtifact(s: string): string {
    var plus := Index(s, "+");
    if plus == -1 then ""
    else
      var slash := Index(s[plus..], "/");
      if slash > 0 then s[..plus + slash] else ""
  }

  /** An artifact path reads earthfile, plus, name, slash, path: no plus in the first part, no slash in the name. */
  ghost predicate ArtifactOf(s: string, earthfile: string, name: string, path: string) {
    '+' !in earthfile && '/' !in name && s == earthfile + "+" + name + "/" + path
  }

  lemma CharIndex(s: string, c: char)
    ensures var i := Index(s, [c]);
            && (i == -1 ==> c !in s)
            && (i != -1 ==> 0 <= i < |s| && s[i] == c && c !in s[..i] && forall k :: 0 <= k < i ==> s[k] != c)
  {
    var i := Index(s, [c]);
    forall k | 0 <= k < |s| && s[k] == c
      ensures OccursAt(s, [c], k)
    {
      assert s[k..k + 1] == [c];
    }
    if i != -1 {
      assert s[i..i + 1][0] == c;
    }
  }

  lemma FirstAt(s: string, a: string, c: char, b: string)
    requires s == a + [c] + b && c !in a
    ensures Index(s, [c]) == |a|
  {
    CharIndex(s, c);
    assert s[|a|] == c;
    assert forall k :: 0 <= k < |a| ==> s[k] == a[k] && a[k] in a;
  }

  lemma ArtifactIsExtracted(s: string, earthfile: string, name: string, path: string)
    requires ArtifactOf(s, earthfile, name, path)
    ensures IsTargetWithArtifact(s)
    ensures ExtractTargetFromArtifact(s) == earthfile + "+" + name
  {
    var plus := |earthfile|;
    assert s == earthfile + "+" + (name + "/" + path);
    FirstAt(s, earthfile, '+', name + "/" + path);
    assert s[plus + 1..] == name + "/" + path;
    FirstAt(s[plus + 1..], name, '/', path);
    assert s[plus..] == ("+" + name) + "/" + path;
    FirstAt(s[plus..], "+" + name, '/', path);
    assert s[..plus + (1 + |name|)] == earthfile + "+" + name;
  }

  lemma ExtractGivesArtifact(s: string) returns (earthfile: string, name: string, path: string)
    requires IsTargetWithArtifact(s)
    ensures ArtifactOf(s, earthfile, name, path)
    ensures ExtractTargetFromArtifact(s) == earthfile + "+" + name
  {
    var plus := Index(s, "+");
    CharIndex(s, '+');
    var rest := s[plus + 1..];
    var slash := Index(rest, "/");
    CharIndex(rest, '/');
    earthfile, name, path := s[..plus], rest[..slash], rest[slash + 1..];
    assert rest == name + "/" + path;
    assert s == earthfile + "+" + rest;
    assert earthfile + "+" + (name + "/" + path) == earthfile + "+" + name + "/" + path;
    ArtifactIsExtracted(s, earthfile, name, path);
  }

  lemma NothingExtracted(s: string)
    requires !IsTargetWithArtifact(s)
    ensures ExtractTargetFromArtifact(s) == ""
  {
    var plus := Index(s, "+");
    CharIndex(s, '+');
    if plus != -1 {
      CharIndex(s[plus..], '/');
      CharIndex(s[plus + 1..], '/');
      assert s[plus..] == [s[plus]] + s[plus + 1..];
    }
  }

  /** Both tests on an argument agree, and they pick out the target of an artifact path. */
  lemma ExtractExactly(s: string, target: string)
    ensures IsTargetWithArtifact(s) <==> ExtractTargetFromArtifact(s) != ""
    ensures IsTargetWithArtifact(s) && ExtractTargetFromArtifact(s) == target <==>
            exists earthfile, name, path :: ArtifactOf(s, earthfile, name, path) && target == earthfile + "+" + name
  {
    if IsTargetWithArtifact(s) {
      var earthfile, name, path := ExtractGivesArtifact(s);
    } else {
      NothingExtracted(s);
    }
    forall earthfile, name, path | ArtifactOf(s, earthfile, name, path) && target == earthfile + "+" + name
      ensures IsTargetWithArtifact(s) && ExtractTargetFromArtifact(s) == target
    {
      ArtifactIsExtracted(s, earthfile, name, path);
    }
  }

  /******* What one command refers to *******/

  /** The target that an argument of a COPY names. */
  function CopyTarget(arg: string): string {
    if HasPrefix(arg, "--from=") then
      (var target := TrimPrefix(arg, "--from="); if '+' in target then target else "")
    else if IsTargetWithArtifact(arg) then ExtractTargetFromArtifact(arg)
    else ""
  }

  /** A reference to the target, unless it is empty. */
  function RefTo(target: string, source: string): seq<Dependency> {
    if target == "" then [] else [Dependency(target, source)]
  }

  function CopyRefs(args: seq<string>, source: string): seq<Dependency> {
    if args == [] then []
    else CopyRefs(args[..|args| - 1], source) + RefTo(CopyTarget(args[|args| - 1]), source)
  }

  /** The references of a command: only a plain one makes any, and its name says how. */
  function CommandRefs(cmd: Cmd, source: string): seq<Dependency> {
    if cmd.Control? then []
    else if cmd.name == "BUILD" then if |cmd.args| > 0 then RefTo(cmd.args[0], source) else []
    else if cmd.name == "FROM" then
      if |cmd.args| > 0 && '+' in cmd.args[0] then RefTo(cmd.args[0], source) else []
    else if cmd.name == "COPY" then CopyRefs(cmd.args, source)
    else []
  }

  /** What a walk hands out is told apart by type, with the same result. */
  lemma RefsByType(cmd: Cmd, source: string)
    requires cmd.Control? ==> cmd.ctype in {If, For, With, Try, Wait}
    ensures CommandRefs(cmd, source) == match TypeOf(cmd)
                                        case Build => if |cmd.args| > 0 then RefTo(cmd.args[0], source) else []
                                        case From => if |cmd.args| > 0 && '+' in cmd.args[0]
                                                     then RefTo(cmd.args[0], source) else []
                                        case Copy => CopyRefs(cmd.args, source)
                                        case _ => []
  {
    DependencyTypes(cmd.name);
  }

  /** The references that a walk meets, in its order. */
  function VisitRefs(visits: seq<Visit>, source: string): seq<Dependency> {
    if visits == [] then [] else CommandRefs(visits[0].cmd, source) + VisitRefs(visits[1..], source)
  }

  function TargetRefs(targets: seq<Recipe>): seq<Dependency> {
    if targets == [] then []
    else VisitRefs(Preorder(Nodes(targets[0].body), 0), targets[0].name) + TargetRefs(targets[1..])
  }

  /** All references of the file: those of the base recipe, then those of each target. */
  function AllRefs(ast: Ast): seq<Dependency> {
    VisitRefs(Preorder(Nodes(ast.baseRecipe), 0), "") + TargetRefs(ast.targets)
  }

  lemma {:induction false} VisitRefsAppend(a: seq<Visit>, b: seq<Visit>, source: string)
    ensures VisitRefs(a + b, source) == VisitRefs(a, source) + VisitRefs(b, source)
    decreases |a|
  {
    if a == [] {
      assert a + b == b;
    } else {
      assert (a + b)[0] == a[0] && (a + b)[1..] == a[1..] + b;
      VisitRefsAppend(a[1..], b, source);
    }
  }

  /** Adding the references of the nodes to r, without walking them. */
  function Collect(r: seq<Dependency>, nodes: seq<Node>, source: string): seq<Dependency>
    decreases nodes
  {
    if nodes == [] then r
    else
      var s := Collect(r + CommandRefs(nodes[0].cmd, source), nodes[0].children, source);
      Collect(s, nodes[1..], source)
  }

  lemma {:induction false} CollectIsWalk(r: seq<Dependency>, nodes: seq<Node>, depth: nat, source: string)
    ensures Collect(r, nodes, source) == r + VisitRefs(Preorder(nodes, depth), source)
    decreases nodes
  {
    if nodes != [] {
      var refs := CommandRefs(nodes[0].cmd, source);
      var below := VisitRefs(Preorder(nodes[0].children, depth + 1), source);
      CollectIsWalk(r + refs, nodes[0].children, depth + 1, source);
      CollectIsWalk(r + refs + below, nodes[1..], depth, source);
      NodeRefs(nodes, depth, source);
      Concat3(r, refs, below, VisitRefs(Preorder(nodes[1..], depth), source));
    }
  }

  lemma NodeRefs(nodes: seq<Node>, depth: nat, source: string)
    requires nodes != []
    ensures VisitRefs(Preorder(nodes, depth), source) ==
            CommandRefs(nodes[0].cmd, source) + VisitRefs(Preorder(nodes[0].children, depth + 1), source)
            + VisitRefs(Preorder(nodes[1..], depth), source)
  {
    var first := [Visit(nodes[0].cmd, depth)];
    var below := Preorder(nodes[0].children, depth + 1);
    VisitRefsAppend(first + below, Preorder(nodes[1..], depth), source);
    assert (first + below)[1..] == below;
  }

  lemma Concat3<T>(r: seq<T>, a: seq<T>, b: seq<T>, c: seq<T>)
    ensures r + a + b + c == r + (a + b + c)
  {
  }

  lemma {:induction false} CollectAppend(r: seq<Dependency>, a: seq<Node>, b: seq<Node>, source: string)
    ensures Collect(r, a + b, source) == Collect(Collect(r, a, source), b, source)
    decreases |a|
  {
    if a == [] {
      assert a + b == b;
    } else {
      assert (a + b)[0] == a[0] && (a + b)[1..] == a[1..] + b;
      var s := Collect(r + CommandRefs(a[0].cmd, source), a[0].children, source);
      CollectAppend(s, a[1..], b, source);
    }
  }

  /** Adding the references of the targets to r. */
  function CollectTargets(r: seq<Dependency>, targets: seq<Recipe>): seq<Dependency>
    decreases targets
  {
    if targets == [] then r
    else CollectTargets(Collect(r, Nodes(targets[0].body), targets[0].name), targets[1..])
  }

  lemma {:induction false} CollectTargetsIsWalk(r: seq<Dependency>, targets: seq<Recipe>)
    ensures CollectTargets(r, targets) == r + TargetRefs(targets)
    decreases targets
  {
    if targets != [] {
      var nodes, name := Nodes(targets[0].body), targets[0].name;
      CollectIsWalk(r, nodes, 0, name);
      CollectTargetsIsWalk(r + VisitRefs(Preorder(nodes, 0), name), targets[1..]);
      Regroup(r, VisitRefs(Preorder(nodes, 0), name), TargetRefs(targets[1..]));
    }
  }

  /** Collecting over the trees gives what a walk of the base recipe and the targets meets. */
  lemma CollectedAreAllRefs(ast: Ast)
    ensures CollectTargets(Collect([], Nodes(ast.baseRecipe), ""), ast.targets) == AllRefs(ast)
  {
    var base := VisitRefs(Preorder(Nodes(ast.baseRecipe), 0), "");
    CollectIsWalk([], Nodes(ast.baseRecipe), 0, "");
    assert [] + base == base;
    CollectTargetsIsWalk(base, ast.targets);
  }

  /******* Telling references apart by key *******/

  function Key(source: string, target: string): string {
    source + ":" + target
  }

  /** The keys of the references. */
  function SeenKeys(refs: seq<Dependency>): set<string> {
    if refs == [] then {}
    else SeenKeys(refs[..|refs| - 1]) + {Key(refs[|refs| - 1].source, refs[|refs| - 1].target)}
  }

  /** The first reference with each key. */
  function FirstByKey(refs: seq<Dependency>): seq<Dependency> {
    if refs == [] then []
    else
      var front, last := refs[..|refs| - 1], refs[|refs| - 1];
      if Key(last.source, last.target) in SeenKeys(front) then FirstByKey(front) else FirstByKey(front) + [last]
  }

  lemma FirstByKeySnoc(refs: seq<Dependency>, d: Dependency)
    ensures var key := Key(d.source, d.target);
            && SeenKeys(refs + [d]) == SeenKeys(refs) + {key}
            && FirstByKey(refs + [d]) == if key in SeenKeys(refs) then FirstByKey(refs) else FirstByKey(refs) + [d]
  {
    assert (refs + [d])[..|refs|] == refs;
  }

  lemma {:induction false} KeyIsSeen(refs: seq<Dependency>, key: string)
    ensures key in SeenKeys(refs) <==> exists i :: 0 <= i < |refs| && Key(refs[i].source, refs[i].target) == key
  {
    if refs != [] {
      var front := refs[..|refs| - 1];
      KeyIsSeen(front, key);
      assert forall i :: 0 <= i < |front| ==> front[i] == refs[i];
    }
  }

  /** One source name is another one, a colon and more. */
  predicate Extends(longer: string, shorter: string) {
    HasPrefix(longer, shorter + ":")
  }

  lemma SameKey(s1: string, t1: string, s2: string, t2: string)
    requires Key(s1, t1) == Key(s2, t2)
    ensures (s1 == s2 && t1 == t2) || Extends(s1, s2) || Extends(s2, s1)
  {
    var k1, k2 := Key(s1, t1), Key(s2, t2);
    if |s1| == |s2| {
      assert s1 == k1[..|s1|] && t1 == k1[|s1| + 1..];
      assert s2 == k2[..|s2|] && t2 == k2[|s2| + 1..];
    } else if |s1| < |s2| {
      assert s2[..|s1| + 1] == k2[..|s1| + 1] == k1[..|s1| + 1] == s1 + ":";
    } else {
      assert s1[..|s2| + 1] == k1[..|s2| + 1] == k2[..|s2| + 1] == s2 + ":";
    }
  }

  /** Some targets make the two names collide. */
  lemma ExtendedNamesCollide(longer: string, shorter: string, t: string)
    requires Extends(longer, shorter)
    ensures Key(shorter, longer[|shorter| + 1..] + ":" + t) == Key(longer, t)
  {
    assert longer == shorter + ":" + longer[|shorter| + 1..];
    var rest := longer[|shorter| + 1..];
    assert shorter + ":" + (rest + ":" + t) == (shorter + ":" + rest) + ":" + t;
  }

  /** Keys tell all references of the sources apart. */
  ghost predicate KeysTellApart(sources: set<string>) {
    forall s1, t1, s2, t2 :: s1 in sources && s2 in sources && Key(s1, t1) == Key(s2, t2) ==> s1 == s2 && t1 == t2
  }

  ghost predicate NoneExtends(sources: set<string>) {
    forall s1, s2 :: s1 in sources && s2 in sources ==> !Extends(s1, s2)
  }

  /** Keys never merge two references exactly when no source name extends another by a colon. */
  lemma KeysTellApartExactly(sources: set<string>)
    ensures KeysTellApart(sources) <==> NoneExtends(sources)
  {
    if NoneExtends(sources) {
      forall s1, t1, s2, t2 | s1 in sources && s2 in sources && Key(s1, t1) == Key(s2, t2)
        ensures s1 == s2 && t1 == t2
      {
        SameKey(s1, t1, s2, t2);
      }
    }
    forall s1, s2 | s1 in sources && s2 in sources && Extends(s1, s2)
      ensures !KeysTellApart(sources)
    {
      ExtendedNamesCollide(s1, s2, "+t");
      assert s1 != s2;
    }
  }

  /** So names without a colon are always told apart. */
  lemma ColonFreeNamesAreApart(sources: set<string>)
    requires forall s :: s in sources ==> ':' !in s
    ensures KeysTellApart(sources)
  {
    forall s1, s2 | s1 in sources && s2 in sources
      ensures !Extends(s1, s2)
    {
      assert (s2 + ":")[|s2|] == ':';
    }
    KeysTellApartExactly(sources);
  }

  /** Two references of an Earthfile whose target b:c has a colon in its name are taken for one. */
  lemma ColonNamesMerge()
    ensures var first, second := Dependency("c:+t", "b"), Dependency("+t", "b:c");
            first != second && FirstByKey([first, second]) == [first]
  {
    var first, second := Dependency("c:+t", "b"), Dependency("+t", "b:c");
    assert Key("b", "c:+t") == "b:c:+t" == Key("b:c", "+t");
    assert Key([first][0].source, [first][0].target) == Key("b:c", "+t");
    assert [first] + [second] == [first, second];
    FirstByKeySnoc([first], second);
    FirstByKeySnoc([], first);
    assert [] + [first] == [first];
  }

  /** The sources of the references are among the given names. */
  predicate FromSources(refs: seq<Dependency>, sources: set<string>) {
    forall i :: 0 <= i < |refs| ==> refs[i].source in sources
  }

  lemma {:induction false} FirstByKeyIsDedup(refs: seq<Dependency>, sources: set<string>)
    requires FromSources(refs, sources) && KeysTellApart(sources)
    ensures FirstByKey(refs) == Dedup(refs)
  {
    if refs != [] {
      var front, last := refs[..|refs| - 1], refs[|refs| - 1];
      FirstByKeyIsDedup(front, sources);
      var key := Key(last.source, last.target);
      KeyIsSeen(front, key);
      if key in SeenKeys(front) {
        var i :| 0 <= i < |front| && Key(front[i].source, front[i].target) == key;
        assert refs[i] == front[i];
        assert last == front[i];
        assert last in front;
      } else {
        assert forall i :: 0 <= i < |front| ==> Key(front[i].source, front[i].target) != key;
      }
    }
  }

  function Sources(ast: Ast): set<string> {
    set i | 0 <= i < |ast.targets| :: ast.targets[i].name
  }

  lemma {:induction false} CopyRefsFrom(args: seq<string>, source: string, sources: set<string>)
    requires source in sources
    ensures FromSources(CopyRefs(args, source), sources)
  {
    if args != [] {
      CopyRefsFrom(args[..|args| - 1], source, sources);
    }
  }

  lemma {:induction false} VisitRefsFrom(visits: seq<Visit>, source: string, sources: set<string>)
    requires source in sources
    ensures FromSources(VisitRefs(visits, source), sources)
  {
    if visits != [] {
      var cmd := visits[0].cmd;
      CopyRefsFrom(cmd.args, source, sources);
      VisitRefsFrom(visits[1..], source, sources);
    }
  }

  lemma {:induction false} TargetRefsFrom(targets: seq<Recipe>, sources: set<string>)
    requires forall i :: 0 <= i < |targets| ==> targets[i].name in sources
    ensures FromSources(TargetRefs(targets), sources)
  {
    if targets != [] {
      VisitRefsFrom(Preorder(Nodes(targets[0].body), 0), targets[0].name, sources);
      TargetRefsFrom(targets[1..], sources);
    }
  }

  lemma AllRefsFrom(ast: Ast)
    ensures FromSources(AllRefs(ast), Sources(ast) + {""})
  {
    VisitRefsFrom(Preorder(Nodes(ast.baseRecipe), 0), "", Sources(ast) + {""});
    TargetRefsFrom(ast.targets, Sources(ast) + {""});
  }

  /** When no target name extends another (or the empty base name) by a colon, no distinct reference is lost and none is
      repeated. */
  lemma DependenciesAreDedup(ast: Ast)
    requires NoneExtends(Sources(ast) + {""})
    ensures FirstByKey(AllRefs(ast)) == Dedup(AllRefs(ast))
  {
    AllRefsFrom(ast);
    KeysTellApartExactly(Sources(ast) + {""});
    FirstByKeyIsDedup(AllRefs(ast), Sources(ast) + {""});
  }
}
