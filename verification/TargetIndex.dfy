/** The commands of a target by type: the index that parsing builds, and the linear scan it stands for. */
module TargetIndex {
  import opened EarthfileAst
  import opened EarthfileConvert
  import opened Optional

  type TypeMap = map<CommandType, seq<Cmd>>

  datatype Target = Target(name: string, commands: seq<Cmd>, commandsByType: Option<TypeMap>)

  /** The commands of a type, in order. */
  function OfType(commands: seq<Cmd>, ctype: CommandType): seq<Cmd> {
    if commands == [] then []
    else
      var n := |commands| - 1;
      OfType(commands[..n], ctype) + if TypeOf(commands[n]) == ctype then [commands[n]] else []
  }

  lemma {:induction false} OfTypeMembers(commands: seq<Cmd>, ctype: CommandType)
    ensures forall c :: c in OfType(commands, ctype) <==> c in commands && TypeOf(c) == ctype
  {
    if commands != [] {
      var n := |commands| - 1;
      OfTypeMembers(commands[..n], ctype);
      assert commands == commands[..n] + [commands[n]];
    }
  }

  /** Going by type finds every plain command of that name, and others only for IF and WAIT, and every control command of
      that type. */
  lemma FoundByName(commands: seq<Cmd>, ctype: CommandType, c: Cmd)
    ensures c in OfType(commands, ctype) ==> c in commands
    ensures c in commands && c.Control? ==> (c in OfType(commands, ctype) <==> c.ctype == ctype)
    ensures c in commands && c.Plain? && ctype != Unknown && c.name == TypeName(ctype) ==> c in OfType(commands, ctype)
    ensures c in OfType(commands, ctype) && c.Plain? && ctype != Unknown ==> c.name == TypeName(ctype) || ctype == If || ctype == Wait
  {
    OfTypeMembers(commands, ctype);
    TypeOfTypeName(ctype);
    NameOfType(c.name);
  }

  lemma OfTypeSnoc(commands: seq<Cmd>, i: nat, ctype: CommandType)
    requires i < |commands|
    ensures OfType(commands[..i + 1], ctype) ==
            if TypeOf(commands[i]) == ctype then OfType(commands[..i], ctype) + [commands[i]] else OfType(commands[..i], ctype)
  {
    assert commands[..i + 1][..i] == commands[..i];
  }

  /** Reading a Go map: a missing key gives a nil slice. */
  function Lookup(idx: TypeMap, ctype: CommandType): seq<Cmd> {
    if ctype in idx then idx[ctype] else []
  }

  /** An index, when there is one, gives for every type what a scan would. */
  ghost predicate Indexed(t: Target) {
    t.commandsByType.Some? ==>
      forall ctype :: Lookup(t.commandsByType.value, ctype) == OfType(t.commands, ctype)
  }

  method BuildIndex(commands: seq<Cmd>) returns (idx: TypeMap)
    ensures forall ctype :: Lookup(idx, ctype) == OfType(commands, ctype)
  {
    idx := map[];
    for i := 0 to |commands|
      invariant forall ctype :: Lookup(idx, ctype) == OfType(commands[..i], ctype)
    {
      var c := commands[i];
      ghost var before := idx;
      idx := idx[TypeOf(c) := Lookup(idx, TypeOf(c)) + [c]];
      forall ctype
        ensures Lookup(idx, ctype) == OfType(commands[..i + 1], ctype)
      {
        OfTypeSnoc(commands, i, ctype);
        assert Lookup(before, ctype) == OfType(commands[..i], ctype);
      }
    }
    assert commands[..|commands|] == commands;
  }

  /** One round of the target loop and of the index loop in convertASTToDomain. */
  method ConvertTarget(recipe: Recipe) returns (t: Target)
    ensures t.name == recipe.name && t.commands == Converted(recipe.body)
    ensures Indexed(t)
    ensures t.commandsByType.None? <==> t.commands == []
  {
    var commands := ConvertBlock(recipe.body);
    if |commands| == 0 {
      return Target(recipe.name, commands, None);
    }
    var idx := BuildIndex(commands);
    t := Target(recipe.name, commands, Some(idx));
  }

  method FindCommands(t: Target, ctype: CommandType) returns (commands: seq<Cmd>)
    requires Indexed(t)
    ensures commands == OfType(t.commands, ctype)
  {
    if t.commandsByType.Some? {
      return Lookup(t.commandsByType.value, ctype);
    }
    commands := [];
    for i := 0 to |t.commands|
      invariant commands == OfType(t.commands[..i], ctype)
    {
      OfTypeSnoc(t.commands, i, ctype);
      if TypeOf(t.commands[i]) == ctype {
        commands := commands + [t.commands[i]];
      }
    }
    assert t.commands[..|t.commands|] == t.commands;
  }

  method HasCommand(t: Target, ctype: CommandType) returns (found: bool)
    requires Indexed(t)
    ensures found <==> exists i :: 0 <= i < |t.commands| && TypeOf(t.commands[i]) == ctype
  {
    OfTypeMembers(t.commands, ctype);
    if t.commandsByType.Some? {
      found := |Lookup(t.commandsByType.value, ctype)| > 0;
      assert found ==> OfType(t.commands, ctype)[0] in t.commands;
      return;
    }
    for i := 0 to |t.commands|
      invariant forall k :: 0 <= k < i ==> TypeOf(t.commands[k]) != ctype
    {
      if TypeOf(t.commands[i]) == ctype {
        return true;
      }
    }
    found := false;
  }

  method GetFromBase(t: Target) returns (base: Option<Cmd>)
    ensures base == var froms := OfType(t.commands, From); if froms == [] then None else Some(froms[0])
  {
    for i := 0 to |t.commands|
      invariant OfType(t.commands[..i], From) == []
    {
      OfTypeSnoc(t.commands, i, From);
      if TypeOf(t.commands[i]) == From {
        FirstOfType(t.commands, i, From);
        return Some(t.commands[i]);
      }
    }
    assert t.commands[..|t.commands|] == t.commands;
    base := None;
  }

  lemma {:induction false} FirstOfType(commands: seq<Cmd>, i: nat, ctype: CommandType)
    requires i < |commands| && OfType(commands[..i + 1], ctype) == [commands[i]]
    ensures OfType(commands, ctype) != [] && OfType(commands, ctype)[0] == commands[i]
    decreases |commands|
  {
    var n := |commands| - 1;
    if i == n {
      assert commands[..i + 1] == commands;
    } else {
      assert commands[..n][..i + 1] == commands[..i + 1];
      FirstOfType(commands[..n], i, ctype);
    }
  }
}
