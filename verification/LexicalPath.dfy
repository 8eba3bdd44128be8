/** Unix path/filepath on strings, by its documented lexical rules. */
module LexicalPath {
  import opened Text

  predicate IsAbs(p: string) {
    p != "" && p[0] == '/'
  }

  /** The components that count: empty ones and "." are skipped. */
  function Significant(parts: seq<string>): (r: seq<string>)
    ensures forall c :: c in r <==> c in parts && c != "" && c != "."
  {
    if parts == [] then []
    else (if parts[0] == "" || parts[0] == "." then [] else [parts[0]]) + Significant(parts[1..])
  }

  function Comps(p: string): seq<string> {
    Significant(Split(p, '/'))
  }

  /** One more component: ".." takes back the last one, if there is one to take back. */
  function Push(rooted: bool, stack: seq<string>, c: string): seq<string> {
    if c != ".." then stack + [c]
    else if stack != [] && stack[|stack| - 1] != ".." then stack[..|stack| - 1]
    else if rooted then stack
    else stack + [c]
  }

  function Norm(rooted: bool, stack: seq<string>, comps: seq<string>): seq<string> {
    if comps == [] then stack else Push(rooted, Norm(rooted, stack, comps[..|comps| - 1]), comps[|comps| - 1])
  }

  function Spell(rooted: bool, comps: seq<string>): string {
    if rooted then "/" + Join(comps, '/') else if comps == [] then "." else Join(comps, '/')
  }

  function Clean(p: string): string {
    Spell(IsAbs(p), Norm(IsAbs(p), [], Comps(p)))
  }

  /** filepath.Join of two elements; empty ones are ignored. */
  function JoinPath(a: string, b: string): string {
    if a != "" then Clean(a + "/" + b) else if b != "" then Clean(b) else ""
  }

  /** filepath.Abs with the working directory given. */
  function Abs(cwd: string, p: string): string {
    if IsAbs(p) then Clean(p) else JoinPath(cwd, p)
  }

  /** The part up to and including the last slash. */
  function UptoSlash(p: string): string {
    if p == "" || p[|p| - 1] == '/' then p else UptoSlash(p[..|p| - 1])
  }

  function Dir(p: string): string {
    Clean(UptoSlash(p))
  }

  /******* Components of paths put together *******/

  predicate Proper(comps: seq<string>) {
    forall i :: 0 <= i < |comps| ==> comps[i] != "" && comps[i] != "." && '/' !in comps[i]
  }

  lemma {:induction false} SignificantAppend(a: seq<string>, b: seq<string>)
    ensures Significant(a + b) == Significant(a) + Significant(b)
  {
    if a == [] {
      assert a + b == b;
    } else {
      SignificantAppend(a[1..], b);
      assert (a + b)[0] == a[0] && (a + b)[1..] == a[1..] + b;
      var head := if a[0] == "" || a[0] == "." then [] else [a[0]];
      assert head + (Significant(a[1..]) + Significant(b)) == (head + Significant(a[1..])) + Significant(b);
    }
  }

  lemma CompsAppend(a: string, b: string)
    ensures Comps(a + "/" + b) == Comps(a) + Comps(b)
  {
    SplitAppend(a, b, '/');
    SignificantAppend(Split(a, '/'), Split(b, '/'));
  }

  lemma {:induction false} SignificantProper(parts: seq<string>)
    requires forall i :: 0 <= i < |parts| ==> '/' !in parts[i]
    ensures Proper(Significant(parts))
    ensures Proper(parts) ==> Significant(parts) == parts
  {
    if parts != [] {
      SignificantProper(parts[1..]);
    }
  }

  lemma CompsProper(p: string)
    ensures Proper(Comps(p))
  {
    SignificantProper(Split(p, '/'));
  }

  lemma {:induction false} NormProper(rooted: bool, stack: seq<string>, comps: seq<string>)
    requires Proper(stack) && Proper(comps)
    ensures Proper(Norm(rooted, stack, comps))
  {
    if comps != [] {
      NormProper(rooted, stack, comps[..|comps| - 1]);
    }
  }

  lemma SpellComps(rooted: bool, comps: seq<string>)
    requires Proper(comps)
    ensures Comps(Spell(rooted, comps)) == comps
    ensures IsAbs(Spell(rooted, comps)) == rooted
  {
    SignificantProper(comps);
    if comps == [] {
      SplitOne("", '/');
      SplitAppend("", "", '/');
      SplitOne(".", '/');
    } else {
      SplitJoin(comps, '/');
      var s := Join(comps, '/');
      SplitAppend("", s, '/');
      SplitOne("", '/');
      SignificantAppend([""], comps);
      assert s[0] == comps[0][0];
    }
  }

  /** The components of a cleaned path are its normal form. */
  lemma CleanComps(p: string)
    ensures Comps(Clean(p)) == Norm(IsAbs(p), [], Comps(p))
    ensures IsAbs(Clean(p)) == IsAbs(p)
  {
    CompsProper(p);
    NormProper(IsAbs(p), [], Comps(p));
    SpellComps(IsAbs(p), Norm(IsAbs(p), [], Comps(p)));
  }

  /******* Normalising in stages *******/

  predicate NoParent(comps: seq<string>) {
    forall i :: 0 <= i < |comps| ==> comps[i] != ".."
  }

  lemma {:induction false} NormAppend(rooted: bool, stack: seq<string>, a: seq<string>, b: seq<string>)
    ensures Norm(rooted, stack, a + b) == Norm(rooted, Norm(rooted, stack, a), b)
  {
    if b == [] {
      assert a + b == a;
    } else {
      var n := |b| - 1;
      assert (a + b)[..|a| + n] == a + b[..n] && (a + b)[|a| + n] == b[n];
      NormAppend(rooted, stack, a, b[..n]);
    }
  }

  lemma {:induction false} NormNoParent(rooted: bool, stack: seq<string>, comps: seq<string>)
    requires NoParent(comps)
    ensures Norm(rooted, stack, comps) == stack + comps
  {
    if comps != [] {
      var n := |comps| - 1;
      NormNoParent(rooted, stack, comps[..n]);
      assert stack + comps == stack + comps[..n] + [comps[n]];
    } else {
      assert stack + comps == stack;
    }
  }

  lemma {:induction false} RootedNoParent(stack: seq<string>, comps: seq<string>)
    requires NoParent(stack)
    ensures NoParent(Norm(true, stack, comps))
  {
    if comps != [] {
      RootedNoParent(stack, comps[..|comps| - 1]);
    }
  }

  /** Normalising a path on its own first makes no difference to where it leads from a directory. */
  lemma {:induction false} NormFirst(rooted: bool, stack: seq<string>, comps: seq<string>)
    requires NoParent(stack) && (rooted ==> stack == [])
    ensures Norm(true, stack, Norm(rooted, [], comps)) == Norm(true, stack, comps)
  {
    if comps == [] {
      return;
    }
    var front, c := comps[..|comps| - 1], comps[|comps| - 1];
    NormFirst(rooted, stack, front);
    RootedNoParent(stack, front);
    var inner := Norm(rooted, [], front);
    var pushed := Push(rooted, inner, c);
    if pushed == inner + [c] {
      assert pushed[..|pushed| - 1] == inner;
    } else if pushed == inner {
      RootedNoParent([], front);
      NormNoParent(true, stack, inner);
    } else {
      assert inner == pushed + [inner[|inner| - 1]];
      NormAppend(true, stack, pushed, [inner[|inner| - 1]]);
      assert Norm(true, Norm(true, stack, pushed), []) == Norm(true, stack, pushed);
    }
  }

  /** Where a path leads: from the root, or from the working directory. */
  function Resolved(cwd: string, p: string): seq<string> {
    Norm(true, [], if IsAbs(p) then Comps(p) else Comps(cwd) + Comps(p))
  }

  lemma CleanResolved(cwd: string, p: string)
    ensures Resolved(cwd, Clean(p)) == Resolved(cwd, p)
  {
    CleanComps(p);
    if IsAbs(p) {
      NormFirst(true, [], Comps(p));
    } else {
      RootedNoParent([], Comps(cwd));
      NormAppend(true, [], Comps(cwd), Comps(p));
      NormAppend(true, [], Comps(cwd), Norm(false, [], Comps(p)));
      NormFirst(false, Norm(true, [], Comps(cwd)), Comps(p));
    }
  }

  /** An absolute path spells the components it leads to. */
  lemma AbsSpells(cwd: string, p: string)
    requires IsAbs(cwd)
    ensures Abs(cwd, p) == Spell(true, Resolved(cwd, p))
    ensures Proper(Resolved(cwd, p)) && NoParent(Resolved(cwd, p))
  {
    CompsProper(p);
    CompsProper(cwd);
    CompsAppend(cwd, p);
    var comps := if IsAbs(p) then Comps(p) else Comps(cwd) + Comps(p);
    NormProper(true, [], comps);
    RootedNoParent([], comps);
    assert IsAbs(cwd + "/" + p);
  }

  /** Going to a member of a directory is going there from where the directory leads. */
  lemma JoinResolved(cwd: string, dir: string, member: string)
    requires dir != ""
    ensures Resolved(cwd, JoinPath(dir, member)) == Norm(true, Resolved(cwd, dir), Comps(member))
  {
    CleanResolved(cwd, dir + "/" + member);
    CompsAppend(dir, member);
    assert (dir + "/" + member)[0] == dir[0];
    if IsAbs(dir) {
      NormAppend(true, [], Comps(dir), Comps(member));
    } else {
      assert Comps(cwd) + (Comps(dir) + Comps(member)) == (Comps(cwd) + Comps(dir)) + Comps(member);
      NormAppend(true, [], Comps(cwd) + Comps(dir), Comps(member));
    }
  }

  /******* The string test for being beneath a directory *******/

  /** A spelled path begins with a spelled directory and a slash exactly when it lies strictly beneath it. */
  lemma BeneathByPrefix(root: seq<string>, target: seq<string>)
    requires Proper(root) && Proper(target) && root != []
    ensures HasPrefix(Spell(true, target), Spell(true, root) + "/") <==> root < target
  {
    var r, t := Spell(true, root), Spell(true, target);
    if root < target {
      JoinAppend(root, target[|root|..]);
      assert target == root + target[|root|..];
      assert t == r + "/" + Join(target[|root|..], '/');
    }
    if HasPrefix(t, r + "/") {
      var rest := t[|r| + 1..];
      assert t == r + "/" + rest;
      CompsAppend(r, rest);
      SpellComps(true, root);
      SpellComps(true, target);
      assert target == root + Comps(rest);
      assert target == root ==> t == r;
    }
  }

  lemma {:induction false} JoinAppend(a: seq<string>, b: seq<string>)
    requires a != [] && b != []
    ensures Join(a + b, '/') == Join(a, '/') + "/" + Join(b, '/')
  {
    if |a| == 1 {
      assert a + b == [a[0]] + b && ([a[0]] + b)[1..] == b;
    } else {
      JoinAppend(a[1..], b);
      assert (a + b)[1..] == a[1..] + b;
    }
  }

  lemma SpellInjective(a: seq<string>, b: seq<string>)
    requires Proper(a) && Proper(b) && Spell(true, a) == Spell(true, b)
    ensures a == b
  {
    SpellComps(true, a);
    SpellComps(true, b);
  }
}
