/** Where oci/archive_targz_helpers.go lets the entries of an archive go. */
module ArchivePaths {
  import opened Text
  import opened LexicalPath
  import opened PathValidation

  datatype Checked = Within(path: string) | Violation

  function SafeJoin(cwd: string, rootAbs: string, targetDir: string, member: string): Checked {
    var targetAbs := Abs(cwd, Clean(JoinPath(targetDir, member)));
    if !HasPrefix(targetAbs, rootAbs + "/") && targetAbs != rootAbs then Violation else Within(targetAbs)
  }

  /** The header name without the prefix to strip, and without a slash left in front. */
  function Stripped(headerName: string, stripPrefix: string): string {
    if stripPrefix != "" && HasPrefix(headerName, stripPrefix) then TrimPrefix(headerName[|stripPrefix|..], "/")
    else headerName
  }

  function NormalizeAndResolvePath(cwd: string, allowHidden: bool, headerName: string, stripPrefix: string,
                                   targetDir: string, rootAbs: string): Checked {
    if !ValidatePath(allowHidden, headerName) then Violation
    else SafeJoin(cwd, rootAbs, targetDir, Stripped(headerName, stripPrefix))
  }

  /******* The string test is the component test *******/

  lemma MemberSpells(cwd: string, targetDir: string, member: string)
    requires IsAbs(cwd) && targetDir != ""
    ensures var target := Norm(true, Resolved(cwd, targetDir), Comps(member));
            Abs(cwd, Clean(JoinPath(targetDir, member))) == Spell(true, target) && Proper(target) && NoParent(target)
  {
    var fullPath := JoinPath(targetDir, member);
    JoinResolved(cwd, targetDir, member);
    CleanResolved(cwd, fullPath);
    AbsSpells(cwd, Clean(fullPath));
  }

  lemma BeneathOrSame(root: seq<string>, target: seq<string>)
    requires Proper(root) && Proper(target) && root != []
    ensures HasPrefix(Spell(true, target), Spell(true, root) + "/") || Spell(true, target) == Spell(true, root) <==> root <= target
  {
    BeneathByPrefix(root, target);
    if Spell(true, root) == Spell(true, target) {
      SpellInjective(root, target);
    }
    assert root <= target && |root| == |target| ==> root == target;
  }

  /** safeJoin accepts exactly the members that lead, component by component, to the root or beneath it. */
  lemma SafeJoinIsBeneath(cwd: string, targetDir: string, member: string)
    requires IsAbs(cwd) && targetDir != "" && Resolved(cwd, targetDir) != []
    ensures var root := Resolved(cwd, targetDir);
            var target := Norm(true, root, Comps(member));
            SafeJoin(cwd, Abs(cwd, targetDir), targetDir, member) ==
              if root <= target then Within(Spell(true, target)) else Violation
  {
    var root := Resolved(cwd, targetDir);
    MemberSpells(cwd, targetDir, member);
    AbsSpells(cwd, targetDir);
    BeneathOrSame(root, Norm(true, root, Comps(member)));
  }

  lemma NothingBeneathSlashes(target: seq<string>)
    requires Proper(target)
    ensures !HasPrefix(Spell(true, target), "//")
    ensures Spell(true, target) == "/" <==> target == []
  {
    if target != [] {
      assert target[0] != "" && target[0][0] != '/';
      assert Join(target, '/')[0] == target[0][0];
      assert Spell(true, target)[..2][1] == target[0][0];
    }
  }

  /** When the root is "/", its spelling already ends in a slash, and only the root itself is accepted. */
  lemma SafeJoinAtSlash(cwd: string, targetDir: string, member: string)
    requires IsAbs(cwd) && targetDir != "" && Resolved(cwd, targetDir) == []
    ensures SafeJoin(cwd, Abs(cwd, targetDir), targetDir, member) ==
              if Norm(true, [], Comps(member)) == [] then Within("/") else Violation
  {
    MemberSpells(cwd, targetDir, member);
    AbsSpells(cwd, targetDir);
    NothingBeneathSlashes(Norm(true, [], Comps(member)));
    assert Spell(true, []) == "/" && "/" + "/" == "//";
  }

  /** A cleaned absolute path of the root or of something beneath it. */
  ghost predicate PathBeneath(root: seq<string>, path: string) {
    root <= Comps(path) && Proper(Comps(path)) && NoParent(Comps(path)) && path == Spell(true, Comps(path))
  }

  lemma JoinedIsBeneath(cwd: string, targetDir: string, member: string, path: string)
    requires IsAbs(cwd) && targetDir != "" && Resolved(cwd, targetDir) != []
    requires SafeJoin(cwd, Abs(cwd, targetDir), targetDir, member) == Within(path)
    ensures PathBeneath(Resolved(cwd, targetDir), path)
  {
    SafeJoinIsBeneath(cwd, targetDir, member);
    MemberSpells(cwd, targetDir, member);
    SpellComps(true, Norm(true, Resolved(cwd, targetDir), Comps(member)));
  }

  /** An accepted header leads to the root or beneath it, whatever prefix is stripped. */
  lemma AcceptedIsBeneath(cwd: string, allowHidden: bool, headerName: string, stripPrefix: string, targetDir: string, path: string)
    requires IsAbs(cwd) && targetDir != "" && Resolved(cwd, targetDir) != []
    requires NormalizeAndResolvePath(cwd, allowHidden, headerName, stripPrefix, targetDir, Abs(cwd, targetDir)) == Within(path)
    ensures PathBeneath(Resolved(cwd, targetDir), path)
  {
    JoinedIsBeneath(cwd, targetDir, Stripped(headerName, stripPrefix), path);
  }

  /******* Which validated headers are accepted *******/

  /** Stripping takes whole components. */
  predicate WholeComponents(headerName: string, stripPrefix: string) {
    stripPrefix == "" || !HasPrefix(headerName, stripPrefix) ||
    var rest := headerName[|stripPrefix|..];
    stripPrefix[|stripPrefix| - 1] == '/' || rest == "" || rest[0] == '/'
  }

  lemma SlashInFront(s: string)
    ensures Comps(TrimPrefix(s, "/")) == Comps(s)
  {
    if HasPrefix(s, "/") {
      CompsOfSlashed("", s[1..]);
      assert s == "/" + s[1..];
    }
  }

  lemma CompsOfSlashed(a: string, b: string)
    ensures Comps(a + "/") == Comps(a) && Comps("/" + b) == Comps(b)
  {
    CompsAppend(a, "");
    CompsAppend("", b);
    assert a + "/" == a + "/" + "" && "/" + b == "" + "/" + b;
    assert Comps("") == [];
  }

  lemma CompsAtBoundary(a: string, b: string)
    requires a != "" && (a[|a| - 1] == '/' || b == "" || b[0] == '/')
    ensures Comps(a + b) == Comps(a) + Comps(b)
  {
    if a[|a| - 1] == '/' {
      var front := a[..|a| - 1];
      assert a == front + "/" && a + b == front + "/" + b;
      CompsOfSlashed(front, b);
      CompsAppend(front, b);
    } else if b != "" {
      assert b == "/" + b[1..] && a + b == a + "/" + b[1..];
      CompsOfSlashed(a, b[1..]);
      CompsAppend(a, b[1..]);
    } else {
      assert a + b == a && Comps("") == [];
    }
  }

  lemma StrippedComps(headerName: string, stripPrefix: string)
    requires stripPrefix != "" && HasPrefix(headerName, stripPrefix) && WholeComponents(headerName, stripPrefix)
    ensures Comps(headerName) == Comps(stripPrefix) + Comps(Stripped(headerName, stripPrefix))
  {
    var rest := headerName[|stripPrefix|..];
    SlashInFront(rest);
    assert headerName == stripPrefix + rest;
    CompsAtBoundary(stripPrefix, rest);
  }

  /** With no prefix, or one that ends between components, the second gate never rejects what the first lets through: it
      leads to the name's components beneath the root, without those of the prefix when the name begins with it. */
  lemma ValidatedIsAccepted(cwd: string, allowHidden: bool, headerName: string, stripPrefix: string, targetDir: string)
    returns (rest: seq<string>)
    requires IsAbs(cwd) && targetDir != "" && Resolved(cwd, targetDir) != []
    requires ValidatePath(allowHidden, headerName) && WholeComponents(headerName, stripPrefix)
    ensures NormalizeAndResolvePath(cwd, allowHidden, headerName, stripPrefix, targetDir, Abs(cwd, targetDir)) ==
              Within(Spell(true, Resolved(cwd, targetDir) + rest))
    ensures Comps(headerName) == if stripPrefix != "" && HasPrefix(headerName, stripPrefix) then Comps(stripPrefix) + rest else rest
  {
    rest := Comps(Stripped(headerName, stripPrefix));
    if stripPrefix != "" && HasPrefix(headerName, stripPrefix) {
      StrippedComps(headerName, stripPrefix);
    }
    TraversalFreeHasNoParent(headerName);
    StrippedWhole(headerName, stripPrefix);
    MemberAccepted(cwd, targetDir, Stripped(headerName, stripPrefix));
  }

  lemma StrippedWhole(headerName: string, stripPrefix: string)
    requires NoParent(Comps(headerName)) && WholeComponents(headerName, stripPrefix)
    ensures NoParent(Comps(Stripped(headerName, stripPrefix)))
  {
    if stripPrefix != "" && HasPrefix(headerName, stripPrefix) {
      StrippedComps(headerName, stripPrefix);
      var rest := Comps(Stripped(headerName, stripPrefix));
      assert forall i :: 0 <= i < |rest| ==> rest[i] == Comps(headerName)[|Comps(stripPrefix)| + i];
    }
  }

  lemma MemberAccepted(cwd: string, targetDir: string, member: string)
    requires IsAbs(cwd) && targetDir != "" && Resolved(cwd, targetDir) != [] && NoParent(Comps(member))
    ensures SafeJoin(cwd, Abs(cwd, targetDir), targetDir, member) ==
              Within(Spell(true, Resolved(cwd, targetDir) + Comps(member)))
  {
    SafeJoinIsBeneath(cwd, targetDir, member);
    NormNoParent(true, Resolved(cwd, targetDir), Comps(member));
  }

  /** The parts of a suffix of s, after its first one, are parts of s. */
  lemma {:induction false} SuffixParts(s: string, k: nat, i: nat)
    requires k <= |s| && 0 < i < |Split(s[k..], '/')|
    ensures Split(s[k..], '/')[i] in Split(s, '/')
    decreases k
  {
    if k == 0 {
      assert s[0..] == s;
    } else {
      var t, u := s[k..], s[k - 1..];
      assert u[0] == s[k - 1] && u[1..] == t;
      var j := if u[0] == '/' then i + 1 else i;
      assert Split(u, '/')[j] == Split(t, '/')[i];
      SuffixParts(s, k - 1, j);
    }
  }

  /** Cutting a name without parent components can make one of its first remaining component only. */
  lemma CutComps(headerName: string, k: nat)
    requires k <= |headerName| && NoParent(Comps(headerName))
    ensures var rest := Comps(headerName[k..]);
            rest != [] ==> NoParent(rest[1..])
  {
    var parts := Split(headerName[k..], '/');
    forall i | 0 < i < |parts|
      ensures parts[i] != ".."
    {
      SuffixParts(headerName, k, i);
      assert ".." !in Comps(headerName);
    }
    assert parts == [parts[0]] + parts[1..];
    SignificantAppend([parts[0]], parts[1..]);
    assert forall c :: c in Significant(parts[1..]) ==> c in parts[1..];
    var first := Significant([parts[0]]);
    assert first == [] || first == [parts[0]];
    assert forall i :: 0 <= i < |Significant(parts[1..])| ==> Significant(parts[1..])[i] in Significant(parts[1..]);
  }

  /** For any prefix, a validated header is rejected exactly when cutting the prefix leaves ".." in front and the path does
      not come straight back into the root directory. */
  lemma RejectedExactly(cwd: string, allowHidden: bool, headerName: string, stripPrefix: string, targetDir: string)
    requires IsAbs(cwd) && targetDir != "" && Resolved(cwd, targetDir) != []
    requires ValidatePath(allowHidden, headerName)
    ensures var root, comps := Resolved(cwd, targetDir), Comps(Stripped(headerName, stripPrefix));
            NormalizeAndResolvePath(cwd, allowHidden, headerName, stripPrefix, targetDir, Abs(cwd, targetDir)) == Violation <==>
              comps != [] && comps[0] == ".." && !(|comps| > 1 && comps[1] == root[|root| - 1])
  {
    TraversalFreeHasNoParent(headerName);
    StrippedCut(headerName, stripPrefix);
    MemberRejectedExactly(cwd, targetDir, Stripped(headerName, stripPrefix));
  }

  lemma MemberRejectedExactly(cwd: string, targetDir: string, member: string)
    requires IsAbs(cwd) && targetDir != "" && Resolved(cwd, targetDir) != []
    requires Comps(member) != [] ==> NoParent(Comps(member)[1..])
    ensures var root, comps := Resolved(cwd, targetDir), Comps(member);
            SafeJoin(cwd, Abs(cwd, targetDir), targetDir, member) == Violation <==>
              comps != [] && comps[0] == ".." && !(|comps| > 1 && comps[1] == root[|root| - 1])
  {
    SafeJoinIsBeneath(cwd, targetDir, member);
    AbsSpells(cwd, targetDir);
    LeavesExactly(Resolved(cwd, targetDir), Comps(member));
  }

  lemma LeavesExactly(root: seq<string>, comps: seq<string>)
    requires root != [] && NoParent(root) && (comps != [] ==> NoParent(comps[1..]))
    ensures !(root <= Norm(true, root, comps)) <==>
              comps != [] && comps[0] == ".." && !(|comps| > 1 && comps[1] == root[|root| - 1])
  {
    if comps == [] || comps[0] != ".." {
      assert comps != [] ==> comps == [comps[0]] + comps[1..];
      NormNoParent(true, root, comps);
    } else {
      assert comps == [".."] + comps[1..];
      NormAppend(true, root, [".."], comps[1..]);
      var up, last := root[..|root| - 1], root[|root| - 1];
      UpOne(root);
      NormNoParent(true, up, comps[1..]);
      assert root == up + [last];
      assert root <= up + comps[1..] <==> comps[1..] != [] && comps[1..][0] == last;
    }
  }

  lemma UpOne(root: seq<string>)
    requires root != [] && NoParent(root)
    ensures Norm(true, root, [".."]) == root[..|root| - 1]
  {
    assert [".."][..0] == [];
    assert Norm(true, root, []) == root;
  }

  lemma StrippedCut(headerName: string, stripPrefix: string)
    requires NoParent(Comps(headerName))
    ensures var comps := Comps(Stripped(headerName, stripPrefix));
            comps != [] ==> NoParent(comps[1..])
  {
    if stripPrefix != "" && HasPrefix(headerName, stripPrefix) {
      CutComps(headerName, |stripPrefix|);
      SlashInFront(headerName[|stripPrefix|..]);
    }
  }

  /******* Symbolic links *******/

  /** The gates before it leave the final prefix test of the symlink validator nothing to reject. */
  lemma SymlinkPrefixTestRedundant(cwd: string, allowHidden: bool, rootPath: string, linkPath: string, targetPath: string)
    requires IsAbs(cwd) && rootPath != "" && ValidatePath(allowHidden, linkPath)
    ensures ValidateSymlink(cwd, rootPath, linkPath, targetPath) <==> !AbsoluteAnywhere(targetPath) && TraversalFree(targetPath)
  {
    if !AbsoluteAnywhere(targetPath) && TraversalFree(targetPath) {
      var t := LinkTarget(linkPath, targetPath);
      LinkTargetHasNoParent(linkPath, targetPath);
      var root := Resolved(cwd, rootPath);
      JoinResolved(cwd, rootPath, t);
      NormNoParent(true, root, Comps(t));
      AbsSpells(cwd, rootPath);
      AbsSpells(cwd, JoinPath(rootPath, t));
      SpellPrefix(root, Comps(t));
    }
  }

  lemma SpellPrefix(a: seq<string>, b: seq<string>)
    ensures HasPrefix(Spell(true, a + b), Spell(true, a))
  {
    if b == [] {
      assert a + b == a;
    } else if a != [] {
      JoinAppend(a, b);
    }
  }

  lemma NormKeepsNoParent(rooted: bool, comps: seq<string>)
    requires NoParent(comps)
    ensures Norm(rooted, [], comps) == comps
  {
    NormNoParent(rooted, [], comps);
    assert [] + comps == comps;
  }

  lemma DirHasNoParent(p: string)
    requires NoParent(Comps(p))
    ensures NoParent(Comps(Dir(p))) && Comps(Dir(p)) <= Comps(p)
  {
    var front := UptoSlash(p);
    UptoSlashEnds(p);
    FrontComps(front, p);
    CleanComps(front);
    NormKeepsNoParent(IsAbs(front), Comps(front));
  }

  lemma FrontComps(front: string, p: string)
    requires front <= p && (front == "" || front[|front| - 1] == '/')
    ensures Comps(front) <= Comps(p)
  {
    if front == "" {
      assert Comps("") == [];
    } else {
      CompsAtBoundary(front, p[|front|..]);
      assert p == front + p[|front|..];
    }
  }

  lemma {:induction false} UptoSlashEnds(p: string)
    ensures var s := UptoSlash(p);
            s <= p && (s == "" || s[|s| - 1] == '/')
  {
    if p != "" && p[|p| - 1] != '/' {
      UptoSlashEnds(p[..|p| - 1]);
    }
  }

  lemma LinkTargetHasNoParent(linkPath: string, targetPath: string)
    requires TraversalFree(linkPath) && TraversalFree(targetPath)
    ensures NoParent(Comps(LinkTarget(linkPath, targetPath)))
  {
    TraversalFreeHasNoParent(linkPath);
    TraversalFreeHasNoParent(targetPath);
    DirHasNoParent(linkPath);
    var linkDir := if Dir(linkPath) == "." && '/' !in linkPath then "" else Dir(linkPath);
    var joined := if linkDir == "" then targetPath else JoinPath(linkDir, targetPath);
    if linkDir != "" {
      CompsAppend(linkDir, targetPath);
      CleanComps(linkDir + "/" + targetPath);
      NormKeepsNoParent(IsAbs(linkDir + "/" + targetPath), Comps(linkDir) + Comps(targetPath));
    }
    CleanComps(joined);
    NormKeepsNoParent(IsAbs(joined), Comps(joined));
  }

  /** From the directory it is created in, an accepted link leads beneath the root, except that one in the place of the root
      itself would be created above it, and leads there exactly when it comes straight back. */
  lemma SymlinkStaysBeneath(cwd: string, allowHidden: bool, headerName: string, stripPrefix: string, targetDir: string,
                            fullPath: string, linkTarget: string)
    requires IsAbs(cwd) && targetDir != "" && Resolved(cwd, targetDir) != []
    requires NormalizeAndResolvePath(cwd, allowHidden, headerName, stripPrefix, targetDir, Abs(cwd, targetDir)) == Within(fullPath)
    requires ValidateSymlink(cwd, targetDir, headerName, linkTarget)
    ensures var root := Resolved(cwd, targetDir);
            root <= Resolved(cwd, JoinPath(Dir(fullPath), linkTarget)) <==>
              fullPath != Abs(cwd, targetDir) || [root[|root| - 1]] <= Comps(linkTarget)
  {
    TraversalFreeHasNoParent(linkTarget);
    AcceptedIsBeneath(cwd, allowHidden, headerName, stripPrefix, targetDir, fullPath);
    LinkFromBeneath(cwd, targetDir, fullPath, linkTarget);
  }

  lemma LinkFromBeneath(cwd: string, targetDir: string, path: string, linkTarget: string)
    requires IsAbs(cwd) && Resolved(cwd, targetDir) != [] && NoParent(Comps(linkTarget))
    requires PathBeneath(Resolved(cwd, targetDir), path)
    ensures var root := Resolved(cwd, targetDir);
            root <= Resolved(cwd, JoinPath(Dir(path), linkTarget)) <==>
              path != Abs(cwd, targetDir) || [root[|root| - 1]] <= Comps(linkTarget)
  {
    var root := Resolved(cwd, targetDir);
    AbsSpells(cwd, targetDir);
    SpellComps(true, root);
    LinkLeadsTo(cwd, Comps(path), linkTarget);
    FromParent(root, Comps(path), Comps(linkTarget));
  }

  lemma LinkLeadsTo(cwd: string, comps: seq<string>, linkTarget: string)
    requires Proper(comps) && NoParent(comps) && comps != [] && NoParent(Comps(linkTarget))
    ensures Resolved(cwd, JoinPath(Dir(Spell(true, comps)), linkTarget)) == comps[..|comps| - 1] + Comps(linkTarget)
  {
    var dir, up := Dir(Spell(true, comps)), comps[..|comps| - 1];
    DirOfSpelled(comps);
    JoinResolved(cwd, dir, linkTarget);
    NormKeepsNoParent(true, up);
    NormNoParent(true, up, Comps(linkTarget));
  }

  lemma FromParent(root: seq<string>, comps: seq<string>, rest: seq<string>)
    requires root != [] && root <= comps
    ensures root <= comps[..|comps| - 1] + rest <==> comps != root || [root[|root| - 1]] <= rest
  {
    var up := comps[..|comps| - 1];
    if comps == root {
      var last := root[|root| - 1];
      assert root == up + [last];
      if root <= up + rest {
        assert (up + rest)[|up|] == last;
      }
    }
  }

  /** The directory of a spelled path drops its last component. */
  lemma DirOfSpelled(comps: seq<string>)
    requires Proper(comps) && comps != [] && NoParent(comps)
    ensures var dir := Dir(Spell(true, comps));
            IsAbs(dir) && Comps(dir) == comps[..|comps| - 1]
  {
    var up, last := comps[..|comps| - 1], comps[|comps| - 1];
    var front := if up == [] then "/" else Spell(true, up) + "/";
    SpellSnoc(up, last);
    assert comps == up + [last];
    SlashThenName(front, last);
    CleanComps(front);
    FrontSpelled(up);
    NormKeepsNoParent(true, up);
  }

  lemma SpellSnoc(up: seq<string>, last: string)
    ensures Spell(true, up + [last]) == (if up == [] then "/" else Spell(true, up) + "/") + last
  {
    if up == [] {
      assert up + [last] == [last];
    } else {
      JoinAppend(up, [last]);
    }
  }

  lemma FrontSpelled(up: seq<string>)
    requires Proper(up)
    ensures var front := if up == [] then "/" else Spell(true, up) + "/";
            IsAbs(front) && Comps(front) == up
  {
    SpellComps(true, up);
    if up == [] {
      CompsOfSlashed("", "");
      assert Comps("") == [] && "/" + "" == "/";
    } else {
      CompsOfSlashed(Spell(true, up), "");
    }
  }

  lemma {:induction false} SlashThenName(front: string, name: string)
    requires front != "" && front[|front| - 1] == '/' && '/' !in name
    ensures UptoSlash(front + name) == front
  {
    if name == "" {
      assert front + name == front;
    } else {
      var n := |name| - 1;
      assert (front + name)[..|front| + n] == front + name[..n];
      assert (front + name)[|front| + n] == name[n];
      SlashThenName(front, name[..n]);
    }
  }
}
