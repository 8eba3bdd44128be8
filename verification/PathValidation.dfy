/** The validator of oci/internal/validate/path.go; a predicate is true when the source returns no error. */
module PathValidation {
  import opened Text
  import opened LexicalPath

  predicate WhitespaceOnly(path: string) {
    forall i :: 0 <= i < |path| ==> path[i] == ' ' || path[i] == '\t' || path[i] == '\n' || path[i] == '\r'
  }

  predicate Letter(c: char) {
    'A' <= c <= 'Z' || 'a' <= c <= 'z'
  }

  /** Absolute on Unix, a Windows drive, or a UNC share. */
  predicate AbsoluteAnywhere(path: string) {
    || IsAbs(path)
    || (|path| >= 3 && path[1] == ':' && (path[2] == '\\' || path[2] == '/') && Letter(path[0]))
    || HasPrefix(path, "\\\\")
  }

  function ToLower(s: string): string {
    seq(|s|, i requires 0 <= i < |s| => if 'A' <= s[i] <= 'Z' then s[i] + 32 as char else s[i])
  }

  const ENCODED_VARIANTS := ["..%2f", "..%5c", "%2e%2e%2f", "%2e%2e%5c", "%2e%2e/", "%2e%2e\\", "..%c0%af", "..%c1%9c"]

  predicate HasEncodedTraversal(path: string) {
    exists i :: 0 <= i < |ENCODED_VARIANTS| && Contains(ToLower(path), ENCODED_VARIANTS[i])
  }

  predicate ContainsPathTraversal(path: string) {
    Contains(path, "..") && (".." in Split(path, '/') || ".." in Split(path, '\\'))
  }

  predicate TraversalFree(path: string) {
    && !HasEncodedTraversal(path)
    && !HasPrefix(Clean(path), "..")
    && !ContainsPathTraversal(path)
  }

  /** Tab, line feed and carriage return pass; other control characters, DEL and anything beyond ASCII do not. */
  predicate PlainCharacters(path: string) {
    forall i :: 0 <= i < |path| ==>
      (path[i] as int >= 32 || path[i] as int == 9 || path[i] as int == 10 || path[i] as int == 13) && path[i] as int < 127
  }

  predicate Hidden(path: string) {
    var parts := Split(path, '/');
    exists i :: 0 <= i < |parts| && HasPrefix(parts[i], ".") && parts[i] != "." && parts[i] != ".."
  }

  predicate ValidatePath(allowHidden: bool, path: string) {
    && path != ""
    && !WhitespaceOnly(path)
    && !AbsoluteAnywhere(path)
    && TraversalFree(path)
    && PlainCharacters(path)
    && (allowHidden || !Hidden(path))
  }

  /** Where the validator takes a link target to lead: from the directory the link's name puts it in. */
  function LinkTarget(linkPath: string, targetPath: string): string {
    var linkDir := if Dir(linkPath) == "." && '/' !in linkPath then "" else Dir(linkPath);
    Clean(if linkDir == "" then targetPath else JoinPath(linkDir, targetPath))
  }

  /** The last test is a plain string prefix. */
  predicate ValidateSymlink(cwd: string, rootPath: string, linkPath: string, targetPath: string) {
    && rootPath != ""
    && !AbsoluteAnywhere(targetPath)
    && TraversalFree(targetPath)
    && HasPrefix(Abs(cwd, JoinPath(rootPath, LinkTarget(linkPath, targetPath))), Abs(cwd, rootPath))
  }

  /** A path without traversal has no parent component. */
  lemma TraversalFreeHasNoParent(path: string)
    requires TraversalFree(path)
    ensures NoParent(Comps(path))
  {
    if ".." in Split(path, '/') {
      PartIsContained(path, '/', "..");
    }
    assert forall i :: 0 <= i < |Comps(path)| ==> Comps(path)[i] in Comps(path);
  }

  lemma {:induction false} PartIsContained(s: string, c: char, part: string)
    requires part in Split(s, c)
    ensures exists i :: OccursAt(s, part, i)
  {
    var parts := Split(s, c);
    if part == parts[0] {
      SplitFirst(s, c);
      assert OccursAt(s, part, 0);
    } else {
      var rest := Split(s[1..], c);
      assert part in rest;
      PartIsContained(s[1..], c, part);
      var i :| OccursAt(s[1..], part, i);
      assert s[1..][i..i + |part|] == s[i + 1..i + 1 + |part|];
      assert OccursAt(s, part, i + 1);
    }
  }

  lemma {:induction false} SplitFirst(s: string, c: char)
    ensures HasPrefix(s, Split(s, c)[0])
  {
    if s != "" && s[0] != c {
      SplitFirst(s[1..], c);
      var first := Split(s[1..], c)[0];
      assert s[..|first| + 1] == [s[0]] + s[1..][..|first|];
    }
  }

  /******* What passes *******/

  /** A relative path is free of traversal exactly when no part of it is "..", cut at slashes or at backslashes, its first
      component does not begin with two dots, and it holds none of the encoded forms. */
  lemma TraversalFreeExactly(path: string)
    requires !IsAbs(path)
    ensures TraversalFree(path) <==>
              && ".." !in Split(path, '/') && ".." !in Split(path, '\\')
              && (Comps(path) != [] ==> !HasPrefix(Comps(path)[0], ".."))
              && !HasEncodedTraversal(path)
  {
    if ".." in Split(path, '/') {
      PartIsContained(path, '/', "..");
    } else {
      assert forall i :: 0 <= i < |Comps(path)| ==> Comps(path)[i] in Comps(path);
      CleanBegins(path);
      if ".." in Split(path, '\\') {
        PartIsContained(path, '\\', "..");
      }
    }
  }

  lemma CleanBegins(path: string)
    requires !IsAbs(path) && NoParent(Comps(path))
    ensures HasPrefix(Clean(path), "..") <==> Comps(path) != [] && HasPrefix(Comps(path)[0], "..")
  {
    var comps := Comps(path);
    NormNoParent(false, [], comps);
    assert [] + comps == comps;
    CompsProper(path);
    if |comps| > 1 {
      JoinBegins(comps[0], Join(comps[1..], '/'));
    }
  }

  lemma JoinBegins(first: string, rest: string)
    requires first != "" && first != "."
    ensures HasPrefix(first + ['/'] + rest, "..") <==> HasPrefix(first, "..")
  {
    var s := first + ['/'] + rest;
    assert s[0] == first[0] && s[1] == if |first| > 1 then first[1] else '/';
    assert s[..2] == [s[0], s[1]];
    if |first| > 1 {
      assert first[..2] == [first[0], first[1]];
    }
  }

  /** Visible characters but for the backslash, the percent sign and the colon. */
  predicate Ordinary(c: char) {
    '!' <= c <= '~' && c != '\\' && c != '%' && c != ':'
  }

  /** Ordinary relative paths pass, when no component begins with a dot. */
  lemma OrdinaryPasses(allowHidden: bool, path: string)
    requires path != "" && !IsAbs(path) && forall i :: 0 <= i < |path| ==> Ordinary(path[i])
    requires forall i :: 0 <= i < |Comps(path)| ==> !HasPrefix(Comps(path)[i], ".")
    ensures ValidatePath(allowHidden, path)
  {
    assert Ordinary(path[0]);
    NoDotParts(path);
    OrdinaryIsTraversalFree(path);
    OrdinaryIsRelative(path);
  }

  lemma OrdinaryIsRelative(path: string)
    requires !IsAbs(path) && forall i :: 0 <= i < |path| ==> Ordinary(path[i])
    ensures !AbsoluteAnywhere(path)
  {
    if HasPrefix(path, "\\\\") {
      PrefixBegins(path, "\\\\");
    }
  }

  lemma PrefixBegins(s: string, p: string)
    requires HasPrefix(s, p) && p != ""
    ensures s[0] == p[0]
  {
    assert s[..|p|][0] == s[0];
  }

  lemma OrdinaryIsTraversalFree(path: string)
    requires !IsAbs(path) && forall i :: 0 <= i < |path| ==> Ordinary(path[i])
    requires forall i :: 0 <= i < |Comps(path)| ==> !HasPrefix(Comps(path)[i], ".")
    ensures TraversalFree(path)
  {
    SplitOne(path, '\\');
    NoDotParts(path);
    NoPercent(path);
    TraversalFreeExactly(path);
  }

  lemma TwoDots(s: string)
    ensures HasPrefix(s, "..") ==> HasPrefix(s, ".")
  {
    assert |s| >= 2 ==> s[..1] == s[..2][..1];
  }

  lemma NoDotParts(path: string)
    requires forall i :: 0 <= i < |Comps(path)| ==> !HasPrefix(Comps(path)[i], ".")
    ensures forall part :: part in Split(path, '/') && HasPrefix(part, ".") ==> part == "."
    ensures path != ".."
    ensures Comps(path) != [] ==> !HasPrefix(Comps(path)[0], "..")
  {
    forall part | part in Split(path, '/') && HasPrefix(part, ".")
      ensures part == "."
    {
      assert part == "." || part in Comps(path);
    }
    SplitOne("..", '/');
    assert ".."[..1] == ".";
    if Comps(path) != [] {
      TwoDots(Comps(path)[0]);
    }
  }

  lemma NoPercent(path: string)
    requires '%' !in path
    ensures !HasEncodedTraversal(path)
  {
    forall k | 0 <= k < |ENCODED_VARIANTS|
      ensures !Contains(ToLower(path), ENCODED_VARIANTS[k])
    {
      var variant := ENCODED_VARIANTS[k];
      assert '%' in variant;
      if i :| OccursAt(ToLower(path), variant, i) {
        PercentKept(path, variant, i);
      }
    }
  }

  lemma PercentKept(path: string, sub: string, i: int)
    requires OccursAt(ToLower(path), sub, i) && '%' in sub
    ensures '%' in path
  {
    var j :| 0 <= j < |sub| && sub[j] == '%';
    assert ToLower(path)[i..i + |sub|][j] == ToLower(path)[i + j];
    assert path[i + j] == '%';
  }
}
