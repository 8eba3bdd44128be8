/** Where the caches keep their files, by the path arithmetic of oci/internal/cache/blob.go and storage.go. */
module CachePaths {
  import opened LexicalPath
  import opened Lists
  import opened Optional
  import opened Text

  /** A full path: a file that a cache makes, or any other place, given by its components. */
  datatype Path = BlobFile(hash: string) | RefFile(hash: string) | TagFile(name: string) | Elsewhere(comps: seq<string>)

  /** The components of the storage's root path. */
  function Base(root: string): seq<string> {
    Norm(true, [], Comps(root))
  }

  /** The file that is found at a path, from its components. */
  function Locate(base: seq<string>, full: seq<string>): Path {
    if base <= full then
      var rel := full[|base|..];
      if |rel| == 3 && rel[0] == "refs" && Sharded(rel[1..]) then RefFile(rel[2])
      else if |rel| == 3 && rel[0] == "blobs" && Sharded(rel[1..]) then BlobFile(rel[2])
      else if |rel| == 2 && rel[0] == "tags" then TagFile(rel[1])
      else Elsewhere(full)
    else Elsewhere(full)
  }

  /** A hash in the directory named by its first two characters. */
  predicate Sharded(rel: seq<string>) {
    |rel| == 2 && |rel[1]| >= 4 && rel[1][..2] == rel[0]
  }

  function Where(base: seq<string>, path: Path): seq<string> {
    match path
    case RefFile(hash) => base + ["refs", if |hash| >= 2 then hash[..2] else "", hash]
    case BlobFile(hash) => base + ["blobs", if |hash| >= 2 then hash[..2] else "", hash]
    case TagFile(name) => base + ["tags", name]
    case Elsewhere(comps) => comps
  }

  /** Nothing about a path is lost: different paths are different files. */
  lemma WhereLocate(base: seq<string>, full: seq<string>)
    ensures Where(base, Locate(base, full)) == full
  {
    if base <= full {
      assert full == base + full[|base|..];
      var rel := full[|base|..];
      if |rel| == 3 {
        assert rel == [rel[0], rel[1], rel[2]];
      } else if |rel| == 2 {
        assert rel == [rel[0], rel[1]];
      }
    }
  }

  /** The full path that the storage opens for a path given to it. */
  function FullPath(root: string, p: string): string {
    JoinPath(root, p)
  }

  function PathOf(root: string, p: string): Path {
    Locate(Base(root), Comps(FullPath(root, p)))
  }

  lemma FullPathComps(root: string, p: string)
    requires IsAbs(root)
    ensures Comps(FullPath(root, p)) == Norm(true, Base(root), Comps(p))
    ensures IsAbs(FullPath(root, p)) && FullPath(root, p) == Spell(true, Comps(FullPath(root, p)))
    ensures Proper(Comps(FullPath(root, p)))
  {
    var joined := root + "/" + p;
    assert joined[0] == root[0];
    CleanComps(joined);
    CompsAppend(root, p);
    NormAppend(true, [], Comps(root), Comps(p));
    CompsProper(FullPath(root, p));
  }

  /** Two paths given to the storage are the same file exactly when their full paths are the same string. */
  lemma SameFileExactly(root: string, p: string, q: string)
    requires IsAbs(root)
    ensures PathOf(root, p) == PathOf(root, q) <==> FullPath(root, p) == FullPath(root, q)
  {
    WhereLocate(Base(root), Comps(FullPath(root, p)));
    WhereLocate(Base(root), Comps(FullPath(root, q)));
    FullPathComps(root, p);
    FullPathComps(root, q);
  }

  /** getBlobPath and getRefPath, from the hash of a digest: filepath.Join of three elements. */
  function ShardPath(dir: string, hash: string): string
    requires |hash| >= 2
  {
    Clean(dir + "/" + hash[..2] + "/" + hash)
  }

  function RefPath(root: string, hash: string): Path
    requires |hash| >= 4
  {
    PathOf(root, ShardPath("refs", hash))
  }

  function BlobPath(root: string, hash: string): Path
    requires |hash| >= 4
  {
    PathOf(root, ShardPath("blobs", hash))
  }

  /** The path of a tag's file leads to it. */
  lemma TagPathLeads(root: string, name: string)
    requires IsAbs(root) && name != "" && name != "." && name != ".." && '/' !in name
    ensures PathOf(root, "tags/" + name) == TagFile(name)
  {
    OneComponent("tags");
    OneComponent(name);
    CompsAppend("tags", name);
    assert "tags" + "/" + name == "tags/" + name;
    FullPathComps(root, "tags/" + name);
    NormNoParent(true, Base(root), ["tags"] + [name]);
    LocateTag(Base(root), name);
  }

  lemma LocateTag(base: seq<string>, name: string)
    ensures Locate(base, base + (["tags"] + [name])) == TagFile(name)
  {
    assert (base + (["tags"] + [name]))[|base|..] == ["tags"] + [name];
  }

  /******* Which entry a hash names *******/

  /** Where the two elements lead from the directory of references or of blobs. */
  function FromDir(hash: string): seq<string>
    requires |hash| >= 4
  {
    Norm(false, [], Comps(hash[..2]) + Comps(hash))
  }

  /** The hash of the entry whose files a hash leads to. */
  function EntryOf(hash: string): Option<string>
    requires |hash| >= 4
  {
    if Sharded(FromDir(hash)) && FromDir(hash)[0] != ".." then Some(FromDir(hash)[1]) else None
  }

  lemma ShardPathComps(root: string, dir: string, hash: string)
    requires IsAbs(root) && |hash| >= 4 && dir != "" && Comps(dir) == [dir] && dir != ".."
    ensures Comps(FullPath(root, ShardPath(dir, hash))) == Norm(true, Base(root) + [dir], FromDir(hash))
    ensures NoParent(Base(root))
  {
    var q := dir + "/" + hash[..2] + "/" + hash;
    RelativeStart(dir);
    ShardComps(dir, hash);
    CleanComps(q);
    FullPathComps(root, ShardPath(dir, hash));
    RootedNoParent([], Comps(root));
    InStages(Base(root), dir, Comps(hash[..2]) + Comps(hash));
  }

  lemma ShardComps(dir: string, hash: string)
    requires |hash| >= 2 && dir != "" && Comps(dir) == [dir] && !IsAbs(dir)
    ensures var q := dir + "/" + hash[..2] + "/" + hash;
            Comps(q) == [dir] + (Comps(hash[..2]) + Comps(hash)) && !IsAbs(q)
  {
    var q := dir + "/" + hash[..2] + "/" + hash;
    CompsAppend(dir + "/" + hash[..2], hash);
    CompsAppend(dir, hash[..2]);
    Regroup([dir], Comps(hash[..2]), Comps(hash));
    assert q[0] == dir[0];
  }

  /** Cleaning a path below a directory first, or the part below it, makes no difference. */
  lemma InStages(base: seq<string>, dir: string, rest: seq<string>)
    requires NoParent(base) && dir != ".."
    ensures Norm(true, base, Norm(false, [], [dir] + rest)) == Norm(true, base + [dir], Norm(false, [], rest))
  {
    NormFirst(false, base, [dir] + rest);
    NormCons(true, base, dir, rest);
    NormFirst(false, base + [dir], rest);
  }

  lemma RelativeStart(dir: string)
    requires dir != "" && Comps(dir) == [dir]
    ensures dir[0] != '/'
  {
    CompsProper(dir);
    assert dir == Comps(dir)[0];
  }

  lemma DirsAreComponents()
    ensures Comps("refs") == ["refs"] && Comps("blobs") == ["blobs"]
  {
    SplitOne("refs", '/');
    SplitOne("blobs", '/');
  }

  /** A relative normal form begins with "..", or has none. */
  lemma {:induction false} ParentsComeFirst(comps: seq<string>)
    ensures var x := Norm(false, [], comps); x == [] || x[0] == ".." || NoParent(x)
  {
    if comps != [] {
      ParentsComeFirst(comps[..|comps| - 1]);
    }
  }

  lemma NormCons(rooted: bool, stack: seq<string>, c: string, rest: seq<string>)
    ensures Norm(rooted, stack, [c]) == Push(rooted, stack, c)
    ensures Norm(rooted, stack, [c] + rest) == Norm(rooted, Push(rooted, stack, c), rest)
  {
    assert [c][..0] == [];
    NormAppend(rooted, stack, [c], rest);
  }

  lemma FromBase(base: seq<string>, dir: string, x: seq<string>)
    requires dir != ".." && (x == [] || x[0] == ".." || NoParent(x))
    ensures Norm(true, base + [dir], x) == if x != [] && x[0] == ".." then Norm(true, base, x[1..]) else base + [dir] + x
  {
    if x != [] && x[0] == ".." {
      assert x == [".."] + x[1..];
      NormCons(true, base + [dir], "..", x[1..]);
      assert (base + [dir])[..|base|] == base;
    } else {
      NormNoParent(true, base + [dir], x);
    }
  }

  /** The file that x leads to from one of the two directories: one that climbs out forgets which it was. */
  function LeadsTo(base: seq<string>, dir: string, x: seq<string>): Path {
    if x != [] && x[0] == ".." then Locate(base, Norm(true, base, x[1..])) else Locate(base, base + [dir] + x)
  }

  lemma PathsLead(root: string, hash: string)
    requires IsAbs(root) && |hash| >= 4
    ensures RefPath(root, hash) == LeadsTo(Base(root), "refs", FromDir(hash))
    ensures BlobPath(root, hash) == LeadsTo(Base(root), "blobs", FromDir(hash))
  {
    DirsAreComponents();
    ShardPathComps(root, "refs", hash);
    ShardPathComps(root, "blobs", hash);
    ParentsComeFirst(Comps(hash[..2]) + Comps(hash));
    FromBase(Base(root), "refs", FromDir(hash));
    FromBase(Base(root), "blobs", FromDir(hash));
  }

  /** In the two directories there are only the files of hashes. */
  lemma LocateInDir(base: seq<string>, dir: string, x: seq<string>)
    requires dir == "refs" || dir == "blobs"
    ensures var full := base + [dir] + x;
            Locate(base, full) ==
              if !Sharded(x) then Elsewhere(full) else if dir == "refs" then RefFile(x[1]) else BlobFile(x[1])
  {
    var full := base + [dir] + x;
    assert full[|base|..] == [dir] + x;
    assert ([dir] + x)[1..] == x;
  }

  /** A hash that names an entry leads to the files of that entry. */
  lemma EntryPaths(root: string, hash: string)
    requires IsAbs(root) && |hash| >= 4 && EntryOf(hash).Some?
    ensures RefPath(root, hash) == RefFile(EntryOf(hash).value)
    ensures BlobPath(root, hash) == BlobFile(EntryOf(hash).value)
  {
    PathsLead(root, hash);
    LocateInDir(Base(root), "refs", FromDir(hash));
    LocateInDir(Base(root), "blobs", FromDir(hash));
  }

  /** A hash that names none leads from both directories to one and the same place, or elsewhere from each. */
  lemma NoEntryPaths(root: string, hash: string)
    requires IsAbs(root) && |hash| >= 4 && EntryOf(hash).None?
    ensures RefPath(root, hash) == BlobPath(root, hash) || (RefPath(root, hash).Elsewhere? && BlobPath(root, hash).Elsewhere?)
  {
    PathsLead(root, hash);
    LocateInDir(Base(root), "refs", FromDir(hash));
    LocateInDir(Base(root), "blobs", FromDir(hash));
  }

  /** A hash that names no entry and still leads to a file of the caches. */
  predicate Strays(root: string, hash: string)
    requires |hash| >= 4
  {
    EntryOf(hash).None? && !RefPath(root, hash).Elsewhere?
  }

  predicate Plain(hash: string) {
    |hash| >= 4 && '/' !in hash && hash[..2] != ".."
  }

  /** A hash without a slash, such as that of any valid digest, names itself, or nothing when it begins with two dots. */
  lemma SlashFree(root: string, hash: string)
    requires IsAbs(root) && |hash| >= 4 && '/' !in hash
    ensures EntryOf(hash) == if hash[..2] == ".." then None else Some(hash)
    ensures !Strays(root, hash)
  {
    PlainFromDir(hash);
    PathsLead(root, hash);
    DotsLead(Base(root), hash);
  }

  lemma PlainFromDir(hash: string)
    requires |hash| >= 4 && '/' !in hash
    ensures FromDir(hash) == [hash[..2], hash]
  {
    OneComponent(hash);
    OneComponent(hash[..2]);
    TwoPushed(hash[..2], hash);
  }

  lemma TwoPushed(a: string, b: string)
    requires b != ".."
    ensures Norm(false, [], [a] + [b]) == [a, b]
  {
    NormCons(false, [], a, [b]);
    assert [] + [a] == [a];
    NormCons(false, [a], b, []);
    assert [a] + [b] == [a, b];
  }

  /** A name beside the two directories is not a file of the caches. */
  lemma DotsLead(base: seq<string>, name: string)
    requires name != ".."
    ensures LeadsTo(base, "refs", ["..", name]).Elsewhere?
  {
    assert ["..", name][1..] == [name];
    NormCons(true, base, name, []);
    assert (base + [name])[|base|..] == [name];
  }

  lemma OneComponent(c: string)
    requires c != "" && c != "." && '/' !in c
    ensures Comps(c) == [c]
  {
    SplitOne(c, '/');
    SignificantProper([c]);
  }

  /** A hash leads to the two files of a slash-free one exactly when that is the entry it names. */
  lemma SameFilesExactly(root: string, hash: string, plain: string)
    requires IsAbs(root) && |hash| >= 4 && Plain(plain)
    ensures RefPath(root, hash) == RefPath(root, plain) && BlobPath(root, hash) == BlobPath(root, plain) <==>
            EntryOf(hash) == Some(plain)
  {
    SlashFree(root, plain);
    EntryPaths(root, plain);
    if EntryOf(hash).Some? {
      EntryPaths(root, hash);
    } else {
      NoEntryPaths(root, hash);
    }
  }

  /** Every plain hash has another spelling, with a detour, that leads to its files. */
  lemma DetourNamesAnother(plain: string)
    requires Plain(plain)
    ensures var hash := plain[..2] + "/../" + plain;
            hash != plain && EntryOf(hash) == Some(plain)
  {
    var p := plain[..2];
    var hash := p + "/../" + plain;
    assert hash == p + "/" + (".." + "/" + plain);
    CompsAppend(p, ".." + "/" + plain);
    CompsAppend("..", plain);
    OneComponent(p);
    OneComponent("..");
    OneComponent(plain);
    assert hash[..2] == p;
    DetourNorm(p, plain);
    assert [p] + ([p] + ([".."] + [plain])) == [p] + ([p] + ([".."] + ([plain] + [])));
  }

  lemma DetourNorm(p: string, name: string)
    requires p != ".." && name != ".."
    ensures Norm(false, [], [p] + ([p] + ([".."] + ([name] + [])))) == [p, name]
  {
    TwoUp(p, [".."] + ([name] + []));
    NormCons(false, [p, p], "..", [name] + []);
    assert [p, p][..1] == [p];
    NormCons(false, [p], name, []);
    assert [p] + [name] == [p, name];
  }

  lemma TwoUp(p: string, rest: seq<string>)
    requires p != ".."
    ensures Norm(false, [], [p] + ([p] + rest)) == Norm(false, [p, p], rest)
  {
    NormCons(false, [], p, [p] + rest);
    assert [] + [p] == [p] && [p] + [p] == [p, p];
    NormCons(false, [p], p, rest);
  }

  /** Every plain hash has a spelling that climbs out, and leads to its blob from references and blobs alike. */
  lemma ClimbingStrays(root: string, plain: string)
    requires IsAbs(root) && Plain(plain)
    ensures var hash := Climbing(plain);
            |hash| >= 4 && Strays(root, hash) && RefPath(root, hash) == BlobPath(root, hash) == BlobFile(plain)
  {
    ClimbingFromDir(plain);
    PathsLead(root, Climbing(plain));
    ClimbingLeads(Base(root), plain);
  }

  lemma ClimbingLeads(base: seq<string>, plain: string)
    requires Plain(plain)
    ensures var x := ["..", "blobs", plain[..2], plain];
            LeadsTo(base, "refs", x) == LeadsTo(base, "blobs", x) == BlobFile(plain)
  {
    var x, rest := ["..", "blobs", plain[..2], plain], ["blobs", plain[..2], plain];
    assert x[1..] == rest && '/' !in plain;
    NormNoParent(true, base, rest);
    assert base + rest == base + ["blobs"] + [plain[..2], plain];
    LocateInDir(base, "blobs", [plain[..2], plain]);
  }

  function Climbing(plain: string): string
    requires |plain| >= 2
  {
    plain[..2] + "/" + (".." + "/" + (".." + "/" + (".." + "/" + ("blobs" + "/" + (plain[..2] + "/" + plain)))))
  }

  lemma ClimbingFromDir(plain: string)
    requires Plain(plain)
    ensures |Climbing(plain)| >= 4 && FromDir(Climbing(plain)) == ["..", "blobs", plain[..2], plain]
  {
    var p := plain[..2];
    var down := ["blobs"] + ([p] + [plain]);
    assert down == ["blobs", p, plain];
    ClimbingComps(plain);
    ClimbingNorm(p, down);
  }

  lemma ClimbingComps(plain: string)
    requires Plain(plain)
    ensures |Climbing(plain)| >= 4
    ensures var p, hash := plain[..2], Climbing(plain);
            && Comps(hash[..2]) == [p]
            && Comps(hash) == [p] + ([".."] + ([".."] + ([".."] + (["blobs"] + ([p] + [plain])))))
  {
    var p := plain[..2];
    var tail := "blobs" + "/" + (p + "/" + plain);
    OneComponent(p);
    OneComponent("..");
    OneComponent("blobs");
    OneComponent(plain);
    CompsAppend(p, plain);
    CompsAppend("blobs", p + "/" + plain);
    CompsAppend("..", tail);
    CompsAppend("..", ".." + "/" + tail);
    CompsAppend("..", ".." + "/" + (".." + "/" + tail));
    CompsAppend(p, ".." + "/" + (".." + "/" + (".." + "/" + tail)));
    assert Climbing(plain)[..2] == p;
  }

  lemma ClimbingNorm(p: string, down: seq<string>)
    requires p != ".." && NoParent(down)
    ensures Norm(false, [], [p] + ([p] + ([".."] + ([".."] + ([".."] + down))))) == [".."] + down
  {
    TwoUp(p, [".."] + ([".."] + ([".."] + down)));
    NormCons(false, [p, p], "..", [".."] + ([".."] + down));
    assert [p, p][..1] == [p] && [p][..0] == [];
    NormCons(false, [p], "..", [".."] + down);
    NormCons(false, [], "..", down);
    assert [] + [".."] == [".."];
    NormNoParent(false, [".."], down);
  }
}
