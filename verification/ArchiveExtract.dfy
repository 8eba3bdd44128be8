/** The extraction loop of oci/archive_targz.go: header after header, with running counts against the limits. */
module ArchiveExtract {
  import opened ArchivePaths
  import opened LexicalPath
  import opened Lists
  import opened PathValidation

  const MAX_INT64 := 0x7fff_ffff_ffff_ffff

  type Int64 = x: int | -MAX_INT64 - 1 <= x <= MAX_INT64

  type Size = x: int | 0 <= x <= MAX_INT64

  datatype Kind = Directory | Regular | Symlink | OtherKind

  /** A tar header, whose size is not negative, and the content that follows it. */
  datatype Header = Header(name: string, size: Size, setuid: bool, setgid: bool, kind: Kind, linkName: string, content: string)

  /** Limits of zero or less are off. */
  datatype Options = Options(stripPrefix: string, maxFiles: Int64, maxFileSize: Int64, maxSize: Int64)

  /** What an extraction is given: where a header leads, which link targets pass, the target directory and the limits. */
  datatype Config = Config(place: Header -> Checked, linkPasses: Header -> bool, targetDir: string, options: Options)

  /** The validators as the source sets them up. */
  function ConfigFor(cwd: string, targetDir: string, options: Options): Config {
    Config((h: Header) => ResolvedName(cwd, targetDir, options, h),
           (h: Header) => ValidateSymlink(cwd, targetDir, h.name, h.linkName),
           targetDir, options)
  }

  function ResolvedName(cwd: string, targetDir: string, o: Options, h: Header): Checked {
    NormalizeAndResolvePath(cwd, false, h.name, o.stripPrefix, targetDir, Abs(cwd, targetDir))
  }

  /** A call on the filesystem, made whether or not it succeeds. */
  datatype Call =
    | MkdirAll(path: string)
    | WriteFile(path: string, content: string)
    | MakeLink(path: string, target: string)

  /** Addition of int64 values. */
  function Add64(a: Int64, b: Int64): (r: Int64)
    ensures -MAX_INT64 - 1 <= a + b <= MAX_INT64 ==> r == a + b
    ensures a + b > MAX_INT64 ==> r < 0
  {
    (a + b + MAX_INT64 + 1) % 0x1_0000_0000_0000_0000 - MAX_INT64 - 1
  }

  /******* What one header has to pass *******/

  predicate FileAllowed(o: Options, h: Header) {
    !(o.maxFileSize > 0 && h.size > o.maxFileSize) && !h.setuid && !h.setgid
  }

  predicate ArchiveAllowed(o: Options, fileCount: int, totalSize: int) {
    !(o.maxSize > 0 && totalSize > o.maxSize) && !(o.maxFiles > 0 && fileCount > o.maxFiles)
  }

  predicate LinkAllowed(c: Config, h: Header) {
    h.kind.Symlink? ==> c.linkPasses(h)
  }

  /** The gates before the first call, for the header with this number and the total up to it. */
  predicate Enters(c: Config, h: Header, fileCount: int, totalSize: int) {
    c.place(h).Within? && FileAllowed(c.options, h) && ArchiveAllowed(c.options, fileCount, totalSize)
  }

  /** All the gates. */
  predicate Admissible(c: Config, h: Header, fileCount: int, totalSize: int) {
    Enters(c, h, fileCount, totalSize) && LinkAllowed(c, h)
  }

  function Action(h: Header, path: string): seq<Call> {
    match h.kind
    case Directory => [MkdirAll(path)]
    case Regular => [WriteFile(path, h.content)]
    case Symlink => [MakeLink(path, h.linkName)]
    case OtherKind => []
  }

  /** The calls for one header when none fails: the parent directory comes before the test of a link. */
  function CallsOf(c: Config, h: Header, fileCount: int, totalSize: int): seq<Call> {
    if !Enters(c, h, fileCount, totalSize) then []
    else
      var path := c.place(h).path;
      [MkdirAll(Dir(path))] + if LinkAllowed(c, h) then Action(h, path) else []
  }

  /** The running total, in 64 bits. */
  function Total(headers: seq<Header>): Int64 {
    if headers == [] then 0 else Add64(Total(headers[..|headers| - 1]), headers[|headers| - 1].size)
  }

  /** Every header passed the gates when its turn came. */
  predicate AllAdmissible(c: Config, headers: seq<Header>) {
    var n := |headers|;
    n == 0 || (AllAdmissible(c, headers[..n - 1]) && Admissible(c, headers[n - 1], n, Total(headers)))
  }

  /** All the calls when none fails; the target directory is made first. */
  function Plan(c: Config, headers: seq<Header>): seq<Call> {
    var n := |headers|;
    if n == 0 then [MkdirAll(c.targetDir)] else Plan(c, headers[..n - 1]) + CallsOf(c, headers[n - 1], n, Total(headers))
  }

  lemma OneMore(c: Config, headers: seq<Header>, n: nat)
    requires n < |headers|
    ensures var total := Total(headers[..n + 1]);
            && total == Add64(Total(headers[..n]), headers[n].size)
            && Plan(c, headers[..n + 1]) == Plan(c, headers[..n]) + CallsOf(c, headers[n], n + 1, total)
            && (AllAdmissible(c, headers[..n + 1]) <==> AllAdmissible(c, headers[..n]) && Admissible(c, headers[n], n + 1, total))
  {
    assert headers[..n + 1][..n] == headers[..n];
  }

  /** The calls were made, or as many of them as until one failed. */
  ghost predicate Made(before: seq<Call>, planned: seq<Call>, all: bool, calls: seq<Call>) {
    if all then calls == before + planned else before <= calls <= before + planned
  }

  lemma {:induction false} PlanBegins(c: Config, headers: seq<Header>)
    ensures [MkdirAll(c.targetDir)] <= Plan(c, headers)
  {
    if headers != [] {
      PlanBegins(c, headers[..|headers| - 1]);
    }
  }

  /******* What an extraction has done *******/

  /** How many calls come before those for header i: one for the target, and two for each header that is something. */
  function CallsBefore(headers: seq<Header>, i: nat): nat
    requires i <= |headers|
  {
    if i == 0 then 1 else CallsBefore(headers, i - 1) + if headers[i - 1].kind.OtherKind? then 1 else 2
  }

  /** The calls for one header, from call k: the parent directory, and then the directory, the file with its content or the
      link. */
  ghost predicate Fulfils(c: Config, h: Header, calls: seq<Call>, k: nat) {
    && c.place(h).Within? && k < |calls| && calls[k] == MkdirAll(Dir(c.place(h).path))
    && (!h.kind.OtherKind? ==> k + 1 < |calls|)
    && match h.kind
       case Directory => calls[k + 1] == MkdirAll(c.place(h).path)
       case Regular => calls[k + 1] == WriteFile(c.place(h).path, h.content)
       case Symlink => calls[k + 1] == MakeLink(c.place(h).path, h.linkName)
       case OtherKind => true
  }

  ghost predicate FulfilsHeader(c: Config, headers: seq<Header>, calls: seq<Call>, i: nat)
    requires i < |headers|
  {
    Fulfils(c, headers[i], calls, CallsBefore(headers, i))
  }

  /** Header after header has been extracted, after the target directory was made. */
  ghost predicate AllFulfilled(c: Config, headers: seq<Header>, calls: seq<Call>) {
    && |calls| >= CallsBefore(headers, |headers|) && calls[0] == MkdirAll(c.targetDir)
    && forall i :: 0 <= i < |headers| ==> FulfilsHeader(c, headers, calls, i)
  }

  lemma {:induction false} CallsBeforeFront(headers: seq<Header>, n: nat, i: nat)
    requires i <= n <= |headers|
    ensures CallsBefore(headers[..n], i) == CallsBefore(headers, i)
  {
    if i > 0 {
      CallsBeforeFront(headers, n, i - 1);
    }
  }

  lemma {:induction false} CallsBeforeGrows(headers: seq<Header>, i: nat, n: nat)
    requires i <= n <= |headers|
    ensures n - i <= CallsBefore(headers, n) - CallsBefore(headers, i)
    ensures i < n ==> CallsBefore(headers, i + 1) <= CallsBefore(headers, n)
    decreases n
  {
    if i < n {
      CallsBeforeGrows(headers, i, n - 1);
    }
  }

  /** Which header a call is made for. */
  lemma {:induction false} HeaderOfCall(headers: seq<Header>, n: nat, m: nat) returns (j: nat)
    requires n <= |headers| && 1 <= m < CallsBefore(headers, n)
    ensures j < n && CallsBefore(headers, j) <= m < CallsBefore(headers, j + 1)
    decreases n
  {
    if n > 0 && m >= CallsBefore(headers, n - 1) {
      j := n - 1;
    } else {
      j := HeaderOfCall(headers, n - 1, m);
    }
  }

  /** When all headers pass, the plan is to extract them all. */
  lemma {:induction false} PlanFulfils(c: Config, headers: seq<Header>)
    requires AllAdmissible(c, headers)
    ensures AllFulfilled(c, headers, Plan(c, headers)) && |Plan(c, headers)| == CallsBefore(headers, |headers|)
  {
    if headers != [] {
      var n := |headers| - 1;
      PlanFulfils(c, headers[..n]);
      var own := CallsOf(c, headers[n], n + 1, Total(headers));
      OwnCalls(c, headers[n], Plan(c, headers[..n]), n + 1, Total(headers));
      FulfilledNext(c, headers, Plan(c, headers[..n]), own);
    }
  }

  lemma OwnCalls(c: Config, h: Header, calls: seq<Call>, fileCount: int, totalSize: int)
    requires Admissible(c, h, fileCount, totalSize)
    ensures var own := CallsOf(c, h, fileCount, totalSize);
            Fulfils(c, h, calls + own, |calls|) && |own| == if h.kind.OtherKind? then 1 else 2
  {
  }

  lemma FulfilledNext(c: Config, headers: seq<Header>, calls: seq<Call>, own: seq<Call>)
    requires headers != []
    requires var n := |headers| - 1;
             && AllFulfilled(c, headers[..n], calls) && |calls| == CallsBefore(headers[..n], n)
             && Fulfils(c, headers[n], calls + own, |calls|) && |own| == if headers[n].kind.OtherKind? then 1 else 2
    ensures AllFulfilled(c, headers, calls + own) && |calls + own| == CallsBefore(headers, |headers|)
  {
    CountNext(headers);
    forall i | 0 <= i < |headers| - 1
      ensures FulfilsHeader(c, headers, calls + own, i)
    {
      FulfilledStill(c, headers, calls, own, i);
    }
    assert FulfilsHeader(c, headers, calls + own, |headers| - 1);
  }

  lemma CountNext(headers: seq<Header>)
    requires headers != []
    ensures var n := |headers| - 1;
            && 1 <= CallsBefore(headers, n) == CallsBefore(headers[..n], n)
            && CallsBefore(headers, |headers|) == CallsBefore(headers, n) + if headers[n].kind.OtherKind? then 1 else 2
  {
    CallsBeforeFront(headers, |headers| - 1, |headers| - 1);
    CallsBeforeGrows(headers, 0, |headers| - 1);
  }

  lemma FulfilledStill(c: Config, headers: seq<Header>, calls: seq<Call>, more: seq<Call>, i: nat)
    requires i < |headers| - 1 && AllFulfilled(c, headers[..|headers| - 1], calls)
    ensures FulfilsHeader(c, headers, calls + more, i)
  {
    CallsBeforeFront(headers, |headers| - 1, i);
    assert FulfilsHeader(c, headers[..|headers| - 1], calls, i);
  }

  lemma FulfilledMore(c: Config, headers: seq<Header>, calls: seq<Call>, more: seq<Call>)
    requires AllFulfilled(c, headers, calls) && calls <= more
    ensures AllFulfilled(c, headers, more)
  {
    forall i | 0 <= i < |headers|
      ensures FulfilsHeader(c, headers, more, i)
    {
      assert FulfilsHeader(c, headers, calls, i);
    }
  }

  /** With the header at which an extraction stopped, if there is one. */
  function Upto(headers: seq<Header>, n: nat): seq<Header>
    requires n <= |headers|
  {
    if n < |headers| then headers[..n + 1] else headers
  }

  class Extraction {
    const config: Config
    var fileCount: Int64
    var totalSize: Int64
    var calls: seq<Call>   // made on the filesystem so far
    ghost var faults: nat  // how often reading the archive or a call on the filesystem has failed

    ghost predicate At(headers: seq<Header>)
      reads this
    {
      && fileCount == |headers| && totalSize == Total(headers)
      && AllAdmissible(config, headers) && calls == Plan(config, headers)
    }

    constructor (config: Config)
      ensures fileCount == 0 && totalSize == 0 && calls == [] && this.config == config && faults == 0
    {
      this.config := config;
      fileCount, totalSize, calls, faults := 0, 0, [], 0;
    }

    method SystemFails() returns (fails: bool)
      modifies `faults
      ensures faults == old(faults) + if fails then 1 else 0
    {
      fails := *;
      if fails {
        faults := faults + 1;
      }
    }

    method Perform(call: Call) returns (ok: bool)
      modifies `faults, `calls
      ensures calls == old(calls) + [call]
      ensures faults == old(faults) + if ok then 0 else 1
    {
      calls := calls + [call];
      var fails := SystemFails();
      ok := !fails;
    }

    /** What comes before the first call. */
    method CheckHeader(h: Header) returns (fullPath: Checked)
      requires fileCount < MAX_INT64
      modifies `fileCount, `totalSize
      ensures fullPath.Within? <==> Enters(config, h, old(fileCount) + 1, Add64(old(totalSize), h.size))
      ensures fullPath.Within? ==> fullPath == config.place(h)
      ensures fullPath.Within? ==> fileCount == old(fileCount) + 1 && totalSize == Add64(old(totalSize), h.size)
    {
      fileCount := fileCount + 1;
      fullPath := config.place(h);
      if fullPath.Violation? {
        return;
      }
      if !FileAllowed(config.options, h) {
        return Violation;
      }
      if config.options.maxFiles > 0 && fileCount > config.options.maxFiles {
        return Violation;
      }
      totalSize := Add64(totalSize, h.size);
      if !ArchiveAllowed(config.options, fileCount, totalSize) {
        return Violation;
      }
    }

    method PerformExtraction(h: Header, path: string) returns (ok: bool)
      modifies `faults, `calls
      ensures old(faults) <= faults
      ensures ok <==> faults == old(faults) && LinkAllowed(config, h)
      ensures calls == old(calls) + if LinkAllowed(config, h) then Action(h, path) else []
    {
      ok := true;
      match h.kind
      case Directory => ok := Perform(MkdirAll(path));
      case Regular => ok := Perform(WriteFile(path, h.content));
      case Symlink =>
        if !LinkAllowed(config, h) {
          return false;
        }
        ok := Perform(MakeLink(path, h.linkName));
      case OtherKind =>
    }

    method HandleHeader(h: Header) returns (ok: bool)
      requires fileCount < MAX_INT64
      modifies this
      ensures old(faults) <= faults
      ensures ok ==> fileCount == old(fileCount) + 1 && totalSize == Add64(old(totalSize), h.size)
      ensures ok <==> faults == old(faults) && Admissible(config, h, old(fileCount) + 1, Add64(old(totalSize), h.size))
      ensures var o, count, total := config.options, old(fileCount) + 1, Add64(old(totalSize), h.size);
              ok <==>
                && faults == old(faults) && config.place(h).Within? && !h.setuid && !h.setgid
                && (h.kind.Symlink? ==> config.linkPasses(h))
                && (o.maxFileSize > 0 ==> h.size <= o.maxFileSize) && (o.maxSize > 0 ==> total <= o.maxSize)
                && (o.maxFiles > 0 ==> count <= o.maxFiles)
      ensures ok ==> Fulfils(config, h, calls, |old(calls)|) && |calls| == |old(calls)| + if h.kind.OtherKind? then 1 else 2
      ensures var planned := CallsOf(config, h, old(fileCount) + 1, Add64(old(totalSize), h.size));
              Made(old(calls), planned, faults == old(faults), calls)
    {
      var fullPath := CheckHeader(h);
      if fullPath.Violation? {
        return false;
      }
      ok := Perform(MkdirAll(Dir(fullPath.path)));
      if !ok {
        return;
      }
      ok := PerformExtraction(h, fullPath.path);
      Regroup(old(calls), [MkdirAll(Dir(fullPath.path))], if LinkAllowed(config, h) then Action(h, fullPath.path) else []);
    }

    /** The next header of the archive, when there is one. */
    method HandleNext(headers: seq<Header>, n: nat) returns (ok: bool)
      requires n < |headers| <= MAX_INT64 && At(headers[..n])
      modifies this
      ensures ok ==> At(headers[..n + 1]) && faults == old(faults)
      ensures old(faults) <= faults
      ensures !ok && faults == old(faults) ==> !Admissible(config, headers[n], n + 1, Total(headers[..n + 1]))
      ensures Plan(config, headers[..n]) <= calls <= Plan(config, headers[..n + 1])
      ensures faults == old(faults) ==> calls == Plan(config, headers[..n + 1])
    {
      OneMore(config, headers, n);
      var fails := SystemFails();  // tarReader.Next
      if fails {
        return false;
      }
      ok := HandleHeader(headers[n]);
    }

    /** Handles headers until one does not pass or something fails; n of them were handled. */
    method Extract(headers: seq<Header>) returns (ok: bool, n: nat)
      requires fileCount == 0 && totalSize == 0 && calls == [] && config.targetDir != "" && |headers| <= MAX_INT64
      modifies this
      ensures n <= |headers| && AllAdmissible(config, headers[..n])
      ensures ok ==> n == |headers| && At(headers) && |calls| == CallsBefore(headers, n)
      ensures calls <= Plan(config, Upto(headers, n))
      ensures ok || n > 0 ==> Plan(config, headers[..n]) <= calls && AllFulfilled(config, headers[..n], calls)
      ensures !ok && faults == old(faults) ==>
                && n < |headers| && !Admissible(config, headers[n], n + 1, Total(headers[..n + 1]))
                && calls == Plan(config, headers[..n + 1])
    {
      n := 0;
      var fails := SystemFails();  // the gzip reader
      if fails {
        return false, n;
      }
      ok := Perform(MkdirAll(config.targetDir));
      if !ok {
        PlanBegins(config, Upto(headers, 0));
        return;
      }
      ok, n := HandleAll(headers);
      PlanFulfils(config, headers[..n]);
      FulfilledMore(config, headers[..n], Plan(config, headers[..n]), calls);
      if ok {
        assert headers[..n] == headers;
      }
    }

    /** What holds after n headers: all is well so far, or the next one did not pass or something failed. */
    ghost predicate Handled(headers: seq<Header>, n: nat, ok: bool, faultless: bool)
      reads this
    {
      && n <= |headers| && AllAdmissible(config, headers[..n])
      && if ok then At(headers[..n]) && faultless
         else n < |headers| && StoppedAt(config, headers, n, calls, faultless)
    }

    method HandleAll(headers: seq<Header>) returns (ok: bool, n: nat)
      requires At([]) && |headers| <= MAX_INT64
      modifies this
      ensures n <= |headers| && AllAdmissible(config, headers[..n])
      ensures ok ==> n == |headers| && At(headers)
      ensures Plan(config, headers[..n]) <= calls <= Plan(config, Upto(headers, n))
      ensures old(faults) <= faults
      ensures !ok && faults == old(faults) ==> n < |headers| && StoppedAt(config, headers, n, calls, true)
    {
      ok, n := HandleEach(headers);
      if ok {
        assert headers[..n] == headers;
        var fails := SystemFails();  // tarReader.Next
        ok := !fails;
      }
    }

    method HandleEach(headers: seq<Header>) returns (ok: bool, n: nat)
      requires At([]) && |headers| <= MAX_INT64
      modifies this
      ensures old(faults) <= faults && Handled(headers, n, ok, faults == old(faults))
      ensures ok ==> n == |headers|
    {
      n, ok := 0, true;
      while ok && n < |headers|
        invariant old(faults) <= faults && Handled(headers, n, ok, faults == old(faults))
        decreases ok, |headers| - n
      {
        ok := HandleNext(headers, n);
        if ok {
          n := n + 1;
        }
      }
    }
  }

  /** The header with this number did not pass, or a call failed before or at it. */
  ghost predicate StoppedAt(c: Config, headers: seq<Header>, n: nat, calls: seq<Call>, faultless: bool)
    requires n < |headers|
  {
    && Plan(c, headers[..n]) <= calls <= Plan(c, headers[..n + 1])
    && (faultless ==> calls == Plan(c, headers[..n + 1]) && !Admissible(c, headers[n], n + 1, Total(headers[..n + 1])))
  }

  /******* Where the calls go *******/

  /** A call names a place at or beneath the root, or makes the directory above it, which is there. */
  ghost predicate CallBeneath(root: seq<string>, call: Call) {
    var comps := Comps(call.path);
    && IsAbs(call.path) && NoParent(comps)
    && (root <= comps || (call.MkdirAll? && comps <= root))
    && (call.MakeLink? ==> !IsAbs(call.target) && NoParent(Comps(call.target)))
  }

  /** What passes the tests leads to the root or beneath it, and no link target leads up. */
  ghost predicate Sound(c: Config, root: seq<string>) {
    && (forall h :: c.place(h).Within? ==> PathBeneath(root, c.place(h).path))
    && (forall h :: c.linkPasses(h) ==> !IsAbs(h.linkName) && NoParent(Comps(h.linkName)))
  }

  lemma ConfigIsSound(cwd: string, targetDir: string, o: Options)
    requires IsAbs(cwd) && targetDir != "" && Resolved(cwd, targetDir) != []
    ensures Sound(ConfigFor(cwd, targetDir, o), Resolved(cwd, targetDir))
  {
    var c := ConfigFor(cwd, targetDir, o);
    forall h | c.place(h).Within?
      ensures PathBeneath(Resolved(cwd, targetDir), c.place(h).path)
    {
      AcceptedIsBeneath(cwd, false, h.name, o.stripPrefix, targetDir, c.place(h).path);
    }
    forall h | c.linkPasses(h)
      ensures !IsAbs(h.linkName) && NoParent(Comps(h.linkName))
    {
      TraversalFreeHasNoParent(h.linkName);
    }
  }

  lemma ParentBeneath(root: seq<string>, path: string)
    requires root != [] && PathBeneath(root, path)
    ensures CallBeneath(root, MkdirAll(Dir(path)))
  {
    DirOfSpelled(Comps(path));
  }

  lemma ActionBeneath(c: Config, root: seq<string>, h: Header, call: Call)
    requires Sound(c, root) && c.place(h).Within? && LinkAllowed(c, h) && call in Action(h, c.place(h).path)
    ensures CallBeneath(root, call)
  {
    SpellComps(true, Comps(c.place(h).path));
  }

  /** Every call for every archive, admissible or not, stays at or beneath the target, and its links lead no way up. */
  lemma {:induction false} CallsStayBeneath(c: Config, root: seq<string>, headers: seq<Header>, i: nat)
    requires Sound(c, root) && root != [] && 0 < i < |Plan(c, headers)|
    ensures CallBeneath(root, Plan(c, headers)[i])
  {
    var n := |headers|;
    var front := Plan(c, headers[..n - 1]);
    if i < |front| {
      CallsStayBeneath(c, root, headers[..n - 1], i);
    } else {
      HeaderCallBeneath(c, root, headers[n - 1], n, Total(headers), i - |front|);
    }
  }

  lemma HeaderCallBeneath(c: Config, root: seq<string>, h: Header, fileCount: int, totalSize: int, i: nat)
    requires Sound(c, root) && root != [] && i < |CallsOf(c, h, fileCount, totalSize)|
    ensures CallBeneath(root, CallsOf(c, h, fileCount, totalSize)[i])
  {
    if i == 0 {
      ParentBeneath(root, c.place(h).path);
    } else {
      ActionBeneath(c, root, h, CallsOf(c, h, fileCount, totalSize)[i]);
    }
  }
}
