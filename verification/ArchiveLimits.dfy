/** Which limits of oci/archive_targz.go hold: the running total is an int64, and may go round. */
module ArchiveLimits {
  import opened ArchiveExtract
  import opened ArchivePaths
  import opened LexicalPath
  import opened PathValidation
  import opened Text

  function SumOfSizes(headers: seq<Header>): nat {
    if headers == [] then 0 else SumOfSizes(headers[..|headers| - 1]) + headers[|headers| - 1].size
  }

  function Min(a: nat, b: nat): nat {
    if a <= b then a else b
  }

  function LargestFile(o: Options): (f: int)
    ensures 0 < f <= MAX_INT64
  {
    if o.maxFileSize > 0 then o.maxFileSize else MAX_INT64
  }

  /** The most that the headers before the last can come to. */
  function LargestBefore(o: Options): nat
    requires o.maxSize > 0
  {
    if o.maxFiles > 0 then Min(o.maxSize, (o.maxFiles - 1) * LargestFile(o)) else o.maxSize
  }

  /** No header can carry the total past 64 bits. */
  predicate NeverWraps(o: Options) {
    o.maxSize > 0 ==> LargestBefore(o) + LargestFile(o) <= MAX_INT64
  }

  ghost predicate WithinLimit(o: Options, headers: seq<Header>) {
    o.maxSize > 0 ==> SumOfSizes(headers) <= o.maxSize
  }

  /******* Limits that hold *******/

  lemma {:induction false} CountHolds(c: Config, headers: seq<Header>)
    requires AllAdmissible(c, headers)
    ensures c.options.maxFiles > 0 ==> |headers| <= c.options.maxFiles
    ensures SumOfSizes(headers) <= |headers| * LargestFile(c.options)
  {
    if headers != [] {
      var n := |headers| - 1;
      CountHolds(c, headers[..n]);
      assert |headers| * LargestFile(c.options) == n * LargestFile(c.options) + LargestFile(c.options);
    }
  }

  lemma {:induction false} TotalIsSum(c: Config, headers: seq<Header>)
    requires AllAdmissible(c, headers) && c.options.maxSize > 0 && NeverWraps(c.options)
    ensures Total(headers) == SumOfSizes(headers) <= c.options.maxSize
  {
    if headers != [] {
      var o, n := c.options, |headers| - 1;
      var front, last := headers[..n], headers[n];
      TotalIsSum(c, front);
      CountHolds(c, front);
      assert Admissible(c, last, n + 1, Total(headers));
      if o.maxFiles > 0 {
        TimesAtMost(n, o.maxFiles - 1, LargestFile(o));
      }
      assert SumOfSizes(front) + last.size <= MAX_INT64;
    }
  }

  lemma TimesAtMost(a: nat, b: int, f: nat)
    requires a <= b
    ensures a * f <= b * f
  {
  }

  /******* Limits that do not *******/

  const DOT := "."

  /** An entry for the target directory itself: its size counts, and no content has to follow. */
  function Entry(size: Size): Header {
    Header(DOT, size, false, false, Directory, "", "")
  }

  /** Entries of at most f that come to this total. */
  function Filled(total: nat, f: Size): seq<Header>
    requires f > 0
  {
    if total == 0 then [] else Filled(total - Min(total, f), f) + [Entry(Min(total, f))]
  }

  lemma {:induction false} FilledCount(total: nat, f: Size, n: nat)
    requires f > 0 && total <= n * f
    ensures |Filled(total, f)| <= n
  {
    if total > 0 {
      assert n > 0;
      assert n * f == (n - 1) * f + f;
      FilledCount(total - Min(total, f), f, n - 1);
    }
  }

  /** Such an entry passes the path tests, whatever prefix is stripped. */
  lemma EntryIsPlaced(cwd: string, targetDir: string, o: Options, size: Size)
    requires IsAbs(cwd) && targetDir != ""
    ensures ConfigFor(cwd, targetDir, o).place(Entry(size)).Within?
  {
    DotIsValid(DOT);
    MemberIsRoot(cwd, targetDir, Stripped(DOT, o.stripPrefix));
  }

  lemma MemberIsRoot(cwd: string, targetDir: string, member: string)
    requires IsAbs(cwd) && targetDir != "" && |member| <= 1 && (member == "" || member[0] == '.')
    ensures SafeJoin(cwd, Abs(cwd, targetDir), targetDir, member).Within?
  {
    DotComps(member);
    if Resolved(cwd, targetDir) == [] {
      SafeJoinAtSlash(cwd, targetDir, member);
    } else {
      SafeJoinIsBeneath(cwd, targetDir, member);
    }
  }

  lemma DotComps(p: string)
    requires |p| <= 1 && (p == "" || p[0] == '.')
    ensures Comps(p) == []
  {
    SplitOne(p, '/');
    assert p == "" || p == DOT;
    assert [p][1..] == [];
  }

  lemma DotIsValid(p: string)
    requires |p| == 1 && p[0] == '.'
    ensures ValidatePath(false, p)
  {
    SplitOne(p, '/');
    DotIsTraversalFree(p);
  }

  lemma DotIsTraversalFree(p: string)
    requires |p| == 1 && p[0] == '.'
    ensures TraversalFree(p)
  {
    DotComps(p);
    TooLong(p, "..");
    DotIsNotEncoded(p);
  }

  lemma DotIsNotEncoded(p: string)
    requires |p| == 1
    ensures !HasEncodedTraversal(p)
  {
    forall i | 0 <= i < |ENCODED_VARIANTS|
      ensures !Contains(ToLower(p), ENCODED_VARIANTS[i])
    {
      TooLong(ToLower(p), ENCODED_VARIANTS[i]);
    }
  }

  lemma TooLong(s: string, sub: string)
    requires |s| < |sub|
    ensures !Contains(s, sub)
  {
  }

  ghost predicate TakesEntries(c: Config) {
    forall size: Size :: c.place(Entry(size)).Within?
  }

  lemma {:induction false} FilledPasses(c: Config, total: nat, f: Size)
    requires TakesEntries(c) && 0 < f <= LargestFile(c.options) && c.options.maxSize > 0 && total <= c.options.maxSize
    requires c.options.maxFiles > 0 ==> |Filled(total, f)| <= c.options.maxFiles
    ensures var headers := Filled(total, f);
            AllAdmissible(c, headers) && Total(headers) == SumOfSizes(headers) == total
  {
    if total > 0 {
      var last := Min(total, f);
      var headers, front := Filled(total, f), Filled(total - last, f);
      assert headers == front + [Entry(last)];
      FilledPasses(c, total - last, f);
      MorePasses(c, front, total - last, last);
    }
  }

  lemma AppendPasses(c: Config, front: seq<Header>, size: Size)
    requires TakesEntries(c) && size <= LargestFile(c.options) && AllAdmissible(c, front)
    requires c.options.maxFiles > 0 ==> |front| < c.options.maxFiles
    requires c.options.maxSize > 0 ==> Add64(Total(front), size) <= c.options.maxSize
    ensures var headers := front + [Entry(size)];
            && AllAdmissible(c, headers) && Total(headers) == Add64(Total(front), size)
            && SumOfSizes(headers) == SumOfSizes(front) + size
  {
    var headers := front + [Entry(size)];
    assert headers[..|headers| - 1] == front && headers[|headers| - 1] == Entry(size);
  }

  lemma MorePasses(c: Config, front: seq<Header>, before: nat, size: Size)
    requires TakesEntries(c) && size <= LargestFile(c.options) && AllAdmissible(c, front)
    requires c.options.maxFiles > 0 ==> |front| < c.options.maxFiles
    requires c.options.maxSize > 0 && before + size <= c.options.maxSize && Total(front) == SumOfSizes(front) == before
    ensures var headers := front + [Entry(size)];
            AllAdmissible(c, headers) && Total(headers) == SumOfSizes(headers) == before + size
  {
    AppendPasses(c, front, size);
  }

  /** Entries up to the most that may come before the last, and one that carries the total past 64 bits. */
  function Overrun(o: Options): seq<Header>
    requires o.maxSize > 0
  {
    Filled(LargestBefore(o), LargestFile(o)) + [Entry(LargestFile(o))]
  }

  lemma OverrunPasses(c: Config)
    requires TakesEntries(c) && !NeverWraps(c.options)
    ensures AllAdmissible(c, Overrun(c.options)) && !WithinLimit(c.options, Overrun(c.options)) && Total(Overrun(c.options)) < 0
  {
    var o := c.options;
    var before, f := LargestBefore(o), LargestFile(o);
    if o.maxFiles > 0 {
      FilledCount(before, f, o.maxFiles - 1);
    }
    FilledPasses(c, before, f);
    AppendPasses(c, Filled(before, f), f);
  }

  /** No archive gets past the limit on the total size exactly when the options leave the sum room in 64 bits. */
  lemma LimitHoldsExactly(cwd: string, targetDir: string, o: Options)
    requires IsAbs(cwd) && targetDir != ""
    ensures (forall headers :: AllAdmissible(ConfigFor(cwd, targetDir, o), headers) ==> WithinLimit(o, headers)) <==> NeverWraps(o)
  {
    var c := ConfigFor(cwd, targetDir, o);
    if NeverWraps(o) {
      forall headers | AllAdmissible(c, headers)
        ensures WithinLimit(o, headers)
      {
        if o.maxSize > 0 {
          TotalIsSum(c, headers);
        }
      }
    } else {
      forall size: Size
        ensures c.place(Entry(size)).Within?
      {
        EntryIsPlaced(cwd, targetDir, o, size);
      }
      OverrunPasses(c);
    }
  }

  /** With a limit of ten bytes and none on single files, two entries pass that come to more than 64 bits hold. */
  lemma TenByteLimit(cwd: string, targetDir: string)
    requires IsAbs(cwd) && targetDir != ""
    ensures var headers := [Entry(1), Entry(MAX_INT64)];
            && AllAdmissible(ConfigFor(cwd, targetDir, Options("", 0, 0, 10)), headers)
            && SumOfSizes(headers) == MAX_INT64 + 1 && Total(headers) < 0
  {
    var o := Options("", 0, 0, 10);
    var c := ConfigFor(cwd, targetDir, o);
    forall size: Size
      ensures c.place(Entry(size)).Within?
    {
      EntryIsPlaced(cwd, targetDir, o, size);
    }
    TwoPass(c);
  }

  lemma TwoPass(c: Config)
    requires TakesEntries(c) && c.options == Options("", 0, 0, 10)
    ensures var headers := [Entry(1), Entry(MAX_INT64)];
            AllAdmissible(c, headers) && SumOfSizes(headers) == MAX_INT64 + 1 && Total(headers) < 0
  {
    var first := [Entry(1)];
    AppendPasses(c, [], 1);
    assert [] + first == first;
    AppendPasses(c, first, MAX_INT64);
    assert first + [Entry(MAX_INT64)] == [Entry(1), Entry(MAX_INT64)];
  }
}
