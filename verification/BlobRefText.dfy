/** The text form of blob references in oci/internal/cache/blob.go. */
module BlobRefText {
  import opened Text

  /** Times and durations are in nanoseconds. */
  datatype BlobRef = BlobRef(digest: string, createdAt: int, ttl: int, refCount: int)

  datatype Parsed<T> = Ok(value: T) | Invalid

  const MIN_INT64 := -0x8000_0000_0000_0000
  const MAX_INT64 := 0x7fff_ffff_ffff_ffff

  predicate Int64(n: int) {
    MIN_INT64 <= n <= MAX_INT64
  }

  /** The fields of a Go value are int64, and the digest is on one line. */
  predicate Storable(ref: BlobRef) {
    '\n' !in ref.digest && Int64(ref.createdAt) && Int64(ref.ttl) && Int64(ref.refCount)
  }

  /******* Decimal numbers *******/

  function Digit(d: nat): char
    requires d < 10
  {
    '0' + d as char
  }

  predicate IsDigit(c: char) {
    '0' <= c <= '9'
  }

  /** fmt's %d. */
  function Decimal(n: nat): (s: string)
    ensures s != "" && forall i :: 0 <= i < |s| ==> IsDigit(s[i])
  {
    (if n < 10 then "" else Decimal(n / 10)) + [Digit(n % 10)]
  }

  function Itoa(n: int): (s: string)
    ensures '\n' !in s && s != ""
  {
    if n < 0 then "-" + Decimal(-n) else Decimal(n)
  }

  predicate AllDigits(s: string) {
    forall i :: 0 <= i < |s| ==> IsDigit(s[i])
  }

  function Value(s: string): (n: int)
    requires AllDigits(s)
    ensures n >= 0
  {
    if s == "" then 0 else 10 * Value(s[..|s| - 1]) + (s[|s| - 1] - '0') as int
  }

  /** strconv.ParseInt in base 10 with 64 bits: an optional sign, digits, and a range check. */
  function ParseInt(s: string): (r: Parsed<int>)
    ensures r.Ok? ==> Int64(r.value)
  {
    var signed := s != "" && (s[0] == '-' || s[0] == '+');
    var digits := if signed then s[1..] else s;
    if digits == "" || !AllDigits(digits) then Invalid
    else
      var n := if signed && s[0] == '-' then -Value(digits) else Value(digits);
      if Int64(n) then Ok(n) else Invalid
  }

  lemma {:induction false} ValueOfDecimal(n: nat)
    ensures Value(Decimal(n)) == n
  {
    var s := Decimal(n);
    if n >= 10 {
      ValueOfDecimal(n / 10);
      assert s[..|s| - 1] == Decimal(n / 10);
    } else {
      assert s[..|s| - 1] == "";
    }
  }

  lemma ParseIntItoa(n: int)
    requires Int64(n)
    ensures ParseInt(Itoa(n)) == Ok(n)
  {
    var m: nat := if n < 0 then -n else n;
    ValueOfDecimal(m);
    ParseDigits(Decimal(m), n < 0);
  }

  lemma ParseDigits(digits: string, negative: bool)
    requires digits != "" && AllDigits(digits)
    ensures var n := if negative then -Value(digits) else Value(digits);
            Int64(n) ==> ParseInt(if negative then "-" + digits else digits) == Ok(n)
  {
    assert IsDigit(digits[0]);
    if negative {
      var s := "-" + digits;
      assert s[0] == '-' && s[1..] == digits;
    }
  }

  /******* The four lines *******/

  function MarshalText(ref: BlobRef): string {
    ref.digest + "\n" + (Itoa(ref.createdAt) + "\n" + (Itoa(ref.ttl) + "\n" + Itoa(ref.refCount)))
  }

  /** The lines of the text; an empty last one, after a final newline, is not counted. */
  function Lines(data: string): seq<string> {
    var parts := Split(data, '\n');
    if parts[|parts| - 1] == "" then parts[..|parts| - 1] else parts
  }

  function FromLines(lines: seq<string>): Parsed<BlobRef> {
    if |lines| != 4 then Invalid
    else
      var createdAt, ttl, refCount := ParseInt(lines[1]), ParseInt(lines[2]), ParseInt(lines[3]);
      if createdAt.Ok? && ttl.Ok? && refCount.Ok? then Ok(BlobRef(lines[0], createdAt.value, ttl.value, refCount.value))
      else Invalid
  }

  function Parse(data: string): Parsed<BlobRef> {
    FromLines(Lines(data))
  }

  /** parseBlobRef: one pass that cuts the data at its newlines. */
  method ParseBlobRef(data: string) returns (r: Parsed<BlobRef>)
    ensures r == Parse(data)
  {
    var lines: seq<string> := [];
    var start := 0;
    for i := 0 to |data|
      invariant 0 <= start <= i
      invariant lines + [data[start..i]] == Split(data[..i], '\n')
    {
      CutStep(data, i, lines, data[start..i]);
      if data[i] == '\n' {
        lines := lines + [data[start..i]];
        start := i + 1;
        assert data[start..i + 1] == "";
      } else {
        assert data[start..i + 1] == data[start..i] + [data[i]];
      }
    }
    assert data[..|data|] == data;
    ghost var parts := Split(data, '\n');
    assert parts[..|parts| - 1] == lines;
    if start < |data| {
      lines := lines + [data[start..]];
    }
    if |lines| != 4 {
      return Invalid;
    }
    var createdAt := ParseInt(lines[1]);
    if createdAt.Invalid? {
      return Invalid;
    }
    var ttl := ParseInt(lines[2]);
    if ttl.Invalid? {
      return Invalid;
    }
    var refCount := ParseInt(lines[3]);
    if refCount.Invalid? {
      return Invalid;
    }
    return Ok(BlobRef(lines[0], createdAt.value, ttl.value, refCount.value));
  }

  lemma CutStep(data: string, i: nat, lines: seq<string>, current: string)
    requires i < |data| && lines + [current] == Split(data[..i], '\n')
    ensures Split(data[..i + 1], '\n') ==
              if data[i] == '\n' then lines + [current] + [""] else lines + [current + [data[i]]]
  {
    assert data[..i + 1] == data[..i] + [data[i]];
    if data[i] == '\n' {
      SplitAppend(data[..i], "", '\n');
      assert data[..i] + ['\n'] + "" == data[..i + 1];
    } else {
      SplitSnoc(data[..i], data[i], '\n');
      var parts := lines + [current];
      assert parts[..|parts| - 1] == lines;
    }
  }

  /** Parsing undoes marshalling, negative numbers included. The lines are the digest, its time, its time to live and its count. */
  lemma ParseMarshal(ref: BlobRef)
    requires Storable(ref)
    ensures Lines(MarshalText(ref)) == [ref.digest, Itoa(ref.createdAt), Itoa(ref.ttl), Itoa(ref.refCount)]
    ensures Parse(MarshalText(ref)) == Ok(ref)
  {
    FourLines(ref.digest, Itoa(ref.createdAt), Itoa(ref.ttl), Itoa(ref.refCount));
    ParseIntItoa(ref.createdAt);
    ParseIntItoa(ref.ttl);
    ParseIntItoa(ref.refCount);
  }

  lemma FourLines(a: string, b: string, c: string, d: string)
    requires '\n' !in a && '\n' !in b && '\n' !in c && '\n' !in d
    ensures Split(a + "\n" + (b + "\n" + (c + "\n" + d)), '\n') == [a, b, c, d]
  {
    SplitAppend(a, b + "\n" + (c + "\n" + d), '\n');
    SplitAppend(b, c + "\n" + d, '\n');
    SplitAppend(c, d, '\n');
    SplitOne(a, '\n');
    SplitOne(b, '\n');
    SplitOne(c, '\n');
    SplitOne(d, '\n');
  }

  /** Whatever is accepted has four lines, is storable, and survives being written again. */
  lemma ParsedIsStorable(data: string)
    requires Parse(data).Ok?
    ensures var ref, lines := Parse(data).value, Lines(data);
            && |lines| == 4 && lines[0] == ref.digest && ParseInt(lines[1]) == Ok(ref.createdAt)
            && ParseInt(lines[2]) == Ok(ref.ttl) && ParseInt(lines[3]) == Ok(ref.refCount)
    ensures Storable(Parse(data).value)
    ensures Parse(MarshalText(Parse(data).value)) == Parse(data)
  {
    assert Lines(data)[0] == Split(data, '\n')[0];
    ParseMarshal(Parse(data).value);
  }
}
