/** The checksum framing of oci/internal/cache/storage.go: a line with the checksum, then the data. */
module Framing {
  import opened Text

  /** Strings stand for byte strings, one char per byte. */
  type Bytes = string

  /** The hexadecimal SHA-256 of the data; only that it holds no newline is used. */
  type Checksum = Bytes -> Bytes

  ghost predicate OneLine(sum: Checksum) {
    forall data :: '\n' !in sum(data)
  }

  datatype ReadResult = Data(data: Bytes) | Corrupted

  /** What writeWithChecksum leaves in the file. */
  function Frame(sum: Checksum, data: Bytes): Bytes {
    sum(data) + "\n" + data
  }

  /** readWithChecksum: split at the first newline only, then compare the checksums. */
  function Unframe(sum: Checksum, content: Bytes): (r: ReadResult)
  {
    var i := Index(content, "\n");
    if i == -1 then Corrupted
    else
      var data := content[i + 1..];
      if content[..i] != sum(data) then Corrupted else Data(data)
  }

  /** Reading back gives the data, newlines included. */
  lemma UnframeFrame(sum: Checksum, data: Bytes)
    requires OneLine(sum)
    ensures Unframe(sum, Frame(sum, data)) == Data(data)
  {
    DamageIsNoticed(sum, sum(data), data);
  }

  /** Data is read exactly from the line of its checksum and itself. */
  lemma UnframeExactly(sum: Checksum, content: Bytes, data: Bytes)
    requires OneLine(sum)
    ensures Unframe(sum, content) == Data(data) <==> content == sum(data) + "\n" + data
  {
    var i := Index(content, "\n");
    if content == sum(data) + "\n" + data {
      UnframeFrame(sum, data);
    } else if i != -1 {
      assert content[i..i + 1] == "\n";
      assert content == content[..i] + content[i..i + 1] + content[i + 1..];
    }
  }

  /** Whatever stands in the first line, the rest is read as data exactly when that is its checksum; damage to either goes
      unnoticed only where the checksum fits. */
  lemma DamageIsNoticed(sum: Checksum, line: Bytes, rest: Bytes)
    requires '\n' !in line
    ensures Unframe(sum, line + "\n" + rest) == if line == sum(rest) then Data(rest) else Corrupted
  {
    var content, n := line + "\n" + rest, |line|;
    FirstLine(line, rest);
    assert content[..n] == line && content[n + 1..] == rest;
  }

  lemma FirstLine(line: Bytes, rest: Bytes)
    requires '\n' !in line
    ensures Index(line + "\n" + rest, "\n") == |line|
  {
    var content, n := line + "\n" + rest, |line|;
    assert OccursAt(content, "\n", n);
    forall j | 0 <= j < n
      ensures !OccursAt(content, "\n", j)
    {
      assert content[j..j + 1][0] == content[j] == line[j];
    }
  }
}
