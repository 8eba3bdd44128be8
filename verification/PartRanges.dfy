/** How aws/s3/internal/operations/copy/copy.go cuts an object into parts. */
module PartRanges {

  const PART_SIZE := 8 * 1024 * 1024

  function CalculateParts(size: nat, partSize: nat): nat
    requires partSize > 0
  {
    if size == 0 then 1 else (size + partSize - 1) / partSize
  }

  /** The inclusive byte range requested for a part, in the form of section 14.1.2 of RFC 9110. */
  datatype Range = Range(first: int, last: int)

  function PartRange(size: nat, partSize: nat, partNumber: nat): Range
    requires partNumber >= 1
  {
    var offset := (partNumber - 1) * partSize;
    var length := if offset + partSize > size then size - offset else partSize;
    Range(offset, offset + length - 1)
  }

  predicate Covers(r: Range, byte: nat) {
    r.first <= byte <= r.last
  }

  /** The number of parts is the size divided by the part size, rounded up. */
  lemma PartsRoundUp(size: nat, partSize: nat)
    requires size > 0 && partSize > 0
    ensures var n := CalculateParts(size, partSize);
            n >= 1 && (n - 1) * partSize < size <= n * partSize
  {
    var n, m := CalculateParts(size, partSize), size + partSize - 1;
    assert m == n * partSize + m % partSize;
    assert (n - 1) * partSize == n * partSize - partSize;
  }

  lemma MulMonotone(a: int, b: int, c: nat)
    requires a <= b
    ensures a * c <= b * c
  {
  }

  /** Every part is a non-empty range of at most the part size; the last one ends with the object, the others are full. */
  lemma PartFits(size: nat, partSize: nat, k: nat)
    requires size > 0 && partSize > 0 && 1 <= k <= CalculateParts(size, partSize)
    ensures var r := PartRange(size, partSize, k);
            && 0 <= r.first <= r.last < size && r.last - r.first < partSize
            && (k < CalculateParts(size, partSize) ==> r.last + 1 == k * partSize)
            && (k == CalculateParts(size, partSize) ==> r.last + 1 == size)
  {
    var n := CalculateParts(size, partSize);
    PartsRoundUp(size, partSize);
    MulMonotone(k - 1, n - 1, partSize);
    assert (k - 1) * partSize + partSize == k * partSize;
    if k < n {
      MulMonotone(k, n - 1, partSize);
    }
  }

  /** Each part begins where the one before it ends. */
  lemma PartsAdjoin(size: nat, partSize: nat, k: nat)
    requires size > 0 && partSize > 0 && 1 <= k < CalculateParts(size, partSize)
    ensures PartRange(size, partSize, 1).first == 0
    ensures PartRange(size, partSize, k).last + 1 == PartRange(size, partSize, k + 1).first
  {
    PartFits(size, partSize, k);
  }

  /** Every byte of the object is in exactly one part. */
  lemma PartsTile(size: nat, partSize: nat, byte: nat) returns (k: nat)
    requires partSize > 0 && byte < size
    ensures 1 <= k <= CalculateParts(size, partSize) && Covers(PartRange(size, partSize, k), byte)
    ensures forall j :: 1 <= j <= CalculateParts(size, partSize) && Covers(PartRange(size, partSize, j), byte) ==> j == k
  {
    var n := CalculateParts(size, partSize);
    var q := byte / partSize;
    k := q + 1;
    assert byte == q * partSize + byte % partSize;
    assert (q + 1) * partSize == q * partSize + partSize;
    PartsRoundUp(size, partSize);
    if k > n {
      MulMonotone(n, q, partSize);
    }
    PartFits(size, partSize, k);
    forall j | 1 <= j <= n && Covers(PartRange(size, partSize, j), byte)
      ensures j == k
    {
      PartFits(size, partSize, j);
      assert (j - 1) * partSize + partSize == j * partSize;
      if j < k {
        MulMonotone(j, k - 1, partSize);
      } else if j > k {
        MulMonotone(k, j - 1, partSize);
      }
    }
  }
}
