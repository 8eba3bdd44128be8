/** The digests a tag has had, and the bounded history kept of them (oci/internal/cache/tags.go). */
module TagHistory {

  datatype PastDigest = PastDigest(digest: string, changedAt: int)

  /** One put of a digest. */
  datatype TagPut = TagPut(digest: string, at: int)

  /** The digests that were replaced by another one, oldest first, each with the time of its replacement. */
  function Superseded(log: seq<TagPut>): seq<PastDigest> {
    var n := |log|;
    if n < 2 then []
    else
      Superseded(log[..n - 1]) +
      if log[n - 2].digest != log[n - 1].digest then [PastDigest(log[n - 2].digest, log[n - 1].at)] else []
  }

  lemma SupersededSnoc(log: seq<TagPut>, p: TagPut)
    requires log != []
    ensures Superseded(log + [p]) == Superseded(log) +
              if log[|log| - 1].digest != p.digest then [PastDigest(log[|log| - 1].digest, p.at)] else []
  {
    assert (log + [p])[..|log|] == log;
  }

  /** The last max elements, or all. */
  function LastOf<T>(s: seq<T>, max: nat): seq<T> {
    if |s| <= max then s else s[|s| - max..]
  }

  /** Cutting after every append keeps the same elements as cutting once. */
  lemma LastOfSnoc<T>(s: seq<T>, x: T, max: nat)
    ensures LastOf(LastOf(s, max) + [x], max) == LastOf(s + [x], max)
  {
  }

  ghost predicate InTime(log: seq<TagPut>) {
    forall i, j :: 0 <= i < j < |log| ==> log[i].at <= log[j].at
  }

  /** Neighbours differ, and the newest differs from the current digest. */
  lemma {:induction false} NeighboursDiffer(log: seq<TagPut>)
    requires log != []
    ensures var past := Superseded(log);
            && (forall i :: 0 <= i < |past| - 1 ==> past[i].digest != past[i + 1].digest)
            && (past != [] ==> past[|past| - 1].digest != log[|log| - 1].digest)
  {
    if |log| >= 2 {
      NeighboursDiffer(log[..|log| - 1]);
    }
  }

  ghost predicate Between(past: seq<PastDigest>, first: int, last: int) {
    && (forall i :: 0 <= i < |past| ==> first <= past[i].changedAt <= last)
    && (forall i, j :: 0 <= i < j < |past| ==> past[i].changedAt <= past[j].changedAt)
  }

  /** Times never go back, and lie between the first and the last put. */
  lemma {:induction false} TimesInOrder(log: seq<TagPut>)
    requires log != [] && InTime(log)
    ensures Between(Superseded(log), log[0].at, log[|log| - 1].at)
  {
    var n := |log|;
    if n >= 2 {
      var front := log[..n - 1];
      TimesInOrder(front);
      assert Between(Superseded(front), log[0].at, log[n - 2].at);
      assert log[n - 2].at <= log[n - 1].at;
    }
  }

  /** Each replaced digest was put, and the next put, of another one, was at the time kept with it. */
  lemma {:induction false} ReplacedAt(log: seq<TagPut>, i: nat) returns (j: nat)
    requires i < |Superseded(log)|
    ensures 0 < j < |log| && log[j - 1].digest == Superseded(log)[i].digest != log[j].digest
    ensures log[j].at == Superseded(log)[i].changedAt
  {
    var n := |log|;
    if i < |Superseded(log[..n - 1])| {
      j := ReplacedAt(log[..n - 1], i);
    } else {
      j := n - 1;
    }
  }

  function Digests(past: seq<PastDigest>): seq<string> {
    seq(|past|, i requires 0 <= i < |past| => past[i].digest)
  }

  function PutDigests(log: seq<TagPut>): seq<string> {
    seq(|log|, i requires 0 <= i < |log| => log[i].digest)
  }

  /** A sequence without the elements that repeat the one before. */
  function Collapsed(s: seq<string>): seq<string> {
    var n := |s|;
    if n < 2 then s else if s[n - 2] == s[n - 1] then Collapsed(s[..n - 1]) else Collapsed(s[..n - 1]) + [s[n - 1]]
  }

  /** The replaced digests and the current one are the digests put, without repeats. */
  lemma {:induction false} SupersededIsCollapsed(log: seq<TagPut>)
    requires log != []
    ensures Digests(Superseded(log)) + [log[|log| - 1].digest] == Collapsed(PutDigests(log))
  {
    var n := |log|;
    if n >= 2 {
      var front := log[..n - 1];
      SupersededIsCollapsed(front);
      assert PutDigests(log)[..n - 1] == PutDigests(front);
      if log[n - 2].digest != log[n - 1].digest {
        assert Digests(Superseded(log)) == Digests(Superseded(front)) + [log[n - 2].digest];
      }
    }
  }
}
