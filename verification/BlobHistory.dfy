/** What holds of the blob cache over every sequential run of its operations with any digests, failed ones included. */
module BlobHistory {
  import opened BlobCache
  import opened BlobRefText
  import opened CachePaths
  import opened Framing

  datatype Event = Event(step: Step, now: int)

  /** The stores before, between and after the events of a run that starts with an empty cache. */
  ghost predicate IsRun(states: seq<Store>, events: seq<Event>, ttl: int) {
    && |states| == |events| + 1
    && states[0] == Store(map[], map[])
    && forall i :: 0 <= i < |events| ==> Does(states[i], events[i].step, events[i].now, ttl, states[i + 1])
  }

  /** No event is an operation with a digest that strays into a blob. */
  predicate AllHarmless(events: seq<Event>) {
    forall i :: 0 <= i < |events| ==> Harmless(events[i].step)
  }

  /** The event is a successful put of a blob that has no live reference. */
  predicate Creates(s: Store, e: Event, hash: string) {
    e.step.Put? && e.step.ok && e.step.hash == hash && !Present(Purge(s, hash, e.now), hash)
  }

  /** Event k created the reference that is stored before event i, if there is such an event. */
  ghost predicate CreatedBy(states: seq<Store>, events: seq<Event>, hash: string, k: nat, i: nat)
    requires k < i <= |events| < |states|
  {
    && Creates(states[k], events[k], hash)
    && forall j :: k < j < i ==> hash in states[j].refs && !Creates(states[j], events[j], hash)
  }

  function Puts(events: seq<Event>, hash: string): nat {
    if events == [] then 0
    else
      var step := events[|events| - 1].step;
      Puts(events[..|events| - 1], hash) + if step.Put? && step.ok && step.hash == hash then 1 else 0
  }

  function Deletes(events: seq<Event>, hash: string): nat {
    if events == [] then 0
    else
      Deletes(events[..|events| - 1], hash) + if IsDelete(events[|events| - 1].step, hash) then 1 else 0
  }

  /** A successful delete of this hash, or with a digest whose paths both lead to its reference. */
  predicate IsDelete(step: Step, hash: string) {
    (step.Delete? && step.ok && step.hash == hash) || (step.StrayDelete? && step.ok && step.file == RefFile(hash))
  }

  /** The stored reference and blob are as their creating put and the puts and deletes since then make them. */
  ghost predicate Accounted(states: seq<Store>, events: seq<Event>, ttl: int, hash: string, k: nat, i: nat)
    requires k < i <= |events| < |states| && events[k].step.Put?
  {
    var s, put, since := states[i], events[k], events[k..i];
    && hash in s.refs && hash in s.blobs
    && s.refs[hash].refCount == Puts(since, hash) - Deletes(since, hash)
    && s.refs[hash].createdAt == put.now && s.refs[hash].ttl == ttl
    && s.blobs[hash] == put.step.data && put.step.complete
  }

  /** Every stored reference has its blob and a count of at least one. */
  lemma {:induction false} AlwaysConsistent(states: seq<Store>, events: seq<Event>, ttl: int, i: nat)
    requires IsRun(states, events, ttl) && AllHarmless(events) && i < |states|
    ensures Consistent(states[i])
  {
    if i > 0 {
      AlwaysConsistent(states, events, ttl, i - 1);
      DoesKeeps(states[i - 1], events[i - 1].step, events[i - 1].now, ttl, states[i]);
    }
  }

  /** What one event does to a reference it does not create. */
  lemma StepAccounts(s: Store, e: Event, ttl: int, t: Store, hash: string)
    requires Consistent(s) && Does(s, e.step, e.now, ttl, t) && Harmless(e.step) && hash in t.refs && !Creates(s, e, hash)
    ensures hash in s.refs && hash in t.blobs && t.blobs[hash] == s.blobs[hash]
    ensures t.refs[hash].createdAt == s.refs[hash].createdAt && t.refs[hash].ttl == s.refs[hash].ttl
    ensures t.refs[hash].refCount == s.refs[hash].refCount + Puts([e], hash) - Deletes([e], hash)
  {
    CountOne(e, hash);
  }

  lemma CountOne(e: Event, hash: string)
    ensures Puts([e], hash) == if e.step.Put? && e.step.ok && e.step.hash == hash then 1 else 0
    ensures Deletes([e], hash) == if IsDelete(e.step, hash) then 1 else 0
  {
    assert [e][..0] == [];
  }

  lemma CountMore(events: seq<Event>, k: nat, i: nat, hash: string)
    requires k <= i < |events|
    ensures Puts(events[k..i + 1], hash) == Puts(events[k..i], hash) + Puts([events[i]], hash)
    ensures Deletes(events[k..i + 1], hash) == Deletes(events[k..i], hash) + Deletes([events[i]], hash)
  {
    var more := events[k..i + 1];
    assert more[..|more| - 1] == events[k..i];
    CountOne(events[i], hash);
  }

  /** A created reference starts from its put. */
  lemma CreationAccounts(states: seq<Store>, events: seq<Event>, ttl: int, hash: string, k: nat)
    requires IsRun(states, events, ttl) && AllHarmless(events) && k < |events| && Creates(states[k], events[k], hash)
    ensures Accounted(states, events, ttl, hash, k, k + 1)
  {
    AlwaysConsistent(states, events, ttl, k);
    assert events[k..k + 1] == [events[k]];
    CountOne(events[k], hash);
  }

  /** A stored reference was created by some put; its count is the puts less the deletes from then on, and its blob is the
      whole data of that put. */
  lemma {:induction false} RefIsAccounted(states: seq<Store>, events: seq<Event>, ttl: int, hash: string, i: nat) returns (k: nat)
    requires IsRun(states, events, ttl) && AllHarmless(events) && i < |states| && hash in states[i].refs
    ensures k < i && CreatedBy(states, events, hash, k, i) && Accounted(states, events, ttl, hash, k, i)
  {
    var s, e := states[i - 1], events[i - 1];
    if Creates(s, e, hash) {
      k := i - 1;
      CreationAccounts(states, events, ttl, hash, k);
    } else {
      AlwaysConsistent(states, events, ttl, i - 1);
      StepAccounts(s, e, ttl, states[i], hash);
      k := RefIsAccounted(states, events, ttl, hash, i - 1);
      StillAccounted(states, events, ttl, hash, k, i - 1);
    }
  }

  /** An event that does not create the reference anew leaves it accounted for. */
  lemma StillAccounted(states: seq<Store>, events: seq<Event>, ttl: int, hash: string, k: nat, i: nat)
    requires k < i < |events| < |states| && Consistent(states[i]) && Harmless(events[i].step)
    requires Does(states[i], events[i].step, events[i].now, ttl, states[i + 1])
    requires hash in states[i + 1].refs && !Creates(states[i], events[i], hash)
    requires CreatedBy(states, events, hash, k, i) && Accounted(states, events, ttl, hash, k, i)
    ensures CreatedBy(states, events, hash, k, i + 1) && Accounted(states, events, ttl, hash, k, i + 1)
  {
    StepAccounts(states[i], events[i], ttl, states[i + 1], hash);
    CountMore(events, k, i, hash);
  }

  /** A successful get returns the data of the put that created the current reference, within its lifetime. */
  lemma GetReturnsCreation(states: seq<Store>, events: seq<Event>, ttl: int, i: nat) returns (k: nat)
    requires IsRun(states, events, ttl) && AllHarmless(events) && i < |events| && events[i].step.Get? && events[i].step.ok
    ensures k < i && CreatedBy(states, events, events[i].step.hash, k, i)
    ensures events[i].step.data == events[k].step.data && events[k].step.complete
    ensures events[i].now - events[k].now <= ttl
  {
    assert Does(states[i], events[i].step, events[i].now, ttl, states[i + 1]);
    k := RefIsAccounted(states, events, ttl, events[i].step.hash, i);
  }

  /** Tries to delete this hash, or the reference of it. */
  predicate TriesDelete(step: Step, hash: string) {
    (step.Delete? && step.hash == hash) || (step.StrayDelete? && step.file == RefFile(hash))
  }

  /** At event j the time of put k has not run out, and the event does not try to take the last count. */
  predicate Spares(events: seq<Event>, ttl: int, hash: string, k: nat, j: nat)
    requires k < j < |events|
  {
    && events[j].now - events[k].now <= ttl
    && (TriesDelete(events[j].step, hash) ==> Puts(events[k..j], hash) - Deletes(events[k..j], hash) > 1)
  }

  predicate Unharmed(events: seq<Event>, ttl: int, hash: string, k: nat, i: nat)
    requires k < i <= |events|
  {
    forall j :: k < j < i ==> Spares(events, ttl, hash, k, j)
  }

  /** What a put has created stays, within its time, until the last count is taken. */
  lemma {:induction false} CreatedStays(states: seq<Store>, events: seq<Event>, ttl: int, hash: string, k: nat, i: nat)
    requires IsRun(states, events, ttl) && AllHarmless(events) && k < i <= |events|
    requires Creates(states[k], events[k], hash) && Unharmed(events, ttl, hash, k, i)
    ensures CreatedBy(states, events, hash, k, i) && Accounted(states, events, ttl, hash, k, i)
    decreases i
  {
    if i == k + 1 {
      CreationAccounts(states, events, ttl, hash, k);
    } else {
      UnharmedBefore(events, ttl, hash, k, i - 1);
      CreatedStays(states, events, ttl, hash, k, i - 1);
      StaysOn(states, events, ttl, hash, k, i - 1);
    }
  }

  lemma UnharmedBefore(events: seq<Event>, ttl: int, hash: string, k: nat, i: nat)
    requires k < i < |events| && Unharmed(events, ttl, hash, k, i + 1)
    ensures Unharmed(events, ttl, hash, k, i)
  {
  }

  lemma StaysOn(states: seq<Store>, events: seq<Event>, ttl: int, hash: string, k: nat, i: nat)
    requires IsRun(states, events, ttl) && AllHarmless(events) && k < i < |events| && Unharmed(events, ttl, hash, k, i + 1)
    requires CreatedBy(states, events, hash, k, i) && Accounted(states, events, ttl, hash, k, i)
    ensures CreatedBy(states, events, hash, k, i + 1) && Accounted(states, events, ttl, hash, k, i + 1)
  {
    AlwaysConsistent(states, events, ttl, i);
    assert Spares(events, ttl, hash, k, i);
    StepSpares(states[i], events[i], ttl, states[i + 1], hash);
    StillAccounted(states, events, ttl, hash, k, i);
  }

  lemma StepSpares(s: Store, e: Event, ttl: int, t: Store, hash: string)
    requires Consistent(s) && Does(s, e.step, e.now, ttl, t) && Harmless(e.step) && hash in s.refs
    requires e.now - s.refs[hash].createdAt <= s.refs[hash].ttl && (TriesDelete(e.step, hash) ==> s.refs[hash].refCount > 1)
    ensures hash in t.refs && !Creates(s, e, hash)
  {
  }

  /** Within its time a blob that was put, and not deleted as often, is found and read as it was put. */
  lemma PutIsFound(states: seq<Store>, events: seq<Event>, ttl: int, hash: string, k: nat, i: nat)
    requires IsRun(states, events, ttl) && AllHarmless(events) && k < i < |events|
    requires Creates(states[k], events[k], hash) && Unharmed(events, ttl, hash, k, i) && events[i].now - events[k].now <= ttl
    ensures var step := events[i].step;
            && (step.Has? && step.hash == hash && step.ok ==> step.found)
            && (step.Get? && step.hash == hash && step.ok ==> step.data == events[k].step.data)
  {
    CreatedStays(states, events, ttl, hash, k, i);
    assert Does(states[i], events[i].step, events[i].now, ttl, states[i + 1]);
  }

  /** The delete that balances the puts removes reference and blob; an earlier one keeps both. */
  lemma DeleteRemovesLast(states: seq<Store>, events: seq<Event>, ttl: int, i: nat, k: nat)
    requires IsRun(states, events, ttl) && AllHarmless(events)
    requires i < |events| && events[i].step.Delete? && events[i].step.ok
    requires k < i && events[k].step.Put? && Accounted(states, events, ttl, events[i].step.hash, k, i)
    ensures var hash, since, t := events[i].step.hash, events[k..i], states[i + 1];
            if Puts(since, hash) - Deletes(since, hash) == 1 then hash !in t.refs && hash !in t.blobs
            else hash in t.refs && hash in t.blobs
  {
    AlwaysConsistent(states, events, ttl, i);
    AlwaysConsistent(states, events, ttl, i + 1);
  }

  /******* Digests that stray into a blob *******/

  ghost predicate Sane(c: map<Path, Bytes>, s: Store) {
    Holds(c, s) && Consistent(s)
  }

  ghost predicate ChecksSafely(at: Address) {
    forall c, s, now, found, ok, d :: Sane(c, s) && RawHas(c, at.refPath, at.blobPath, now, found, ok, d) ==> RefsHaveBlobs(d)
  }

  ghost predicate DeletesSafely(at: Address) {
    forall c, s, ok, d :: Sane(c, s) && RawDelete(c, at.refPath, at.blobPath, ok, d) ==> RefsHaveBlobs(d)
  }

  /** Asking for a digest keeps references with their blobs, whatever the cache holds, exactly when the digest does not stray
      into a blob. */
  lemma HasSafeExactly(at: Address)
    requires Sound(at)
    ensures ChecksSafely(at) <==> !IntoBlob(at)
  {
    if IntoBlob(at) {
      StrayHasLosesBlob(at);
    } else {
      forall c, s, now, found, ok, d | Sane(c, s) && RawHas(c, at.refPath, at.blobPath, now, found, ok, d)
        ensures RefsHaveBlobs(d)
      {
        AfterHasKeeps(c, s, at, now, found, ok, d);
      }
    }
  }

  /** So does deleting with a digest. */
  lemma DeleteSafeExactly(at: Address)
    requires Sound(at)
    ensures DeletesSafely(at) <==> !IntoBlob(at)
  {
    if IntoBlob(at) {
      StrayDeleteLosesBlob(at);
    } else {
      forall c, s, ok, d | Sane(c, s) && RawDelete(c, at.refPath, at.blobPath, ok, d)
        ensures RefsHaveBlobs(d)
      {
        AfterDeleteKeeps(c, s, at, ok, d);
      }
    }
  }

  /** The text of a reference that has expired at time 1, with this count. */
  function RefText(count: int): Bytes
    requires Int64(count)
  {
    MarshalText(BlobRef("", 0, 0, count))
  }

  lemma RefTextParses(count: int)
    requires Int64(count)
    ensures Parse(RefText(count)) == Ok(BlobRef("", 0, 0, count))
  {
    ParseMarshal(BlobRef("", 0, 0, count));
  }

  /** A blob that reads like an expired reference goes, and its reference stays. */
  lemma StrayHasLosesBlob(at: Address)
    requires Sound(at) && IntoBlob(at)
    ensures !ChecksSafely(at)
  {
    var hash := at.refPath.hash;
    RefTextParses(1);
    OnlyEntry(hash, BlobRef("", 0, 0, 1), RefText(1));
    var c, s := OnlyFiles(hash, RefText(1)), OnlyStore(hash, BlobRef("", 0, 0, 1), RefText(1));
    var d := c - {at.refPath};
    assert RawHas(c, at.refPath, at.blobPath, 1, false, true, d);
    assert RefFile(hash) in d && BlobFile(hash) !in d;
  }

  /** A blob that reads like a reference with a count of one goes, too. */
  lemma StrayDeleteLosesBlob(at: Address)
    requires Sound(at) && IntoBlob(at)
    ensures !DeletesSafely(at)
  {
    var hash := at.refPath.hash;
    RefTextParses(1);
    OnlyEntry(hash, BlobRef("", 0, 0, 1), RefText(1));
    var c, s := OnlyFiles(hash, RefText(1)), OnlyStore(hash, BlobRef("", 0, 0, 1), RefText(1));
    var d := c - {at.refPath};
    assert RawDelete(c, at.refPath, at.blobPath, false, d);
    assert RefFile(hash) in d && BlobFile(hash) !in d;
  }

  /** One entry whose blob is the text of its reference. */
  function OnlyFiles(hash: string, text: Bytes): map<Path, Bytes> {
    map[RefFile(hash) := text, BlobFile(hash) := text]
  }

  function OnlyStore(hash: string, ref: BlobRef, text: Bytes): Store {
    Store(map[hash := ref], map[hash := text])
  }

  lemma OnlyEntry(hash: string, ref: BlobRef, text: Bytes)
    requires Storable(ref) && ref.refCount >= 1 && text == MarshalText(ref)
    ensures Sane(OnlyFiles(hash, text), OnlyStore(hash, ref, text))
  {
  }

  /******* Runs with a digest that strays into a blob *******/

  /** Of the digests that name no entry, only those with this address are used. */
  predicate Uses(events: seq<Event>, at: Address) {
    forall i :: 0 <= i < |events| ==> (events[i].step.StrayHas? || events[i].step.StrayDelete?) ==> events[i].step.file == at.refPath
  }

  ghost predicate IsAccounted(states: seq<Store>, events: seq<Event>, ttl: int, hash: string, i: nat)
    requires i <= |events| < |states|
  {
    exists k: nat :: k < i && CreatedBy(states, events, hash, k, i) && Accounted(states, events, ttl, hash, k, i)
  }

  ghost predicate BalanceHolds(states: seq<Store>, events: seq<Event>, ttl: int)
    requires |events| < |states|
  {
    forall i: nat, hash :: i <= |events| && hash in states[i].refs ==> IsAccounted(states, events, ttl, hash, i)
  }

  /** The get of event i, if it is one, returns the data of the put that created the reference. */
  ghost predicate GetIsRight(states: seq<Store>, events: seq<Event>, i: nat)
    requires i < |events| < |states|
  {
    events[i].step.Get? && events[i].step.ok ==>
      exists k: nat :: k < i && CreatedBy(states, events, events[i].step.hash, k, i) && events[k].step.data == events[i].step.data
  }

  ghost predicate GetsAreRight(states: seq<Store>, events: seq<Event>)
    requires |events| < |states|
  {
    forall i: nat :: i < |events| ==> GetIsRight(states, events, i)
  }

  /** Over all runs, counts balance and gets return what was put, exactly when no digest in use strays into a blob. */
  lemma BalanceHoldsExactly(at: Address, ttl: int)
    requires Sound(at)
    ensures (forall states, events :: IsRun(states, events, ttl) && Uses(events, at) ==> BalanceHolds(states, events, ttl))
            <==> !IntoBlob(at)
  {
    if IntoBlob(at) {
      var states, events := LosingRun(at.refPath.hash, ttl);
      assert Uses(events, at);
    } else {
      forall states, events | IsRun(states, events, ttl) && Uses(events, at)
        ensures BalanceHolds(states, events, ttl)
      {
        HarmlessBalances(states, events, ttl);
      }
    }
  }

  lemma HarmlessBalances(states: seq<Store>, events: seq<Event>, ttl: int)
    requires IsRun(states, events, ttl) && AllHarmless(events)
    ensures BalanceHolds(states, events, ttl) && GetsAreRight(states, events)
  {
    forall i: nat, hash | i <= |events| && hash in states[i].refs
      ensures IsAccounted(states, events, ttl, hash, i)
    {
      var k := RefIsAccounted(states, events, ttl, hash, i);
    }
    forall i: nat | i < |events|
      ensures GetIsRight(states, events, i)
    {
      if events[i].step.Get? && events[i].step.ok {
        var k := GetReturnsCreation(states, events, ttl, i);
      }
    }
  }

  lemma GetsAreRightExactly(at: Address, ttl: int)
    requires Sound(at) && ttl >= 0
    ensures (forall states, events :: IsRun(states, events, ttl) && Uses(events, at) ==> GetsAreRight(states, events))
            <==> !IntoBlob(at)
  {
    if IntoBlob(at) {
      var states, events := OverwritingRun(at.refPath.hash, ttl);
      assert Uses(events, at);
    } else {
      forall states, events | IsRun(states, events, ttl) && Uses(events, at)
        ensures GetsAreRight(states, events)
      {
        HarmlessBalances(states, events, ttl);
      }
    }
  }

  /** A blob is put that reads like an expired reference, and then its digest is asked for in the spelling that strays. */
  lemma LosingRun(hash: string, ttl: int) returns (states: seq<Store>, events: seq<Event>)
    ensures IsRun(states, events, ttl) && !BalanceHolds(states, events, ttl)
    ensures events == [Event(Put(hash, "", RefText(1), true, true), 0), Event(StrayHas(BlobFile(hash), false, true), 1)]
  {
    RefTextParses(1);
    var s0 := Store(map[], map[]);
    var s1 := WithPut(WithBlob(s0, hash, RefText(1)), hash, "", 0, ttl);
    states := [s0, s1, WithoutBlob(s1, hash)];
    events := [Event(Put(hash, "", RefText(1), true, true), 0), Event(StrayHas(BlobFile(hash), false, true), 1)];
    assert Does(s0, events[0].step, 0, ttl, s1);
    assert Does(s1, events[1].step, 1, ttl, states[2]);
    assert hash in states[2].refs && !IsAccounted(states, events, ttl, hash, 2);
  }

  /** A blob is put that reads like a reference with a count of two; a straying delete writes it anew with a count of one. */
  lemma OverwritingRun(hash: string, ttl: int) returns (states: seq<Store>, events: seq<Event>)
    requires ttl >= 0
    ensures IsRun(states, events, ttl) && !GetsAreRight(states, events)
    ensures events == [Event(Put(hash, "", RefText(2), true, true), 0), Event(StrayDelete(BlobFile(hash), true), 0),
                       Event(Get(hash, RefText(1), true), 0)]
  {
    RefTextParses(1);
    RefTextParses(2);
    states, events := Overwriting(hash, ttl, RefText(2), RefText(1));
  }

  lemma Overwriting(hash: string, ttl: int, data: Bytes, left: Bytes) returns (states: seq<Store>, events: seq<Event>)
    requires ttl >= 0 && data != left
    requires Parse(data).Ok? && Parse(data).value.refCount == 2 && MarshalText(Decremented(Parse(data).value)) == left
    ensures IsRun(states, events, ttl) && !GetsAreRight(states, events)
    ensures events == [Event(Put(hash, "", data, true, true), 0), Event(StrayDelete(BlobFile(hash), true), 0),
                       Event(Get(hash, left, true), 0)]
  {
    var s0 := Store(map[], map[]);
    var s1 := WithPut(WithBlob(s0, hash, data), hash, "", 0, ttl);
    var s2 := WithBlob(s1, hash, left);
    states := [s0, s1, s2, s2];
    events := [Event(Put(hash, "", data, true, true), 0), Event(StrayDelete(BlobFile(hash), true), 0), Event(Get(hash, left, true), 0)];
    assert Does(s0, events[0].step, 0, ttl, s1);
    assert Does(s1, events[1].step, 0, ttl, s2);
    assert Does(s2, events[2].step, 0, ttl, s2);
    OnlyOnePut(states, events, hash);
  }

  /** The get has no other put to go back to than the first event. */
  lemma OnlyOnePut(states: seq<Store>, events: seq<Event>, hash: string)
    requires |events| == 3 && |states| == 4 && events[0].step.Put? && !events[1].step.Put?
    requires events[2].step.Get? && events[2].step.ok && events[2].step.hash == hash && events[2].step.data != events[0].step.data
    ensures !GetsAreRight(states, events)
  {
    assert !GetIsRight(states, events, 2);
  }
}
