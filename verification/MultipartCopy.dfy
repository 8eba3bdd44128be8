/** The multipart copy of aws/s3/internal/operations/copy/copy.go as steps of its goroutines and of the service, in any
    order and with any failures. */
module MultipartCopy {
  import opened PartRanges

  const CONCURRENCY := 5

  datatype Answer = ETag(etag: string) | Failure

  /** The goroutine of one part: it acquires the semaphore, asks the service, sends its result and releases. */
  datatype Worker =
    | Waiting
    | InFlight
    | Answered(answer: Answer)
    | Sent(answer: Answer)
    | Done(answer: Answer)

  datatype CompletedPart = CompletedPart(partNumber: nat, etag: string)

  datatype Phase = Creating | Copying | Completing | Aborting | Finished(success: bool)

  /** Requests answered by the service so far, and what the last Complete listed. */
  datatype Requests = Requests(uploads: nat, completions: nat, failedCompletions: nat, aborts: nat, listed: seq<CompletedPart>)

  /** Worker w copies part w + 1, and its result goes to `parts[w]`, a zero value until then. `channel` holds the workers
      whose results wait to be collected, `taken` those whose results have been; taking them in any order includes the
      order of sending. */
  datatype State = State(
    phase: Phase,
    workers: seq<Worker>,
    sem: int,
    channel: set<nat>,
    taken: set<nat>,
    parts: map<nat, CompletedPart>,
    requests: Requests)

  datatype Event =
    | CreateUpload(ok: bool)
    | Acquire(w: nat)
    | Reply(w: nat, answer: Answer)
    | Send(w: nat)
    | Release(w: nat)
    | Collect(w: nat)
    | CloseResults
    | Complete(ok: bool)
    | Abort

  predicate Holding(w: Worker) {
    w.InFlight? || w.Answered? || w.Sent?
  }

  predicate Reported(w: Worker) {
    w.Sent? || w.Done?
  }

  function Start(numParts: nat): State {
    State(Creating, seq(numParts, i => Waiting), 0, {}, {}, map[], Requests(0, 0, 0, 0, []))
  }

  predicate Enabled(s: State, e: Event) {
    match e
    case CreateUpload(_) => s.phase.Creating?
    case Acquire(w) => s.requests.uploads > 0 && w < |s.workers| && s.workers[w].Waiting? && s.sem < CONCURRENCY
    case Reply(w, _) => w < |s.workers| && s.workers[w].InFlight?
    case Send(w) => w < |s.workers| && s.workers[w].Answered?
    case Release(w) => w < |s.workers| && s.workers[w].Sent?
    case Collect(w) => s.phase.Copying? && w in s.channel && w < |s.workers| && Reported(s.workers[w])
    case CloseResults => s.phase.Copying? && s.channel == {} && forall w :: 0 <= w < |s.workers| ==> s.workers[w].Done?
    case Complete(_) => s.phase.Completing?
    case Abort => s.phase.Aborting?
  }

  function Apply(s: State, e: Event): State
    requires Enabled(s, e)
  {
    match e
    case CreateUpload(ok) =>
      if ok then s.(phase := Copying, requests := s.requests.(uploads := s.requests.uploads + 1))
      else s.(phase := Finished(false))
    case Acquire(w) => s.(workers := s.workers[w := InFlight], sem := s.sem + 1)
    case Reply(w, answer) => s.(workers := s.workers[w := Answered(answer)])
    case Send(w) => s.(workers := s.workers[w := Sent(s.workers[w].answer)], channel := s.channel + {w})
    case Release(w) => s.(workers := s.workers[w := Done(s.workers[w].answer)], sem := s.sem - 1)
    case Collect(w) =>
      var answer := s.workers[w].answer;
      if answer.Failure? then s.(phase := Aborting, channel := s.channel - {w}, taken := s.taken + {w})
      else s.(channel := s.channel - {w}, taken := s.taken + {w}, parts := s.parts[w := CompletedPart(w + 1, answer.etag)])
    case CloseResults => s.(phase := Completing)
    case Complete(ok) =>
      var listed := seq(|s.workers|, w => if w in s.parts then s.parts[w] else CompletedPart(0, ""));
      var r := s.requests.(listed := listed);
      if ok then s.(phase := Finished(true), requests := r.(completions := r.completions + 1))
      else s.(phase := Aborting, requests := r.(failedCompletions := r.failedCompletions + 1))
    case Abort => s.(phase := Finished(false), requests := s.requests.(aborts := s.requests.aborts + 1))
  }

  /** The state after the events; an event that is not enabled when its turn comes does nothing. */
  function After(numParts: nat, events: seq<Event>): State {
    if events == [] then Start(numParts)
    else
      var s, e := After(numParts, events[..|events| - 1]), events[|events| - 1];
      if Enabled(s, e) then Apply(s, e) else s
  }

  /******* The invariant *******/

  ghost function Holders(workers: seq<Worker>): set<nat> {
    set w: nat | w < |workers| && Holding(workers[w])
  }

  /** The semaphore counts the workers between acquiring and releasing it. */
  ghost predicate SemCounts(s: State) {
    s.sem == |Holders(s.workers)| && s.sem <= CONCURRENCY
  }

  /** Each worker that has reported has its result in the channel or taken from it. */
  ghost predicate ResultsMatch(s: State) {
    && (forall w :: w in s.channel + s.taken ==> w < |s.workers| && Reported(s.workers[w]))
    && (forall w: nat :: w < |s.workers| && Reported(s.workers[w]) ==> w in s.channel + s.taken)
  }

  /** Until a failure is met, every result taken is in the slice, under its own number. */
  ghost predicate TakenMatch(s: State) {
    s.phase.Copying? || s.phase.Completing? ==>
      forall w :: w in s.taken && w < |s.workers| && Reported(s.workers[w]) ==>
        && s.workers[w].answer.ETag?
        && w in s.parts && s.parts[w] == CompletedPart(w + 1, s.workers[w].answer.etag)
  }

  /** Every part was copied; each is listed in its place with the ETag the service answered for it. */
  ghost predicate ListsAll(s: State, listed: seq<CompletedPart>) {
    && |listed| == |s.workers|
    && forall w: nat :: w < |s.workers| ==>
         s.workers[w].Done? && s.workers[w].answer.ETag? && listed[w] == CompletedPart(w + 1, s.workers[w].answer.etag)
  }

  ghost predicate PartsComplete(s: State) {
    forall w: nat :: w < |s.workers| ==>
      && s.workers[w].Done? && s.workers[w].answer.ETag?
      && w in s.parts && s.parts[w] == CompletedPart(w + 1, s.workers[w].answer.etag)
  }

  /** Which requests have been answered in which phase. */
  ghost predicate RequestsMatch(s: State) {
    var r := s.requests;
    && (r.completions + r.failedCompletions > 0 ==> ListsAll(s, r.listed))
    && match s.phase
       case Creating => r.uploads == r.completions == r.failedCompletions == r.aborts == 0 && s.taken == {}
       case Copying => r.uploads == 1 && r.completions == r.failedCompletions == r.aborts == 0
       case Completing => r.uploads == 1 && r.completions == r.failedCompletions == r.aborts == 0 && PartsComplete(s)
       case Aborting => r.uploads == 1 && r.completions == r.aborts == 0 && r.failedCompletions <= 1
       case Finished(success) =>
         if r.uploads == 0 then !success && r.completions == r.failedCompletions == r.aborts == 0
         else if success then r.uploads == 1 && r.completions == 1 && r.failedCompletions == r.aborts == 0
         else r.uploads == 1 && r.completions == 0 && r.failedCompletions <= 1 && r.aborts == 1
  }

  ghost predicate Inv(s: State) {
    SemCounts(s) && ResultsMatch(s) && TakenMatch(s) && RequestsMatch(s)
  }

  lemma HoldersPlus(workers: seq<Worker>, w: nat, to: Worker)
    requires w < |workers| && !Holding(workers[w]) && Holding(to)
    ensures |Holders(workers[w := to])| == |Holders(workers)| + 1
  {
    assert Holders(workers[w := to]) == Holders(workers) + {w};
    assert w !in Holders(workers);
  }

  lemma HoldersMinus(workers: seq<Worker>, w: nat, to: Worker)
    requires w < |workers| && Holding(workers[w]) && !Holding(to)
    ensures |Holders(workers[w := to])| == |Holders(workers)| - 1
  {
    assert Holders(workers[w := to]) == Holders(workers) - {w};
    assert w in Holders(workers);
  }

  lemma HoldersSame(workers: seq<Worker>, w: nat, to: Worker)
    requires w < |workers| && Holding(workers[w]) && Holding(to)
    ensures Holders(workers[w := to]) == Holders(workers)
  {
  }

  lemma AcquireKeeps(s: State, w: nat)
    requires Inv(s) && Enabled(s, Acquire(w))
    ensures Inv(Apply(s, Acquire(w)))
  {
    HoldersPlus(s.workers, w, InFlight);
    assert !PartsComplete(s) && !ListsAll(s, s.requests.listed);
  }

  lemma ReplyKeeps(s: State, w: nat, answer: Answer)
    requires Inv(s) && Enabled(s, Reply(w, answer))
    ensures Inv(Apply(s, Reply(w, answer)))
  {
    HoldersSame(s.workers, w, Answered(answer));
  }

  lemma SendKeeps(s: State, w: nat)
    requires Inv(s) && Enabled(s, Send(w))
    ensures Inv(Apply(s, Send(w)))
  {
    HoldersSame(s.workers, w, Sent(s.workers[w].answer));
    SendMatches(s, w);
  }

  lemma SendMatches(s: State, w: nat)
    requires ResultsMatch(s) && TakenMatch(s) && Enabled(s, Send(w))
    ensures ResultsMatch(Apply(s, Send(w))) && TakenMatch(Apply(s, Send(w)))
  {
  }

  lemma ReleaseKeeps(s: State, w: nat)
    requires Inv(s) && Enabled(s, Release(w))
    ensures Inv(Apply(s, Release(w)))
  {
    HoldersMinus(s.workers, w, Done(s.workers[w].answer));
  }

  lemma CollectKeeps(s: State, w: nat)
    requires Inv(s) && Enabled(s, Collect(w))
    ensures Inv(Apply(s, Collect(w)))
  {
  }

  lemma CloseResultsKeeps(s: State)
    requires Inv(s) && Enabled(s, CloseResults)
    ensures Inv(Apply(s, CloseResults))
  {
    forall w: nat | w < |s.workers|
      ensures w in s.taken
    {
      assert Reported(s.workers[w]);
    }
    assert PartsComplete(s);
  }

  lemma CompleteKeeps(s: State, ok: bool)
    requires Inv(s) && Enabled(s, Complete(ok))
    ensures Inv(Apply(s, Complete(ok)))
  {
    var t := Apply(s, Complete(ok));
    assert ListsAll(t, t.requests.listed);
  }

  lemma EventKeeps(s: State, e: Event)
    requires Inv(s) && Enabled(s, e)
    ensures Inv(Apply(s, e))
  {
    match e
    case CreateUpload(_) =>
    case Acquire(w) => AcquireKeeps(s, w);
    case Reply(w, answer) => ReplyKeeps(s, w, answer);
    case Send(w) => SendKeeps(s, w);
    case Release(w) => ReleaseKeeps(s, w);
    case Collect(w) => CollectKeeps(s, w);
    case CloseResults => CloseResultsKeeps(s);
    case Complete(ok) => CompleteKeeps(s, ok);
    case Abort =>
  }

  /******* Over every run *******/

  lemma StartInv(numParts: nat)
    ensures Inv(Start(numParts))
  {
    assert Holders(Start(numParts).workers) == {};
  }

  lemma {:induction false} RunInv(numParts: nat, events: seq<Event>)
    ensures Inv(After(numParts, events)) && |After(numParts, events).workers| == numParts
  {
    if events == [] {
      StartInv(numParts);
    } else {
      var s, e := After(numParts, events[..|events| - 1]), events[|events| - 1];
      RunInv(numParts, events[..|events| - 1]);
      if Enabled(s, e) {
        EventKeeps(s, e);
      }
    }
  }

  /** What a worker reports is what the service replied for its part. */
  lemma {:induction false} AnswersAreReplies(numParts: nat, events: seq<Event>, w: nat)
    requires w < numParts
    ensures |After(numParts, events).workers| == numParts
    ensures var worker := After(numParts, events).workers[w];
            HasAnswer(worker) ==> Reply(w, worker.answer) in events
  {
    RunInv(numParts, events);
    if events != [] {
      var front, e := events[..|events| - 1], events[|events| - 1];
      var s := After(numParts, front);
      RunInv(numParts, front);
      AnswersAreReplies(numParts, front, w);
      assert events == front + [e];
      if Enabled(s, e) {
        AnswerStep(s, e, w);
      }
    }
  }

  predicate HasAnswer(w: Worker) {
    w.Answered? || Reported(w)
  }

  /** An answer comes with a reply and does not change afterwards. */
  lemma AnswerStep(s: State, e: Event, w: nat)
    requires Enabled(s, e) && w < |s.workers|
    ensures w < |Apply(s, e).workers|
    ensures var before, after := s.workers[w], Apply(s, e).workers[w];
            HasAnswer(after) ==> e == Reply(w, after.answer) || (HasAnswer(before) && after.answer == before.answer)
  {
  }

  /** At no time are more than five requests for parts in flight. */
  lemma AtMostFiveInFlight(numParts: nat, events: seq<Event>)
    ensures var s := After(numParts, events);
            |set w: nat | w < |s.workers| && s.workers[w].InFlight?| <= CONCURRENCY
  {
    RunInv(numParts, events);
    var s := After(numParts, events);
    var flying := set w: nat | w < |s.workers| && s.workers[w].InFlight?;
    SubsetSize(flying, Holders(s.workers));
  }

  lemma {:induction false} SubsetSize(a: set<nat>, b: set<nat>)
    requires a <= b
    ensures |a| <= |b|
  {
    if a != {} {
      var x :| x in a;
      SubsetSize(a - {x}, b - {x});
    }
  }

  /** Complete is asked for only when every part has been copied, and lists parts 1 to n in order, each with the ETag
      replied for that part. */
  lemma CompleteListsAllParts(numParts: nat, events: seq<Event>)
    requires var r := After(numParts, events).requests;
             r.completions + r.failedCompletions > 0
    ensures var listed := After(numParts, events).requests.listed;
            && |listed| == numParts
            && forall w :: 0 <= w < numParts ==>
                 listed[w].partNumber == w + 1 && Reply(w, ETag(listed[w].etag)) in events
  {
    RunInv(numParts, events);
    forall w | 0 <= w < numParts
      ensures var listed := After(numParts, events).requests.listed;
              listed[w].partNumber == w + 1 && Reply(w, ETag(listed[w].etag)) in events
    {
      AnswersAreReplies(numParts, events, w);
    }
  }

  /** With the parts the object is cut into, every byte is in exactly one listed part, and that part's copy was answered. */
  lemma ListedPartsCoverObject(size: nat, events: seq<Event>, byte: nat) returns (k: nat)
    requires byte < size
    requires var r := After(CalculateParts(size, PART_SIZE), events).requests;
             r.completions + r.failedCompletions > 0
    ensures var n, listed := CalculateParts(size, PART_SIZE), After(CalculateParts(size, PART_SIZE), events).requests.listed;
            && 1 <= k <= n == |listed| && listed[k - 1].partNumber == k
            && Covers(PartRange(size, PART_SIZE, k), byte) && Reply(k - 1, ETag(listed[k - 1].etag)) in events
            && forall j :: 1 <= j <= n && Covers(PartRange(size, PART_SIZE, j), byte) ==> j == k
  {
    CompleteListsAllParts(CalculateParts(size, PART_SIZE), events);
    k := PartsTile(size, PART_SIZE, byte);
  }

  /** A finished copy has created no upload and asked for nothing else, or has completed it without aborting, or has
      aborted it exactly once without completing it. */
  lemma EveryUploadEnds(numParts: nat, events: seq<Event>)
    requires After(numParts, events).phase.Finished?
    ensures var s := After(numParts, events);
            var r := s.requests;
            || (!s.phase.success && r.uploads == r.completions == r.failedCompletions == r.aborts == 0)
            || (s.phase.success && r.uploads == r.completions == 1 && r.failedCompletions == r.aborts == 0)
            || (!s.phase.success && r.uploads == r.aborts == 1 && r.completions == 0 && r.failedCompletions <= 1)
  {
    RunInv(numParts, events);
  }

  /** As long as the copy has not finished, some step is enabled. */
  lemma NeverStuck(numParts: nat, events: seq<Event>)
    requires !After(numParts, events).phase.Finished?
    ensures exists e :: Enabled(After(numParts, events), e)
  {
    RunInv(numParts, events);
    var s := After(numParts, events);
    match s.phase
    case Creating => assert Enabled(s, CreateUpload(true));
    case Completing => assert Enabled(s, Complete(true));
    case Aborting => assert Enabled(s, Abort);
    case Copying =>
      if s.channel != {} {
        var w :| w in s.channel;
        assert Enabled(s, Collect(w));
      } else if w: nat :| w < |s.workers| && Holding(s.workers[w]) {
        HolderSteps(s, w);
      } else {
        assert Holders(s.workers) == {};
        if w: nat :| w < |s.workers| && s.workers[w].Waiting? {
          assert Enabled(s, Acquire(w));
        } else {
          assert Enabled(s, CloseResults);
        }
      }
  }

  lemma HolderSteps(s: State, w: nat)
    requires w < |s.workers| && Holding(s.workers[w])
    ensures exists e :: Enabled(s, e)
  {
    match s.workers[w]
    case InFlight => assert Enabled(s, Reply(w, Failure));
    case Answered(_) => assert Enabled(s, Send(w));
    case Sent(_) => assert Enabled(s, Release(w));
  }

  /******* It ends *******/

  function Weight(w: Worker): nat {
    match w
    case Waiting => 8
    case InFlight => 6
    case Answered(_) => 4
    case Sent(_) => 2
    case Done(_) => 0
  }

  function WorkersWork(workers: seq<Worker>): nat {
    if workers == [] then 0 else Weight(workers[0]) + WorkersWork(workers[1..])
  }

  function PhaseWork(phase: Phase): nat {
    match phase
    case Creating => 4
    case Copying => 3
    case Completing => 2
    case Aborting => 1
    case Finished(_) => 0
  }

  /** The steps that are left at most. */
  function Work(s: State): nat {
    WorkersWork(s.workers) + |s.channel| + PhaseWork(s.phase)
  }

  lemma {:induction false} WorkerMoves(workers: seq<Worker>, w: nat, to: Worker)
    requires w < |workers|
    ensures WorkersWork(workers[w := to]) == WorkersWork(workers) - Weight(workers[w]) + Weight(to)
  {
    if w == 0 {
      assert workers[w := to][1..] == workers[1..];
    } else {
      assert workers[w := to][1..] == workers[1..][w - 1 := to];
      WorkerMoves(workers[1..], w - 1, to);
    }
  }

  lemma WorkerProgress(s: State, w: nat, e: Event)
    requires w < |s.workers| && Enabled(s, e) && (e.Acquire? || e.Reply? || e.Send? || e.Release?) && e.w == w
    ensures Work(Apply(s, e)) < Work(s)
  {
    var t := Apply(s, e);
    assert t.workers == s.workers[w := t.workers[w]] && t.phase == s.phase;
    WorkerMoves(s.workers, w, t.workers[w]);
    ChannelGrows(s.channel, w);
  }

  lemma ChannelGrows(channel: set<nat>, w: nat)
    ensures |channel + {w}| <= |channel| + 1
  {
    if w in channel {
      assert channel + {w} == channel;
    }
  }

  /** Every step is progress. */
  lemma StepsAreProgress(s: State, e: Event)
    requires Enabled(s, e)
    ensures Work(Apply(s, e)) < Work(s)
  {
    if e.Acquire? || e.Reply? || e.Send? || e.Release? {
      WorkerProgress(s, e.w, e);
    }
  }

  /** Every event is enabled when its turn comes. */
  predicate AllEnabled(numParts: nat, events: seq<Event>) {
    var n := |events|;
    n == 0 || (AllEnabled(numParts, events[..n - 1]) && Enabled(After(numParts, events[..n - 1]), events[n - 1]))
  }

  lemma {:induction false} StartWork(workers: seq<Worker>)
    requires forall w :: 0 <= w < |workers| ==> workers[w].Waiting?
    ensures WorkersWork(workers) == 8 * |workers|
  {
    if workers != [] {
      StartWork(workers[1..]);
    }
  }

  /** No run takes more than eight steps for each part and four for the upload: with NeverStuck, one that goes on while it
      can ends, and every created upload with it. */
  lemma {:induction false} RunsEnd(numParts: nat, events: seq<Event>)
    requires AllEnabled(numParts, events)
    ensures |events| + Work(After(numParts, events)) <= 8 * numParts + 4
  {
    if events == [] {
      StartWork(Start(numParts).workers);
    } else {
      var front := events[..|events| - 1];
      RunsEnd(numParts, front);
      StepsAreProgress(After(numParts, front), events[|events| - 1]);
    }
  }

  /******* Parts after an Abort *******/

  predicate NoneInFlight(s: State) {
    forall w :: 0 <= w < |s.workers| ==> !s.workers[w].InFlight?
  }

  /** No part is in flight or still to be sent. */
  predicate Quiet(s: State) {
    forall w :: 0 <= w < |s.workers| ==> HasAnswer(s.workers[w])
  }

  lemma AfterSnoc(numParts: nat, events: seq<Event>, e: Event)
    ensures After(numParts, events + [e]) ==
            if Enabled(After(numParts, events), e) then Apply(After(numParts, events), e) else After(numParts, events)
  {
    assert (events + [e])[..|events|] == events;
  }

  lemma {:induction false} QuietStays(numParts: nat, events: seq<Event>, more: seq<Event>)
    requires Quiet(After(numParts, events))
    ensures Quiet(After(numParts, events + more))
    decreases |more|
  {
    if more == [] {
      assert events + more == events;
    } else {
      var front, e := more[..|more| - 1], more[|more| - 1];
      QuietStays(numParts, events, front);
      AfterSnoc(numParts, events + front, e);
      assert events + more == events + front + [e];
    }
  }

  /** Once aborted, no part will ever be in flight exactly when every worker has its answer already. */
  lemma QuietExactly(numParts: nat, events: seq<Event>)
    requires After(numParts, events).requests.aborts > 0
    ensures (forall more :: NoneInFlight(After(numParts, events + more))) <==> Quiet(After(numParts, events))
  {
    var s := After(numParts, events);
    if Quiet(s) {
      forall more
        ensures NoneInFlight(After(numParts, events + more))
      {
        QuietStays(numParts, events, more);
      }
    } else {
      var more := PartStillSent(numParts, events);
      assert !NoneInFlight(After(numParts, events + more));
    }
  }

  lemma PartStillSent(numParts: nat, events: seq<Event>) returns (more: seq<Event>)
    requires After(numParts, events).requests.aborts > 0 && !Quiet(After(numParts, events))
    ensures !NoneInFlight(After(numParts, events + more))
  {
    RunInv(numParts, events);
    var s := After(numParts, events);
    assert events + [] == events;
    if !NoneInFlight(s) {
      return [];
    }
    var w :| 0 <= w < |s.workers| && s.workers[w].Waiting?;
    var free := [];
    if s.sem == CONCURRENCY {
      free := FreeSlot(numParts, events, w);
    }
    var all := Then(numParts, events + free, Acquire(w));
    assert After(numParts, all).workers[w].InFlight?;
    more := free + [Acquire(w)];
    assert events + more == all;
  }

  /** A worker that holds a slot and has its answer sends it and releases the slot. */
  lemma FreeSlot(numParts: nat, events: seq<Event>, w: nat) returns (more: seq<Event>)
    requires var s := After(numParts, events);
             Inv(s) && NoneInFlight(s) && s.sem == CONCURRENCY && s.requests.uploads > 0 && w < |s.workers| && s.workers[w].Waiting?
    ensures Enabled(After(numParts, events + more), Acquire(w))
  {
    var s := After(numParts, events);
    var h :| h in Holders(s.workers);
    if s.workers[h].Sent? {
      var all := Then(numParts, events, Release(h));
      return [Release(h)];
    }
    var sent := Then(numParts, events, Send(h));
    var all := Then(numParts, sent, Release(h));
    more := [Send(h), Release(h)];
    assert events + more == all;
  }

  /** An Abort after a failed Complete finds no part in flight. */
  lemma FailedCompleteIsQuiet(numParts: nat, events: seq<Event>)
    requires After(numParts, events).requests.failedCompletions > 0
    ensures Quiet(After(numParts, events))
  {
    RunInv(numParts, events);
  }

  ghost predicate AbortsQuietly(numParts: nat) {
    forall events :: After(numParts, events).requests.aborts > 0 ==> NoneInFlight(After(numParts, events))
  }

  /** Aborted uploads never have a part in flight exactly when there is no second part to be. */
  lemma AbortsQuietlyExactly(numParts: nat)
    ensures AbortsQuietly(numParts) <==> numParts <= 1
  {
    if numParts <= 1 {
      forall events | After(numParts, events).requests.aborts > 0
        ensures NoneInFlight(After(numParts, events))
      {
        AbortedHasReport(numParts, events);
      }
    } else {
      var events := PartAfterAbort(numParts);
      assert !NoneInFlight(After(numParts, events));
    }
  }

  /** A copy is aborted after a collected failure, or when all parts are done. */
  ghost predicate Reporter(s: State) {
    (s.phase.Aborting? || s.requests.aborts > 0) && s.workers != [] ==> exists w: nat :: w < |s.workers| && Reported(s.workers[w])
  }

  lemma {:induction false} AbortedHasReport(numParts: nat, events: seq<Event>)
    ensures Reporter(After(numParts, events)) && |After(numParts, events).workers| == numParts
  {
    RunInv(numParts, events);
    if events != [] {
      var front, e := events[..|events| - 1], events[|events| - 1];
      AbortedHasReport(numParts, front);
      var s := After(numParts, front);
      RunInv(numParts, front);
      if Enabled(s, e) {
        ReporterKeeps(s, e);
      }
    }
  }

  lemma ReporterKeeps(s: State, e: Event)
    requires Inv(s) && Reporter(s) && Enabled(s, e)
    ensures Reporter(Apply(s, e))
  {
    var t := Apply(s, e);
    if (t.phase.Aborting? || t.requests.aborts > 0) && t.workers != [] {
      if s.phase.Aborting? || s.requests.aborts > 0 {
        var w: nat :| w < |s.workers| && Reported(s.workers[w]);
        assert Reported(t.workers[w]);
      } else if e.Collect? {
        assert Reported(t.workers[e.w]);
      } else {
        assert Reported(t.workers[0]);
      }
    }
  }

  /** Part 1 fails and the copy is aborted; part 2 has waited for its turn, and is sent all the same. */
  lemma PartAfterAbort(numParts: nat) returns (events: seq<Event>)
    requires numParts >= 2
    ensures After(numParts, events).requests.aborts > 0 && !NoneInFlight(After(numParts, events))
  {
    events := [CreateUpload(true)];
    AfterSnoc(numParts, [], CreateUpload(true));
    assert [] + events == events;
    events := Then(numParts, events, Acquire(0));
    events := Then(numParts, events, Reply(0, Failure));
    events := Then(numParts, events, Send(0));
    events := Then(numParts, events, Release(0));
    events := Then(numParts, events, Collect(0));
    events := Then(numParts, events, Abort);
    events := Then(numParts, events, Acquire(1));
    assert After(numParts, events).workers[1].InFlight?;
  }

  lemma Then(numParts: nat, events: seq<Event>, e: Event) returns (more: seq<Event>)
    requires Enabled(After(numParts, events), e)
    ensures more == events + [e] && After(numParts, more) == Apply(After(numParts, events), e)
  {
    more := events + [e];
    AfterSnoc(numParts, events, e);
  }

  /******* What the end says about the answers *******/

  /** How often an event of this kind happened. */
  function Times(events: seq<Event>, kind: Event -> bool): nat {
    if events == [] then 0 else Times(events[..|events| - 1], kind) + if kind(events[|events| - 1]) then 1 else 0
  }

  const Uploaded: Event -> bool := e => e == CreateUpload(true)
  const Refused: Event -> bool := e => e == CreateUpload(false)
  const Completed: Event -> bool := e => e == Complete(true)
  const NotCompleted: Event -> bool := e => e == Complete(false)
  const Aborted: Event -> bool := e => e == Abort

  /** The requests are those that were answered. */
  lemma {:induction false} RequestsAreEvents(numParts: nat, events: seq<Event>)
    requires AllEnabled(numParts, events)
    ensures var r := After(numParts, events).requests;
            && r.uploads == Times(events, Uploaded) && r.aborts == Times(events, Aborted)
            && r.completions == Times(events, Completed) && r.failedCompletions == Times(events, NotCompleted)
  {
    if events != [] {
      RequestsAreEvents(numParts, events[..|events| - 1]);
    }
  }

  /** A failed part has been collected. */
  ghost predicate PartFailed(events: seq<Event>) {
    exists w: nat :: Reply(w, Failure) in events && Collect(w) in events
  }

  ghost predicate CompleteFailed(events: seq<Event>) {
    Complete(false) in events
  }

  /** The phase tells what has happened, and what has happened tells the phase. */
  ghost predicate PhaseTells(s: State, events: seq<Event>) {
    && (s.phase.Creating? <==> events == [])
    && (s.phase.Creating? ==> forall w :: 0 <= w < |s.workers| ==> s.workers[w].Waiting?)
    && (s.phase == Finished(true) <==> Complete(true) in events)
    && (s.phase.Aborting? <==> (PartFailed(events) || CompleteFailed(events)) && Abort !in events)
    && (s.phase == Finished(false) <==> CreateUpload(false) in events || Abort in events)
    && (Abort in events ==> PartFailed(events) || CompleteFailed(events))
    && (forall w :: Collect(w) in events ==> w in s.taken)
  }

  lemma PhaseTellsStart(numParts: nat)
    ensures PhaseTells(Start(numParts), [])
  {
  }

  lemma PartFailedMore(events: seq<Event>, e: Event)
    requires PartFailed(events)
    ensures PartFailed(events + [e])
  {
    var w: nat :| Reply(w, Failure) in events && Collect(w) in events;
    assert Reply(w, Failure) in events + [e] && Collect(w) in events + [e];
  }

  /** Without a new event of these kinds nothing new has failed. */
  lemma PartFailedSame(s: State, events: seq<Event>, e: Event)
    requires Inv(s) && Enabled(s, e) && !e.Collect? && PhaseTells(s, events)
    ensures PartFailed(events + [e]) <==> PartFailed(events)
  {
    if PartFailed(events) {
      PartFailedMore(events, e);
    }
    if w: nat :| Reply(w, Failure) in events + [e] && Collect(w) in events + [e] {
      assert Collect(w) in events && w in s.taken;
      assert e != Reply(w, Failure);
      assert Reply(w, Failure) in events;
    }
  }

  /** Once replied, a worker keeps its answer. */
  lemma {:induction false} RepliesAreAnswers(numParts: nat, events: seq<Event>, w: nat, answer: Answer)
    requires AllEnabled(numParts, events) && Reply(w, answer) in events
    ensures var workers := After(numParts, events).workers;
            w < |workers| && HasAnswer(workers[w]) && workers[w].answer == answer
  {
    var front, e := events[..|events| - 1], events[|events| - 1];
    assert events == front + [e];
    if e != Reply(w, answer) {
      RepliesAreAnswers(numParts, front, w, answer);
    }
  }

  /** Collecting a part makes the difference exactly when the service refused to copy it. */
  lemma PartFailedCollect(numParts: nat, events: seq<Event>, w: nat)
    requires AllEnabled(numParts, events) && Enabled(After(numParts, events), Collect(w)) && w < numParts
    requires |After(numParts, events).workers| == numParts
    ensures PartFailed(events + [Collect(w)]) <==>
            PartFailed(events) || After(numParts, events).workers[w].answer.Failure?
  {
    var e := Collect(w);
    AnswersAreReplies(numParts, events, w);
    if PartFailed(events) {
      PartFailedMore(events, e);
    }
    if After(numParts, events).workers[w].answer.Failure? {
      assert Reply(w, Failure) in events + [e] && Collect(w) in events + [e];
    }
    if v: nat :| Reply(v, Failure) in events + [e] && Collect(v) in events + [e] {
      assert Reply(v, Failure) in events;
      RepliesAreAnswers(numParts, events, v, Failure);
      assert v != w ==> Collect(v) in events;
    }
  }

  lemma {:induction false} RunTells(numParts: nat, events: seq<Event>)
    requires AllEnabled(numParts, events)
    ensures PhaseTells(After(numParts, events), events)
  {
    if events == [] {
      PhaseTellsStart(numParts);
    } else {
      var front, e := events[..|events| - 1], events[|events| - 1];
      var s := After(numParts, front);
      RunTells(numParts, front);
      RunInv(numParts, front);
      assert events == front + [e];
      if e.Collect? {
        PartFailedCollect(numParts, front, e.w);
        CollectTells(s, front, e.w);
      } else {
        PartFailedSame(s, front, e);
        OtherTells(s, front, e);
      }
    }
  }

  lemma CollectTells(s: State, events: seq<Event>, w: nat)
    requires Inv(s) && Enabled(s, Collect(w)) && PhaseTells(s, events)
    requires PartFailed(events + [Collect(w)]) <==> PartFailed(events) || s.workers[w].answer.Failure?
    ensures PhaseTells(Apply(s, Collect(w)), events + [Collect(w)])
  {
    var more := events + [Collect(w)];
    assert forall x :: x in more <==> x in events || x == Collect(w);
  }

  lemma OtherTells(s: State, events: seq<Event>, e: Event)
    requires Inv(s) && Enabled(s, e) && !e.Collect? && PhaseTells(s, events)
    requires PartFailed(events + [e]) <==> PartFailed(events)
    ensures PhaseTells(Apply(s, e), events + [e])
  {
    var more := events + [e];
    InMore(events, e, Complete(true));
    InMore(events, e, Complete(false));
    InMore(events, e, CreateUpload(false));
    InMore(events, e, Abort);
    forall w | Collect(w) in more
      ensures w in Apply(s, e).taken
    {
      InMore(events, e, Collect(w));
    }
  }

  lemma InMore(events: seq<Event>, e: Event, x: Event)
    ensures x in events + [e] <==> x in events || x == e
  {
  }

  /** A copy succeeds exactly when the service accepts the Complete. It aborts only when a part was refused and collected, or
      the Complete was. */
  lemma SucceedsExactly(numParts: nat, events: seq<Event>)
    requires AllEnabled(numParts, events)
    ensures var s := After(numParts, events);
            && (s.phase == Finished(true) <==> Complete(true) in events)
            && (Enabled(s, Abort) ==> PartFailed(events) || CompleteFailed(events))
            && (Abort in events ==> PartFailed(events) || CompleteFailed(events))
  {
    RunTells(numParts, events);
  }

  /** When the service accepts everything, a copy that has finished has succeeded, without an Abort. */
  lemma AllAcceptedSucceeds(numParts: nat, events: seq<Event>)
    requires AllEnabled(numParts, events) && After(numParts, events).phase.Finished?
    requires CreateUpload(false) !in events && Complete(false) !in events
    requires forall w :: 0 <= w < numParts ==> Reply(w, Failure) !in events
    ensures After(numParts, events).phase.success && Complete(true) in events && Abort !in events
  {
    RunTells(numParts, events);
    if PartFailed(events) {
      var w: nat :| Reply(w, Failure) in events && Collect(w) in events;
      RepliesAreAnswers(numParts, events, w, Failure);
      RunInv(numParts, events);
    }
  }
}
