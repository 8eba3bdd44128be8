/** DeleteParallel, DeleteStream and OptimizedDeleter as steps that may come in any order. */
module BatchProtocols {
  import opened BatchDelete
  import opened Lists
  import opened Optional

  /******* DeleteParallel *******/

  /** Batches not started, batches whose request is under way, workers that have sent but still hold their slot, and the
      two channels. The log has the requests in the order of their answers. */
  datatype Parallel = Parallel(
    limit: nat, waiting: seq<seq<string>>, flying: seq<seq<string>>, releasing: nat,
    results: seq<DeleteResult>, failures: seq<seq<string>>, log: seq<Request>)

  datatype ParallelEvent = Start | Send(k: nat, answer: Answer) | Release

  predicate Enabled(s: Parallel, e: ParallelEvent) {
    match e
    case Start => s.waiting != [] && |s.flying| + s.releasing < s.limit
    case Send(k, _) => k < |s.flying|
    case Release => s.releasing > 0
  }

  function After(s: Parallel, e: ParallelEvent): Parallel {
    if !Enabled(s, e) then s
    else
      match e
      case Start => s.(waiting := s.waiting[1..], flying := s.flying + [s.waiting[0]])
      case Send(k, answer) =>
        var t := s.(flying := Removed(s.flying, k), releasing := s.releasing + 1,
                    log := s.log + [Request(s.flying[k], answer)]);
        if answer.Some? then t.(results := s.results + [answer.value]) else t.(failures := s.failures + [s.flying[k]])
      case Release => s.(releasing := s.releasing - 1)
  }

  function Begin(batches: seq<seq<string>>, limit: nat): Parallel {
    Parallel(limit, batches, [], 0, [], [], [])
  }

  function Run(batches: seq<seq<string>>, limit: nat, events: seq<ParallelEvent>): Parallel {
    if events == [] then Begin(batches, limit)
    else After(Run(batches, limit, events[..|events| - 1]), events[|events| - 1])
  }

  /** What wg.Wait waits for. */
  predicate Finished(s: Parallel) {
    s.waiting == [] && s.flying == [] && s.releasing == 0
  }

  function Merged(results: seq<DeleteResult>): DeleteResult {
    if results == [] then EMPTY else Merge(Merged(results[..|results| - 1]), results[|results| - 1])
  }

  /** The result that is returned: everything received, and an error without a key for each failed request. */
  function Final(s: Parallel): DeleteResult {
    Merge(Merged(s.results), DeleteResult([], seq(|s.failures|, i => DeleteError("", "ParallelBatchError"))))
  }

  /** The errors in the answers, and the keys of the requests without one. */
  function AnsweredErrors(log: seq<Request>): seq<DeleteError> {
    if log == [] then []
    else
      var last := log[|log| - 1].answer;
      AnsweredErrors(log[..|log| - 1]) + if last.Some? then last.value.errors else []
  }

  function Unanswered(log: seq<Request>): seq<seq<string>> {
    if log == [] then []
    else
      var last := log[|log| - 1];
      Unanswered(log[..|log| - 1]) + if last.answer.None? then [last.keys] else []
  }

  ghost predicate ParallelInv(s: Parallel, keys: multiset<string>, batches: nat) {
    && |s.flying| + s.releasing <= s.limit
    && |s.waiting| + |s.flying| + |s.log| == batches
    && KeysOf(s.waiting) + KeysOf(s.flying) + KeysOf(Batches(s.log)) == keys
    && Merged(s.results) == DeleteResult(Confirmed(s.log), AnsweredErrors(s.log))
    && s.failures == Unanswered(s.log)
  }

  lemma StartKeeps(s: Parallel, keys: multiset<string>, batches: nat)
    requires ParallelInv(s, keys, batches) && Enabled(s, Start)
    ensures ParallelInv(After(s, Start), keys, batches)
  {
    KeysOfRemoved(s.waiting, 0);
    assert Removed(s.waiting, 0) == s.waiting[1..];
    KeysOfSnoc(s.flying, s.waiting[0]);
  }

  lemma BatchesSnoc(log: seq<Request>, r: Request)
    ensures KeysOf(Batches(log + [r])) == KeysOf(Batches(log)) + multiset(r.keys)
  {
    assert Batches(log + [r]) == Batches(log) + [r.keys];
    KeysOfSnoc(Batches(log), r.keys);
  }

  lemma SendKeeps(s: Parallel, k: nat, answer: Answer, keys: multiset<string>, batches: nat)
    requires ParallelInv(s, keys, batches) && Enabled(s, Send(k, answer))
    ensures ParallelInv(After(s, Send(k, answer)), keys, batches)
  {
    var r := Request(s.flying[k], answer);
    KeysOfRemoved(s.flying, k);
    BatchesSnoc(s.log, r);
    LogNext(s.log, r);
    if answer.Some? {
      MergedSnoc(s.results, answer.value);
    }
  }

  lemma MergedSnoc(results: seq<DeleteResult>, r: DeleteResult)
    ensures Merged(results + [r]) == Merge(Merged(results), r)
  {
    assert (results + [r])[..|results|] == results;
  }

  lemma ParallelKeeps(s: Parallel, e: ParallelEvent, keys: multiset<string>, batches: nat)
    requires ParallelInv(s, keys, batches)
    ensures ParallelInv(After(s, e), keys, batches)
  {
    if Enabled(s, e) {
      match e
      case Start => StartKeeps(s, keys, batches);
      case Send(k, answer) => SendKeeps(s, k, answer, keys, batches);
      case Release =>
    }
  }

  lemma BeginInv(batches: seq<seq<string>>, limit: nat)
    ensures ParallelInv(Begin(batches, limit), multiset(Flatten(batches)), |batches|)
  {
    FlattenKeys(batches);
    assert KeysOf([]) == multiset{} && Batches([]) == [];
  }

  lemma {:induction false} ParallelRunInv(batches: seq<seq<string>>, limit: nat, events: seq<ParallelEvent>)
    ensures ParallelInv(Run(batches, limit, events), multiset(Flatten(batches)), |batches|)
    ensures Run(batches, limit, events).limit == limit
  {
    if events == [] {
      BeginInv(batches, limit);
    } else {
      var n := |events| - 1;
      ParallelRunInv(batches, limit, events[..n]);
      ParallelKeeps(Run(batches, limit, events[..n]), events[n], multiset(Flatten(batches)), |batches|);
    }
  }

  /** The log has what was sent: each answered request is one of the events. */
  lemma {:induction false} ParallelLogIsEvents(batches: seq<seq<string>>, limit: nat, events: seq<ParallelEvent>, i: nat)
    requires i < |Run(batches, limit, events).log|
    ensures exists k :: Send(k, Run(batches, limit, events).log[i].answer) in events
  {
    var n := |events| - 1;
    var s := Run(batches, limit, events[..n]);
    if i < |s.log| {
      ParallelLogIsEvents(batches, limit, events[..n], i);
      var k :| Send(k, s.log[i].answer) in events[..n];
      assert Send(k, Run(batches, limit, events).log[i].answer) in events;
    } else {
      assert events[n] in events;
    }
  }

  /** The empty key, so many times. */
  function Blank(n: nat): multiset<string> {
    multiset{}["" := n]
  }

  lemma {:induction false} BlankErrors(errors: seq<DeleteError>)
    requires forall i :: 0 <= i < |errors| ==> errors[i].key == ""
    ensures multiset(ErrorKeys(errors)) == Blank(|errors|)
  {
    if errors != [] {
      BlankErrors(errors[..|errors| - 1]);
    }
  }

  lemma LogNext(front: seq<Request>, last: Request)
    ensures var log, before := front + [last], DeleteResult(Confirmed(front), AnsweredErrors(front));
            && DeleteResult(Confirmed(log), AnsweredErrors(log)) == (if last.answer.Some? then Merge(before, last.answer.value) else before)
            && Unanswered(log) == Unanswered(front) + if last.answer.None? then [last.keys] else []
  {
    assert (front + [last])[..|front|] == front;
  }

  lemma {:induction false} LogReports(log: seq<Request>)
    requires AllHonest(log)
    ensures Reported(DeleteResult(Confirmed(log), AnsweredErrors(log))) + KeysOf(Unanswered(log)) == KeysOf(Batches(log))
  {
    if log == [] {
      assert ErrorKeys([]) == [] && Batches(log) == [];
    } else {
      var front, last := log[..|log| - 1], log[|log| - 1];
      LogReports(front);
      assert log == front + [last];
      LogReportsOn(front, last);
    }
  }

  lemma LogReportsOn(front: seq<Request>, last: Request)
    requires Honest(last.answer, last.keys)
    requires Reported(DeleteResult(Confirmed(front), AnsweredErrors(front))) + KeysOf(Unanswered(front)) == KeysOf(Batches(front))
    ensures var log := front + [last];
            Reported(DeleteResult(Confirmed(log), AnsweredErrors(log))) + KeysOf(Unanswered(log)) == KeysOf(Batches(log))
  {
    BatchesSnoc(front, last);
    LogNext(front, last);
    OneMoreReports(DeleteResult(Confirmed(front), AnsweredErrors(front)), Unanswered(front), last);
  }

  lemma OneMoreReports(before: DeleteResult, unanswered: seq<seq<string>>, last: Request)
    requires Honest(last.answer, last.keys)
    ensures var after := if last.answer.Some? then Merge(before, last.answer.value) else before;
            var left := unanswered + if last.answer.None? then [last.keys] else [];
            Reported(after) + KeysOf(left) == Reported(before) + KeysOf(unanswered) + multiset(last.keys)
  {
    if last.answer.Some? {
      MergeReports(before, last.answer.value);
      assert unanswered + [] == unanswered;
    } else {
      KeysOfSnoc(unanswered, last.keys);
    }
  }

  /** In any order of replies: every key is asked for as often as it was given. What is returned as deleted is what the
      answers confirm, in their order; the errors are those of the answers, and one without a key for each failed request. */
  lemma ParallelSaysSo(keys: seq<string>, batches: seq<seq<string>>, limit: nat, events: seq<ParallelEvent>)
    requires Flatten(batches) == keys
    ensures var s := Run(batches, limit, events);
            Finished(s) ==>
              && |s.log| == |batches| && KeysOf(Batches(s.log)) == multiset(keys)
              && Final(s).deleted == Confirmed(s.log)
              && Final(s).errors == AnsweredErrors(s.log) +
                                    seq(|Unanswered(s.log)|, i => DeleteError("", "ParallelBatchError"))
  {
    ParallelRunInv(batches, limit, events);
    var s := Run(batches, limit, events);
    if Finished(s) {
      assert KeysOf(s.waiting) == multiset{} && KeysOf(s.flying) == multiset{};
    }
  }

  /** When each successful answer reports its own keys once, the result reports each key of the requests that succeeded once,
      and for each failed request an error without a key in place of that request's keys. */
  lemma ParallelAccountsForAll(keys: seq<string>, batches: seq<seq<string>>, limit: nat, events: seq<ParallelEvent>)
    requires Flatten(batches) == keys
    ensures var s := Run(batches, limit, events);
            Finished(s) && AllHonest(s.log) ==>
              Reported(Final(s)) + KeysOf(Unanswered(s.log)) == multiset(keys) + Blank(|Unanswered(s.log)|)
  {
    ParallelRunInv(batches, limit, events);
    ParallelSaysSo(keys, batches, limit, events);
    var s := Run(batches, limit, events);
    if Finished(s) && AllHonest(s.log) {
      LogReports(s.log);
      FinalReports(s);
    }
  }

  lemma FinalReports(s: Parallel)
    ensures Reported(Final(s)) == Reported(Merged(s.results)) + Blank(|s.failures|)
  {
    var errors := seq(|s.failures|, i => DeleteError("", "ParallelBatchError"));
    BlankErrors(errors);
    MergeReports(Merged(s.results), DeleteResult([], errors));
  }

  /** There are never more requests under way than slots. */
  lemma ParallelWithinLimit(batches: seq<seq<string>>, limit: nat, events: seq<ParallelEvent>)
    ensures |Run(batches, limit, events).flying| <= limit
  {
    ParallelRunInv(batches, limit, events);
  }

  function ParallelWork(s: Parallel): nat {
    3 * |s.waiting| + 2 * |s.flying| + s.releasing
  }

  /** Until it has finished some step is possible, and every step brings it nearer to the end. */
  lemma ParallelEnds(s: Parallel, e: ParallelEvent)
    requires s.limit >= 1
    ensures !Finished(s) ==> Enabled(s, Start) || Enabled(s, Send(0, None)) || Enabled(s, Release)
    ensures Enabled(s, e) ==> ParallelWork(After(s, e)) < ParallelWork(s)
  {
  }

  /******* DeleteStream *******/

  /** Keys still to come, the batch being collected, requests under way, slots not yet free, and the result under the mutex. */
  datatype Stream = Stream(
    size: nat, limit: nat, coming: seq<string>, batch: seq<string>, flying: seq<seq<string>>, releasing: nat,
    result: DeleteResult, log: seq<Request>)

  datatype StreamEvent = Receive | Launch | Reply(k: nat, answer: Answer) | Free

  /** A batch goes when it is full, or when no key is coming any more. */
  predicate Possible(s: Stream, e: StreamEvent) {
    match e
    case Receive => s.coming != [] && |s.batch| < s.size
    case Launch => s.batch != [] && (|s.batch| >= s.size || s.coming == []) && |s.flying| + s.releasing < s.limit
    case Reply(k, _) => k < |s.flying|
    case Free => s.releasing > 0
  }

  function Next(s: Stream, e: StreamEvent): Stream {
    if !Possible(s, e) then s
    else
      match e
      case Receive => s.(coming := s.coming[1..], batch := s.batch + [s.coming[0]])
      case Launch => s.(batch := [], flying := s.flying + [s.batch])
      case Reply(k, answer) =>
        s.(flying := Removed(s.flying, k), releasing := s.releasing + 1,
           result := Merge(s.result, Contribution(answer, s.flying[k], "StreamBatchError")),
           log := s.log + [Request(s.flying[k], answer)])
      case Free => s.(releasing := s.releasing - 1)
  }

  function StreamRun(keys: seq<string>, size: nat, limit: nat, events: seq<StreamEvent>): Stream {
    if events == [] then Stream(size, limit, keys, [], [], 0, EMPTY, [])
    else Next(StreamRun(keys, size, limit, events[..|events| - 1]), events[|events| - 1])
  }

  predicate Drained(s: Stream) {
    s.coming == [] && s.batch == [] && s.flying == [] && s.releasing == 0
  }

  ghost predicate StreamInv(s: Stream, keys: multiset<string>) {
    && |s.batch| <= s.size && |s.flying| + s.releasing <= s.limit
    && (forall k :: 0 <= k < |s.flying| ==> 1 <= |s.flying[k]| <= s.size)
    && multiset(s.coming) + multiset(s.batch) + KeysOf(s.flying) + KeysOf(Batches(s.log)) == keys
    && s.result == Outcome(s.log, "StreamBatchError")
  }

  lemma ReceiveKeeps(s: Stream, keys: multiset<string>)
    requires StreamInv(s, keys) && Possible(s, Receive)
    ensures StreamInv(Next(s, Receive), keys)
  {
    assert s.coming == [s.coming[0]] + s.coming[1..];
    assert multiset(s.coming) == multiset{s.coming[0]} + multiset(s.coming[1..]);
  }

  lemma LaunchKeeps(s: Stream, keys: multiset<string>)
    requires StreamInv(s, keys) && Possible(s, Launch)
    ensures StreamInv(Next(s, Launch), keys)
  {
    KeysOfSnoc(s.flying, s.batch);
  }

  lemma ReplyKeeps(s: Stream, k: nat, answer: Answer, keys: multiset<string>)
    requires StreamInv(s, keys) && Possible(s, Reply(k, answer))
    ensures StreamInv(Next(s, Reply(k, answer)), keys)
  {
    KeysOfRemoved(s.flying, k);
    BatchesSnoc(s.log, Request(s.flying[k], answer));
    OutcomeNext(s.log, Request(s.flying[k], answer));
  }

  lemma OutcomeNext(log: seq<Request>, r: Request)
    ensures Outcome(log + [r], "StreamBatchError") ==
            Merge(Outcome(log, "StreamBatchError"), Contribution(r.answer, r.keys, "StreamBatchError"))
  {
    assert (log + [r])[..|log|] == log;
  }

  lemma StreamKeeps(s: Stream, e: StreamEvent, keys: multiset<string>)
    requires StreamInv(s, keys)
    ensures StreamInv(Next(s, e), keys)
  {
    if Possible(s, e) {
      match e
      case Receive => ReceiveKeeps(s, keys);
      case Launch => LaunchKeeps(s, keys);
      case Reply(k, answer) => ReplyKeeps(s, k, answer, keys);
      case Free =>
    }
  }

  lemma {:induction false} StreamRunInv(keys: seq<string>, size: nat, limit: nat, events: seq<StreamEvent>)
    ensures StreamInv(StreamRun(keys, size, limit, events), multiset(keys))
  {
    if events == [] {
      assert Batches([]) == [] && KeysOf([]) == multiset{};
    } else {
      var n := |events| - 1;
      StreamRunInv(keys, size, limit, events[..n]);
      StreamKeeps(StreamRun(keys, size, limit, events[..n]), events[n], multiset(keys));
    }
  }

  /** In any order of replies and merges: every key of the channel is asked for as often as it came, what is reported deleted
      is what the answers confirm, and the errors are those of the answers and one for each key of a failed request. */
  lemma StreamSaysSo(keys: seq<string>, size: nat, limit: nat, events: seq<StreamEvent>)
    ensures var s := StreamRun(keys, size, limit, events);
            && SaysSo(s.log, "StreamBatchError", s.result)
            && (Drained(s) ==> KeysOf(Batches(s.log)) == multiset(keys))
  {
    StreamRunInv(keys, size, limit, events);
    OutcomeIs(StreamRun(keys, size, limit, events).log, "StreamBatchError");
  }

  /** When each successful answer reports its own keys once, each key of the channel ends up in Deleted or in Errors, as often
      as it came. */
  lemma StreamAccountsForAll(keys: seq<string>, size: nat, limit: nat, events: seq<StreamEvent>)
    ensures var s := StreamRun(keys, size, limit, events);
            Drained(s) && AllHonest(s.log) ==> Reported(s.result) == multiset(keys)
  {
    StreamRunInv(keys, size, limit, events);
    var s := StreamRun(keys, size, limit, events);
    if Drained(s) && AllHonest(s.log) {
      OutcomeReports(s.log, "StreamBatchError");
    }
  }

  /** The log has what was answered. */
  lemma {:induction false} StreamLogIsEvents(keys: seq<string>, size: nat, limit: nat, events: seq<StreamEvent>, i: nat)
    requires i < |StreamRun(keys, size, limit, events).log|
    ensures exists k :: Reply(k, StreamRun(keys, size, limit, events).log[i].answer) in events
  {
    var n := |events| - 1;
    var s := StreamRun(keys, size, limit, events[..n]);
    if i < |s.log| {
      StreamLogIsEvents(keys, size, limit, events[..n], i);
      var k :| Reply(k, s.log[i].answer) in events[..n];
      assert Reply(k, StreamRun(keys, size, limit, events).log[i].answer) in events;
    } else {
      assert events[n] in events;
    }
  }

  function StreamWork(s: Stream): nat {
    4 * |s.coming| + 3 * |s.batch| + 2 * |s.flying| + s.releasing
  }

  /** Until everything is drained some step is possible, and every step is progress. */
  lemma StreamEnds(s: Stream, e: StreamEvent)
    requires s.limit >= 1 && s.size >= 1
    ensures !Drained(s) ==> Possible(s, Receive) || Possible(s, Launch) || Possible(s, Reply(0, None)) || Possible(s, Free)
    ensures Possible(s, e) ==> StreamWork(Next(s, e)) < StreamWork(s)
  {
  }

  /******* OptimizedDeleter *******/

  /** The critical sections: appending a key, and taking all that are pending. */
  datatype Section = Append(key: string) | Take

  /** The keys pending, and the lists that were taken, in the order of the lock. */
  datatype Buffer = Buffer(pending: seq<string>, taken: seq<seq<string>>)

  function Enter(b: Buffer, section: Section): Buffer {
    match section
    case Append(key) => b.(pending := b.pending + [key])
    case Take => Buffer([], b.taken + [b.pending])
  }

  function Sections(sections: seq<Section>): Buffer {
    if sections == [] then Buffer([], []) else Enter(Sections(sections[..|sections| - 1]), sections[|sections| - 1])
  }

  function Added(sections: seq<Section>): seq<string> {
    if sections == [] then []
    else
      var n := |sections| - 1;
      Added(sections[..n]) + if sections[n].Append? then [sections[n].key] else []
  }

  /** In any interleaving the keys added are those handed out and those pending, in the order they were added. */
  lemma {:induction false} NothingLostOrRepeated(sections: seq<Section>)
    ensures var b := Sections(sections);
            Added(sections) == Flatten(b.taken) + b.pending
  {
    if sections != [] {
      var n := |sections| - 1;
      NothingLostOrRepeated(sections[..n]);
      var b := Sections(sections[..n]);
      match sections[n]
      case Append(key) =>
        assert Flatten(b.taken) + (b.pending + [key]) == (Flatten(b.taken) + b.pending) + [key];
      case Take =>
        assert (b.taken + [b.pending])[..|b.taken|] == b.taken;
        assert Flatten(b.taken) + b.pending + [] == Flatten(b.taken) + b.pending;
    }
  }

  class OptimizedDeleter {
    const deleter: BatchDeleter
    const flushSize: int
    var pendingKeys: seq<string>
    ghost var taken: seq<seq<string>>

    ghost function State(): Buffer
      reads this
    {
      Buffer(pendingKeys, taken)
    }

    constructor (client: Client, flushSize: int)
      ensures State() == Sections([]) && fresh(deleter) && deleter.client == client && deleter.maxBatchSize == MAX_BATCH_SIZE
      ensures this.flushSize == if flushSize <= 0 then 1000 else flushSize
    {
      deleter := new BatchDeleter(client);
      this.flushSize := if flushSize <= 0 then 1000 else flushSize;
      pendingKeys, taken := [], [];
    }

    method Add(key: string)
      modifies this
      ensures State() == Enter(old(State()), Append(key))
    {
      pendingKeys := pendingKeys + [key];
    }

    /** The locked part of Flush. */
    method TakePending() returns (keys: seq<string>)
      modifies this
      ensures State() == Enter(old(State()), Take) && keys == old(pendingKeys)
    {
      keys := pendingKeys;
      pendingKeys := [];
      taken := taken + [keys];
    }

    /** Everything pending is handed to the deleter; no result means that its single request failed. */
    method Flush() returns (r: Option<DeleteResult>, ghost sent: seq<Request>)
      requires deleter.maxBatchSize >= 1
      modifies this, deleter.client
      ensures State() == Enter(old(State()), Take)
      ensures deleter.client.log == old(deleter.client.log) + sent
      ensures r.Some? && AllHonest(sent) ==> Reported(r.value) == multiset(old(pendingKeys))
      ensures Handled(old(pendingKeys), deleter.maxBatchSize, sent, r)
    {
      var keys := TakePending();
      if |keys| == 0 {
        assert ErrorKeys([]) == [];
        return Some(EMPTY), [];
      }
      r, sent := deleter.DeleteBatch(keys);
    }

    /** When nobody comes between its two sections. */
    method DeleteWithAutoFlush(key: string) returns (flushed: bool, r: Option<DeleteResult>, ghost sent: seq<Request>)
      requires deleter.maxBatchSize >= 1
      modifies this, deleter.client
      ensures flushed <==> |old(pendingKeys)| + 1 >= flushSize
      ensures State() == (if flushed then Enter(Enter(old(State()), Append(key)), Take) else Enter(old(State()), Append(key)))
      ensures deleter.client.log == old(deleter.client.log) + sent && (!flushed ==> sent == [])
      ensures flushed ==> Handled(old(pendingKeys) + [key], deleter.maxBatchSize, sent, r)
      ensures flushed && r.Some? && AllHonest(sent) ==> Reported(r.value) == multiset(old(pendingKeys) + [key])
    {
      pendingKeys := pendingKeys + [key];
      flushed, r, sent := |pendingKeys| >= flushSize, None, [];
      if flushed {
        r, sent := Flush();
      }
    }
  }
}
