/** Deleting many objects in batches (aws/s3/internal/operations/delete/batch.go). What S3 answers is arbitrary. */
module BatchDelete {
  import opened Lists
  import opened Optional

  datatype DeleteError = DeleteError(key: string, code: string)

  datatype DeleteResult = DeleteResult(deleted: seq<string>, errors: seq<DeleteError>)

  const EMPTY := DeleteResult([], [])
  const MAX_BATCH_SIZE: nat := 1000

  function ErrorKeys(errors: seq<DeleteError>): (r: seq<string>)
    ensures |r| == |errors| && forall i :: 0 <= i < |errors| ==> r[i] == errors[i].key
  {
    if errors == [] then [] else ErrorKeys(errors[..|errors| - 1]) + [errors[|errors| - 1].key]
  }

  /** The keys a result accounts for, as often as it does. */
  function Reported(r: DeleteResult): multiset<string> {
    multiset(r.deleted) + multiset(ErrorKeys(r.errors))
  }

  function Merge(a: DeleteResult, b: DeleteResult): DeleteResult {
    DeleteResult(a.deleted + b.deleted, a.errors + b.errors)
  }

  lemma {:induction false} ErrorKeysAppend(a: seq<DeleteError>, b: seq<DeleteError>)
    ensures ErrorKeys(a + b) == ErrorKeys(a) + ErrorKeys(b)
    decreases |b|
  {
    if b == [] {
      assert a + b == a;
    } else {
      assert (a + b)[..|a + b| - 1] == a + b[..|b| - 1];
      ErrorKeysAppend(a, b[..|b| - 1]);
    }
  }

  lemma MergeReports(a: DeleteResult, b: DeleteResult)
    ensures Reported(Merge(a, b)) == Reported(a) + Reported(b)
  {
    ErrorKeysAppend(a.errors, b.errors);
  }

  /** One error for each key of a batch whose request failed. */
  function Failed(keys: seq<string>, code: string): DeleteResult {
    DeleteResult([], FailedErrors(keys, code))
  }

  function FailedErrors(keys: seq<string>, code: string): seq<DeleteError> {
    if keys == [] then [] else FailedErrors(keys[..|keys| - 1], code) + [DeleteError(keys[|keys| - 1], code)]
  }

  lemma {:induction false} FailedKeys(keys: seq<string>, code: string)
    ensures ErrorKeys(FailedErrors(keys, code)) == keys
  {
    if keys != [] {
      var front, last := keys[..|keys| - 1], keys[|keys| - 1];
      FailedKeys(front, code);
      var f := FailedErrors(front, code);
      assert (f + [DeleteError(last, code)])[..|f|] == f;
      assert keys == front + [last];
    }
  }

  lemma FailedReports(keys: seq<string>, code: string)
    ensures Reported(Failed(keys, code)) == multiset(keys)
  {
    FailedKeys(keys, code);
  }

  /** The answer to one request, with the keys reported once each or not. */
  type Answer = Option<DeleteResult>

  predicate Honest(answer: Answer, keys: seq<string>) {
    answer.Some? ==> Reported(answer.value) == multiset(keys)
  }

  /** What a batch adds to the result, keyed errors standing for a failed request. */
  function Contribution(answer: Answer, keys: seq<string>, code: string): DeleteResult {
    if answer.Some? then answer.value else Failed(keys, code)
  }

  lemma ContributionReports(answer: Answer, keys: seq<string>, code: string)
    requires Honest(answer, keys)
    ensures Reported(Contribution(answer, keys, code)) == multiset(keys)
  {
    FailedReports(keys, code);
  }

  /******* Lists of batches *******/

  function KeysOf(batches: seq<seq<string>>): multiset<string> {
    if batches == [] then multiset{} else KeysOf(batches[..|batches| - 1]) + multiset(batches[|batches| - 1])
  }

  lemma KeysOfSnoc(batches: seq<seq<string>>, b: seq<string>)
    ensures KeysOf(batches + [b]) == KeysOf(batches) + multiset(b)
  {
    assert (batches + [b])[..|batches|] == batches;
  }

  lemma {:induction false} KeysOfRemoved(batches: seq<seq<string>>, k: nat)
    requires k < |batches|
    ensures KeysOf(batches) == KeysOf(Removed(batches, k)) + multiset(batches[k])
    decreases |batches|
  {
    var n := |batches| - 1;
    if k == n {
      assert Removed(batches, k) == batches[..n];
    } else {
      var front := batches[..n];
      var rest := Removed(front, k);
      KeysOfRemoved(front, k);
      RemovedLast(batches, k);
      KeysOfSnoc(rest, batches[n]);
      Swapped(KeysOf(rest), multiset(batches[k]), multiset(batches[n]));
    }
  }

  lemma RemovedLast<T>(s: seq<T>, k: nat)
    requires k < |s| - 1
    ensures Removed(s, k) == Removed(s[..|s| - 1], k) + [s[|s| - 1]] && s[..|s| - 1][k] == s[k]
  {
  }

  lemma Swapped(a: multiset<string>, b: multiset<string>, c: multiset<string>)
    ensures a + b + c == a + c + b
  {
  }

  function Removed<T>(s: seq<T>, k: nat): seq<T>
    requires k < |s|
  {
    s[..k] + s[k + 1..]
  }

  lemma {:induction false} FlattenKeys(batches: seq<seq<string>>)
    ensures multiset(Flatten(batches)) == KeysOf(batches)
  {
    if batches != [] {
      FlattenKeys(batches[..|batches| - 1]);
    }
  }

  /** Consecutive pieces of the keys, each full but perhaps the last, and none empty. */
  ghost predicate IsSplit(keys: seq<string>, size: nat, batches: seq<seq<string>>) {
    && Flatten(batches) == keys
    && (forall i :: 0 <= i < |batches| ==> 1 <= |batches[i]| <= size)
    && (forall i :: 0 <= i < |batches| - 1 ==> |batches[i]| == size)
  }

  method SplitIntoBatches(keys: seq<string>, batchSize: nat) returns (batches: seq<seq<string>>)
    requires batchSize >= 1
    ensures IsSplit(keys, batchSize, batches)
  {
    batches := [];
    var i := 0;
    while i < |keys|
      invariant 0 <= i && (i < |keys| ==> forall k :: 0 <= k < |batches| ==> |batches[k]| == batchSize)
      invariant IsSplit(keys[..if i < |keys| then i else |keys|], batchSize, batches)
      decreases |keys| - i
    {
      var end := i + batchSize;
      if end > |keys| {
        end := |keys|;
      }
      assert keys[..end] == keys[..i] + keys[i..end];
      assert (batches + [keys[i..end]])[..|batches|] == batches;
      batches := batches + [keys[i..end]];
      i := i + batchSize;
    }
    assert keys[..|keys|] == keys;
  }

  /******* One request after the other *******/

  datatype Request = Request(keys: seq<string>, answer: Answer)

  class Client {
    ghost var log: seq<Request>

    method DeleteObjects(keys: seq<string>) returns (answer: Answer)
      modifies this
      ensures log == old(log) + [Request(keys, answer)]
    {
      answer := *;
      log := log + [Request(keys, answer)];
    }
  }

  function Batches(sent: seq<Request>): (r: seq<seq<string>>)
    ensures |r| == |sent| && forall i :: 0 <= i < |sent| ==> r[i] == sent[i].keys
  {
    seq(|sent|, i requires 0 <= i < |sent| => sent[i].keys)
  }

  predicate AllHonest(sent: seq<Request>) {
    forall i :: 0 <= i < |sent| ==> Honest(sent[i].answer, sent[i].keys)
  }

  /** The contributions of the requests, in their order. */
  function Outcome(sent: seq<Request>, code: string): DeleteResult {
    if sent == [] then EMPTY
    else
      var last := sent[|sent| - 1];
      Merge(Outcome(sent[..|sent| - 1], code), Contribution(last.answer, last.keys, code))
  }

  /** The keys that the service has confirmed, answer by answer. */
  function Confirmed(sent: seq<Request>): seq<string> {
    if sent == [] then []
    else
      var last := sent[|sent| - 1].answer;
      Confirmed(sent[..|sent| - 1]) + if last.Some? then last.value.deleted else []
  }

  /** Request by request, the errors of the answer, or one for each key that was sent. */
  function Refused(sent: seq<Request>, code: string): seq<DeleteError> {
    if sent == [] then []
    else
      var last := sent[|sent| - 1];
      Refused(sent[..|sent| - 1], code) +
      if last.answer.Some? then last.answer.value.errors
      else seq(|last.keys|, i requires 0 <= i < |last.keys| => DeleteError(last.keys[i], code))
  }

  lemma {:induction false} FailedAre(keys: seq<string>, code: string)
    ensures Failed(keys, code).deleted == []
    ensures Failed(keys, code).errors == seq(|keys|, i requires 0 <= i < |keys| => DeleteError(keys[i], code))
  {
    if keys != [] {
      FailedAre(keys[..|keys| - 1], code);
    }
  }

  /** What is reported deleted was confirmed, and what is reported as an error was refused or not answered. */
  lemma {:induction false} OutcomeIs(sent: seq<Request>, code: string)
    ensures Outcome(sent, code) == DeleteResult(Confirmed(sent), Refused(sent, code))
  {
    if sent != [] {
      var last := sent[|sent| - 1];
      OutcomeIs(sent[..|sent| - 1], code);
      FailedAre(last.keys, code);
    }
  }

  lemma {:induction false} ConfirmedBySome(sent: seq<Request>, key: string)
    ensures key in Confirmed(sent) <==> exists i :: 0 <= i < |sent| && sent[i].answer.Some? && key in sent[i].answer.value.deleted
  {
    if sent != [] {
      var front := sent[..|sent| - 1];
      ConfirmedBySome(front, key);
      assert forall i :: 0 <= i < |front| ==> front[i] == sent[i];
    }
  }

  /** When every successful answer reports its own keys once, the outcome reports all keys sent, once each time. */
  lemma {:induction false} OutcomeReports(sent: seq<Request>, code: string)
    requires AllHonest(sent)
    ensures Reported(Outcome(sent, code)) == KeysOf(Batches(sent))
  {
    if sent == [] {
      assert ErrorKeys([]) == [];
    } else {
      var front, last := sent[..|sent| - 1], sent[|sent| - 1];
      OutcomeReports(front, code);
      MergeReports(Outcome(front, code), Contribution(last.answer, last.keys, code));
      ContributionReports(last.answer, last.keys, code);
      assert Batches(sent) == Batches(front) + [last.keys];
      KeysOfSnoc(Batches(front), last.keys);
    }
  }

  /** The requests for a large batch and the result made of their answers. */
  ghost predicate LargeBatchDone(keys: seq<string>, size: nat, sent: seq<Request>, result: DeleteResult) {
    IsSplit(keys, size, Batches(sent)) && result == Outcome(sent, "BatchError")
  }

  /** A result made of the answers alone: deleted is what they confirm, and each key of a request without an answer is an
      error. */
  ghost predicate SaysSo(sent: seq<Request>, code: string, result: DeleteResult) {
    result.deleted == Confirmed(sent) && result.errors == Refused(sent, code)
  }

  /** Every key is in Deleted or in Errors once. */
  lemma LargeBatchAccountsForAll(keys: seq<string>, size: nat, sent: seq<Request>, result: DeleteResult)
    requires LargeBatchDone(keys, size, sent, result) && AllHonest(sent)
    ensures Reported(result) == multiset(keys)
  {
    OutcomeReports(sent, "BatchError");
    FlattenKeys(Batches(sent));
  }

  /** The requests for these keys, and the result: no request, one and its answer, or a split and what its answers say. */
  ghost predicate Handled(keys: seq<string>, size: nat, sent: seq<Request>, r: Option<DeleteResult>) {
    if keys == [] then r == Some(EMPTY) && sent == []
    else if |keys| <= size then sent == [Request(keys, r)]
    else r.Some? && IsSplit(keys, size, Batches(sent)) && SaysSo(sent, "BatchError", r.value)
  }

  class BatchDeleter {
    const client: Client
    const maxBatchSize: nat

    constructor (client: Client)
      ensures this.client == client && maxBatchSize == MAX_BATCH_SIZE
    {
      this.client, maxBatchSize := client, MAX_BATCH_SIZE;
    }

    /** A result or, for a request that is sent alone and fails, none. */
    method DeleteBatch(keys: seq<string>) returns (r: Option<DeleteResult>, ghost sent: seq<Request>)
      requires maxBatchSize >= 1
      modifies client
      ensures client.log == old(client.log) + sent
      ensures Handled(keys, maxBatchSize, sent, r)
      ensures r.Some? && AllHonest(sent) ==> Reported(r.value) == multiset(keys)
    {
      if |keys| == 0 {
        assert ErrorKeys([]) == [];
        return Some(EMPTY), [];
      }
      if |keys| <= maxBatchSize {
        r := client.DeleteObjects(keys);
        sent := [Request(keys, r)];
        assert AllHonest(sent) ==> Honest(sent[0].answer, sent[0].keys);
        return;
      }
      var result;
      result, sent := DeleteLargeBatch(keys);
      r := Some(result);
      if AllHonest(sent) {
        LargeBatchAccountsForAll(keys, maxBatchSize, sent, result);
      }
    }

    method DeleteLargeBatch(keys: seq<string>) returns (result: DeleteResult, ghost sent: seq<Request>)
      requires maxBatchSize >= 1
      modifies client
      ensures client.log == old(client.log) + sent
      ensures LargeBatchDone(keys, maxBatchSize, sent, result) && SaysSo(sent, "BatchError", result)
    {
      result, sent := EMPTY, [];
      var i := 0;
      ghost var done := 0;
      while i < |keys|
        invariant 0 <= i && done == (if i < |keys| then i else |keys|)
        invariant i < |keys| ==> AllFull(sent, maxBatchSize)
        invariant client.log == old(client.log) + sent
        invariant LargeBatchDone(keys[..done], maxBatchSize, sent, result)
        decreases |keys| - i
      {
        var end := i + maxBatchSize;
        if end > |keys| {
          end := |keys|;
        }
        var batch := keys[i..end];
        var answer := client.DeleteObjects(batch);
        ghost var before := result;
        if answer.None? {
          result := AddFailed(result, batch, "BatchError");
        } else {
          result := Merge(result, answer.value);
        }
        NextBatchDone(keys, maxBatchSize, sent, before, i, end, answer);
        sent := sent + [Request(batch, answer)];
        done := end;
        i := i + maxBatchSize;
      }
      assert keys[..|keys|] == keys;
      OutcomeIs(sent, "BatchError");
    }
  }

  predicate AllFull(sent: seq<Request>, size: nat) {
    forall k :: 0 <= k < |sent| ==> |sent[k].keys| == size
  }

  lemma NextBatchDone(keys: seq<string>, size: nat, sent: seq<Request>, before: DeleteResult, i: nat, end: nat, answer: Answer)
    requires i < end <= |keys| && end - i <= size && AllFull(sent, size)
    requires LargeBatchDone(keys[..i], size, sent, before)
    ensures var next := sent + [Request(keys[i..end], answer)];
            LargeBatchDone(keys[..end], size, next, Merge(before, Contribution(answer, keys[i..end], "BatchError")))
            && (end - i == size ==> AllFull(next, size))
  {
    var next := sent + [Request(keys[i..end], answer)];
    assert next[..|sent|] == sent;
    assert Batches(next) == Batches(sent) + [keys[i..end]];
    assert Batches(next)[..|sent|] == Batches(sent);
    assert keys[..end] == keys[..i] + keys[i..end];
  }

  /** The loop that stands in for a failed request. */
  method AddFailed(result: DeleteResult, keys: seq<string>, code: string) returns (r: DeleteResult)
    ensures r == Merge(result, Failed(keys, code))
  {
    r := result;
    for j := 0 to |keys|
      invariant r == Merge(result, Failed(keys[..j], code))
    {
      assert keys[..j + 1][..j] == keys[..j];
      r := r.(errors := r.errors + [DeleteError(keys[j], code)]);
    }
    assert keys[..|keys|] == keys;
  }
}
