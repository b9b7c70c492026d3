/**
 * The counting and retry logic of scripts/generate_vectors.py, shared in
 * part with setup_embeddings.py: filling a failed embedding call with one
 * `None` per name, tallying writes over the zipped (key, embedding) pairs,
 * the bounded retry of `update_vector` with its capped wait, the batch
 * worker's commit and exception paths, and `main`'s partition into batches
 * with the global counters, as a sequential fold.
 *
 * The embedding service answers, the outcome of each UPDATE attempt and
 * of the commit are inputs; sleeping is modelled by the waits returned.
 */
module Ingestion {
  import opened Wrappers
  import opened Batching

  type Vector = seq<real>

  /** An item to embed: its sku and name. */
  type Item = (string, string)

  // ---------------------------------------------------------------------
  // generate_embeddings_batch
  // ---------------------------------------------------------------------

  /** `generate_embeddings_batch` of both scripts: the returned vectors in
      response order, or one `None` per name when the call raises. */
  function EmbedOrNone(names: seq<string>, answer: Result<seq<Vector>, string>): (r: seq<Option<Vector>>)
    ensures answer.Failure? ==> |r| == |names| && forall i :: 0 <= i < |r| ==> r[i].None?
    ensures answer.Success? ==> |r| == |answer.value| && forall i :: 0 <= i < |r| ==> r[i] == Some(answer.value[i])
  {
    match answer
    case Failure(_) => seq(|names|, _ => None)
    case Success(vs) => seq(|vs|, i requires 0 <= i < |vs| => Some(vs[i]))
  }

  // ---------------------------------------------------------------------
  // The counting loop of process_batch_worker / process_batch
  // ---------------------------------------------------------------------

  /** The counts after the first `n` zipped pairs: a missing embedding or a
      failed write is a failure, a successful write a success. */
  function Tally<K>(keys: seq<K>, embs: seq<Option<Vector>>, write: (K, Vector) -> bool, n: nat): (nat, nat)
    requires n <= |keys| && n <= |embs|
  {
    if n == 0 then (0, 0)
    else
      var (s, f) := Tally(keys, embs, write, n - 1);
      if embs[n - 1].None? then (s, f + 1)
      else if write(keys[n - 1], embs[n - 1].value) then (s + 1, f)
      else (s, f + 1)
  }

  /** Every pair is counted exactly once. */
  lemma {:induction false} TallyConserves<K>(keys: seq<K>, embs: seq<Option<Vector>>, write: (K, Vector) -> bool, n: nat)
    requires n <= |keys| && n <= |embs|
    ensures Tally(keys, embs, write, n).0 + Tally(keys, embs, write, n).1 == n
  {
    if n > 0 {
      TallyConserves(keys, embs, write, n - 1);
    }
  }

  /** Without embeddings every pair fails; with all of them present and
      written every pair succeeds. */
  lemma {:induction false} TallyExtremes<K>(keys: seq<K>, embs: seq<Option<Vector>>, write: (K, Vector) -> bool, n: nat)
    requires n <= |keys| && n <= |embs|
    ensures (forall i :: 0 <= i < n ==> embs[i].None?) ==> Tally(keys, embs, write, n) == (0, n)
    ensures (forall i :: 0 <= i < n ==> embs[i].Some? && write(keys[i], embs[i].value)) ==>
      Tally(keys, embs, write, n) == (n, 0)
  {
    if n > 0 {
      TallyExtremes(keys, embs, write, n - 1);
    }
  }

  /** The loop `for key, embedding in zip(keys, embeddings)`: it stops at
      the shorter list. */
  method CountWrites<K>(keys: seq<K>, embs: seq<Option<Vector>>, write: (K, Vector) -> bool)
    returns (success: nat, failed: nat)
    ensures (success, failed) == Tally(keys, embs, write, Min(|keys|, |embs|))
    ensures success + failed == Min(|keys|, |embs|)
  {
    success, failed := 0, 0;
    var n := Min(|keys|, |embs|);
    var i := 0;
    while i < n
      invariant 0 <= i <= n
      invariant (success, failed) == Tally(keys, embs, write, i)
      invariant success + failed == i
    {
      if embs[i].None? {
        failed := failed + 1;
      } else if write(keys[i], embs[i].value) {
        success := success + 1;
      } else {
        failed := failed + 1;
      }
      i := i + 1;
    }
  }

  // ---------------------------------------------------------------------
  // update_vector
  // ---------------------------------------------------------------------

  /** How one UPDATE attempt ends. */
  datatype Attempt = Done | Locked | OtherOperational | OtherError

  /** The default number of attempts. */
  const DefaultRetries: int := 5

  /** The sleep after failed attempt `a`: `min((a + 1) * 0.2, 2.0)`. */
  function Wait(a: nat): (w: real) {
    if (a + 1) as real * 0.2 <= 2.0 then (a + 1) as real * 0.2 else 2.0
  }

  /** Waits are positive, never above two seconds, and never shrink. */
  lemma WaitBounds(a: nat, b: nat)
    ensures 0.0 < Wait(a) <= 2.0
    ensures a <= b ==> Wait(a) <= Wait(b)
  {
  }

  /** Attempts from `a` on: returns whether the update went through and the
      waits slept along the way. Only a lock before the last attempt is
      retried; any other error, or a lock on the last attempt, gives up. */
  function UpdateFrom(outcome: nat -> Attempt, a: nat, retries: int): (r: (bool, seq<real>))
    decreases retries - a
  {
    if a >= retries then (false, [])
    else
      match outcome(a)
      case Done => (true, [])
      case Locked =>
        if a < retries - 1 then
          var (ok, waits) := UpdateFrom(outcome, a + 1, retries);
          (ok, [Wait(a)] + waits)
        else (false, [])
      case _ => (false, [])
  }

  /** `update_vector(conn, sku, embedding, retries)` */
  function UpdateVector(outcome: nat -> Attempt, retries: int): (bool, seq<real>) {
    UpdateFrom(outcome, 0, retries)
  }

  /** The update succeeds at attempt `a`: every earlier attempt hit a lock
      and attempt `a`, within the allowed number, went through. */
  predicate SucceedsAt(outcome: nat -> Attempt, retries: int, a: nat) {
    a < retries && outcome(a) == Done && forall b :: 0 <= b < a ==> outcome(b) == Locked
  }

  /** Wait `j` is the capped wait of attempt `a + j`, which hit a lock. */
  predicate LockedWaits(outcome: nat -> Attempt, a: nat, waits: seq<real>) {
    forall j :: 0 <= j < |waits| ==> waits[j] == Wait(a + j) && outcome(a + j) == Locked
  }

  /** The waits from attempt `a` on: one per retried lock, each the
      capped wait of its attempt, and a success comes right after them. */
  lemma {:induction false} UpdateFromWaits(outcome: nat -> Attempt, a: nat, retries: int)
    requires a == 0 || a < retries
    requires forall b :: 0 <= b < a ==> outcome(b) == Locked
    ensures var waits := UpdateFrom(outcome, a, retries).1;
      && a + |waits| <= (if retries <= 0 then 0 else retries - 1)
      && LockedWaits(outcome, a, waits)
      && (UpdateFrom(outcome, a, retries).0 ==> SucceedsAt(outcome, retries, a + |waits|))
    decreases retries - a
  {
    var waits := UpdateFrom(outcome, a, retries).1;
    if a < retries && outcome(a) == Locked && a < retries - 1 {
      UpdateFromWaits(outcome, a + 1, retries);
      var waits' := UpdateFrom(outcome, a + 1, retries).1;
      assert UpdateFrom(outcome, a, retries) == (UpdateFrom(outcome, a + 1, retries).0, [Wait(a)] + waits');
      forall j | 0 <= j < |waits|
        ensures waits[j] == Wait(a + j) && outcome(a + j) == Locked
      {
        if j > 0 {
          assert waits[j] == waits'[j - 1];
        }
      }
      assert LockedWaits(outcome, a, waits);
    } else if a < retries && outcome(a) == Done {
      assert SucceedsAt(outcome, retries, a);
    } else {
      assert waits == [] && !UpdateFrom(outcome, a, retries).0;
    }
  }

  /** The retry policy from attempt `a` on: success exactly when some
      later attempt succeeds after locks only. */
  lemma {:induction false} UpdateFromSpec(outcome: nat -> Attempt, a: nat, retries: int)
    requires a == 0 || a < retries
    requires forall b :: 0 <= b < a ==> outcome(b) == Locked
    ensures UpdateFrom(outcome, a, retries).0 <==> exists c :: a <= c && SucceedsAt(outcome, retries, c)
    decreases retries - a
  {
    UpdateFromWaits(outcome, a, retries);
    var (ok, waits) := UpdateFrom(outcome, a, retries);
    if ok {
      assert SucceedsAt(outcome, retries, a + |waits|);
    } else if a < retries && outcome(a) == Locked && a < retries - 1 {
      UpdateFromSpec(outcome, a + 1, retries);
      assert !ok == !UpdateFrom(outcome, a + 1, retries).0;
      assert !SucceedsAt(outcome, retries, a);
    } else {
      forall c: nat | a <= c
        ensures !SucceedsAt(outcome, retries, c)
      {
        assert c > a ==> outcome(a) == Locked || !SucceedsAt(outcome, retries, c);
      }
    }
  }

  /** `update_vector` as a whole: `True` exactly when some attempt within
      `retries` succeeds after nothing but locks; at most `retries`
      attempts, so at most `retries - 1` waits, each capped at two
      seconds and none shorter than the one before. */
  lemma UpdateVectorSpec(outcome: nat -> Attempt, retries: int)
    ensures var (ok, waits) := UpdateVector(outcome, retries);
      && (ok <==> exists a :: SucceedsAt(outcome, retries, a))
      && |waits| <= (if retries <= 0 then 0 else retries - 1)
      && (forall j :: 0 <= j < |waits| ==> waits[j] == Wait(j) && 0.0 < waits[j] <= 2.0)
      && (forall i, j :: 0 <= i <= j < |waits| ==> waits[i] <= waits[j])
      && (ok ==> SucceedsAt(outcome, retries, |waits|))
  {
    UpdateFromSpec(outcome, 0, retries);
    UpdateFromWaits(outcome, 0, retries);
    var (ok, waits) := UpdateVector(outcome, retries);
    forall i, j | 0 <= i <= j < |waits|
      ensures waits[i] <= waits[j]
    {
      WaitBounds(i, j);
    }
    forall j | 0 <= j < |waits|
      ensures 0.0 < waits[j] <= 2.0
    {
      WaitBounds(j, j);
    }
  }

  // ---------------------------------------------------------------------
  // process_batch_worker
  // ---------------------------------------------------------------------

  /** How creating the OpenAI client ends: directly, through the fallback
      for the `proxies` TypeError, or with any other error. */
  datatype ClientInit = ClientOk | ProxiesFallback | InitFails

  /** How the batch commit ends: at once, on the retry after a lock, with
      the retry failing too, with an operational error other than a lock,
      or with some other error. */
  datatype Commit = Committed | CommittedOnRetry | RetryFails | OperationalFails | OtherFails

  /** What one worker reports: its counts, whether they were added to the
      global counters, and how many vector updates stayed in the database. */
  datatype Report = Report(success: nat, failed: nat, counted: bool, durable: nat)

  /** One worker's write: `update_vector` with its default retries. */
  function WriteOk(outcomes: (string, Vector) -> (nat -> Attempt)): (string, Vector) -> bool {
    (sku: string, v: Vector) => UpdateVector(outcomes(sku, v), DefaultRetries).0
  }

  function Skus(batch: seq<Item>): (r: seq<string>)
    ensures |r| == |batch| && forall i :: 0 <= i < |batch| ==> r[i] == batch[i].0
  {
    seq(|batch|, i requires 0 <= i < |batch| => batch[i].0)
  }

  /** The counts of the update loop of one batch. */
  function BatchCounts(batch: seq<Item>, answer: Result<seq<Vector>, string>,
                       outcomes: (string, Vector) -> (nat -> Attempt)): (r: (nat, nat))
  {
    var embs := EmbedOrNone(Seconds(batch), answer);
    Tally(Skus(batch), embs, WriteOk(outcomes), Min(|batch|, |embs|))
  }

  /** `process_batch_worker` as written: when the commit fails for good the
      updates are rolled back, yet the successes are still reported and
      added to the global counters. */
  function WorkerAsWritten(batch: seq<Item>, client: ClientInit, answer: Result<seq<Vector>, string>,
                           outcomes: (string, Vector) -> (nat -> Attempt), commit: Commit): (r: Report)
    ensures r.success + r.failed <= |batch|
    ensures !r.counted ==> r == Report(0, |batch|, false, 0)
  {
    if client == InitFails then Report(0, |batch|, false, 0)
    else
      var (s, f) := BatchCounts(batch, answer, outcomes);
      BatchCountsBound(batch, answer, outcomes);
      match commit
      case Committed => Report(s, f, true, s)
      case CommittedOnRetry => Report(s, f, true, s)
      case RetryFails => Report(s, f, true, 0)
      case OperationalFails => Report(s, f, true, 0)
      case OtherFails => Report(0, |batch|, false, 0)
  }

  /** The loop counts every zipped pair, so never more than the batch. */
  lemma BatchCountsBound(batch: seq<Item>, answer: Result<seq<Vector>, string>,
                         outcomes: (string, Vector) -> (nat -> Attempt))
    ensures var (s, f) := BatchCounts(batch, answer, outcomes);
      && s + f <= |batch|
      && (answer.Failure? ==> s == 0 && f == |batch|)
      && (answer.Success? ==> s + f == Min(|batch|, |answer.value|))
  {
    var embs := EmbedOrNone(Seconds(batch), answer);
    TallyConserves(Skus(batch), embs, WriteOk(outcomes), Min(|batch|, |embs|));
    TallyExtremes(Skus(batch), embs, WriteOk(outcomes), Min(|batch|, |embs|));
  }

  /** A one-item batch whose update succeeds but whose commit fails twice:
      the worker reports one success although nothing was stored. */
  lemma RolledBackStillCounted()
    ensures var outcomes := (sku: string, v: Vector) => (a: nat) => Done;
      var r := WorkerAsWritten([("s1", "beaker")], ClientOk, Success([[0.5]]), outcomes, RetryFails);
      r.counted && r.success == 1 && r.durable == 0
  {
    var outcomes := (sku: string, v: Vector) => (a: nat) => Done;
    assert UpdateVector(outcomes("s1", [0.5]), DefaultRetries).0;
    assert Skus([("s1", "beaker")]) == ["s1"];
  }

  /** `process_batch_worker` with a rolled-back batch reported as failed:
      a reported success is an update that stayed in the database. */
  function Worker(batch: seq<Item>, client: ClientInit, answer: Result<seq<Vector>, string>,
                  outcomes: (string, Vector) -> (nat -> Attempt), commit: Commit): (r: Report)
    ensures r.success == r.durable
    ensures r.success + r.failed <= |batch|
    ensures !r.counted <==> client == InitFails || commit == OtherFails
    ensures !r.counted ==> r == Report(0, |batch|, false, 0)
    ensures r.counted && answer.Failure? ==> r == Report(0, |batch|, true, 0)
    ensures r.counted && answer.Success? ==> r.success + r.failed == Min(|batch|, |answer.value|)
  {
    if client == InitFails then Report(0, |batch|, false, 0)
    else
      var (s, f) := BatchCounts(batch, answer, outcomes);
      BatchCountsBound(batch, answer, outcomes);
      match commit
      case Committed => Report(s, f, true, s)
      case CommittedOnRetry => Report(s, f, true, s)
      case RetryFails => Report(0, s + f, true, 0)
      case OperationalFails => Report(0, s + f, true, 0)
      case OtherFails => Report(0, |batch|, false, 0)
  }

  /** The two workers differ only in a batch that was rolled back. */
  lemma WorkersAgreeOnCommit(batch: seq<Item>, client: ClientInit, answer: Result<seq<Vector>, string>,
                             outcomes: (string, Vector) -> (nat -> Attempt), commit: Commit)
    ensures commit !in {RetryFails, OperationalFails} ==>
      Worker(batch, client, answer, outcomes, commit) == WorkerAsWritten(batch, client, answer, outcomes, commit)
    ensures WorkerAsWritten(batch, client, answer, outcomes, commit).success + WorkerAsWritten(batch, client, answer, outcomes, commit).failed
         == Worker(batch, client, answer, outcomes, commit).success + Worker(batch, client, answer, outcomes, commit).failed
  {
  }

  // ---------------------------------------------------------------------
  // main
  // ---------------------------------------------------------------------

  /** The global counters: the sum of the reports added to them. */
  function Counted(reports: seq<Report>): (r: (nat, nat)) {
    if reports == [] then (0, 0)
    else
      var (s, f) := Counted(reports[..|reports| - 1]);
      var last := reports[|reports| - 1];
      if last.counted then (s + last.success, f + last.failed) else (s, f)
  }

  /** Each report stays within its batch, so the counters never exceed the
      number of items; reports that raised add nothing. */
  lemma {:induction false} CountedBound(batches: seq<seq<Item>>, reports: seq<Report>)
    requires |reports| == |batches|
    requires forall k :: 0 <= k < |reports| ==> reports[k].success + reports[k].failed <= |batches[k]|
    ensures Counted(reports).0 + Counted(reports).1 <= |Flatten(batches)|
  {
    if reports != [] {
      var n := |reports| - 1;
      CountedBound(batches[..n], reports[..n]);
      assert batches == batches[..n] + [batches[n]];
      FlattenAppend(batches[..n], [batches[n]]);
      assert Flatten([batches[n]]) == batches[n] + Flatten([]);
    }
  }

  lemma {:induction false} FlattenAppend<T>(a: seq<seq<T>>, b: seq<seq<T>>)
    ensures Flatten(a + b) == Flatten(a) + Flatten(b)
  {
    if a != [] {
      assert (a + b)[1..] == a[1..] + b;
      FlattenAppend(a[1..], b);
    } else {
      assert a + b == b;
    }
  }

  /** `batch_num = i // BATCH_SIZE + 1` for the batch starting at `i`: batch
      `k` carries number `k + 1`. */
  lemma BatchNumber(k: nat, size: nat)
    requires size > 0
    ensures Offset(k, size) / size + 1 == k + 1
  {
    OffsetIsProduct(k, size);
    DivUnique(Offset(k, size), size, k);
  }

  const MissingKeyError: string := "OPENAI_API_KEY not found in environment variables"

  /** `main` with the thread pool replaced by a sequential fold: a missing
      key raises, no items returns before touching the counters, a zero
      batch size makes `range` raise, and otherwise every batch of
      `range(0, n, BATCH_SIZE)` goes to the worker with its batch number
      and the counters end as the sum of the reports that were counted.
      The reports are returned in batch order. */
  method Generate(apiKey: Option<string>, items: seq<Item>, batchSize: int,
                  worker: (seq<Item>, nat) -> Report)
    returns (r: Result<Option<(nat, nat)>, string>, reports: seq<Report>)
    ensures apiKey.None? || apiKey == Some("") ==> r == Failure(MissingKeyError) && reports == []
    ensures apiKey.Some? && apiKey != Some("") && items == [] ==> r == Success(None) && reports == []
    ensures apiKey.Some? && apiKey != Some("") && items != [] && batchSize == 0 ==> r.Failure?
    ensures apiKey.Some? && apiKey != Some("") && items != [] && batchSize < 0 ==> r == Success(Some((0, 0)))
    ensures apiKey.Some? && apiKey != Some("") && items != [] && batchSize > 0 ==>
      var batches := Chunks(items, batchSize);
      && |reports| == |batches|
      && (forall k :: 0 <= k < |batches| ==> reports[k] == worker(batches[k], k + 1))
      && r == Success(Some(Counted(reports)))
  {
    reports := [];
    if apiKey.None? || apiKey.value == "" {
      return Failure(MissingKeyError), [];
    }
    if items == [] {
      return Success(None), [];
    }
    if batchSize == 0 {
      return Failure("range() arg 3 must not be zero"), [];
    }
    if batchSize < 0 {
      return Success(Some((0, 0))), [];
    }
    var batches := Chunks(items, batchSize);
    var success, failed := 0, 0;
    var k := 0;
    while k < |batches|
      invariant 0 <= k <= |batches| && |reports| == k
      invariant forall j :: 0 <= j < k ==> reports[j] == worker(batches[j], j + 1)
      invariant (success, failed) == Counted(reports)
    {
      var rep := worker(batches[k], k + 1);
      assert (reports + [rep])[..k] == reports;
      if rep.counted {
        success, failed := success + rep.success, failed + rep.failed;
      }
      reports := reports + [rep];
      k := k + 1;
    }
    r := Success(Some((success, failed)));
  }

  /** With honest workers the run-wide counters never exceed the number of
      items, however many batches raised. */
  lemma GenerateBound(items: seq<Item>, batchSize: nat, reports: seq<Report>)
    requires batchSize > 0
    requires |reports| == |Chunks(items, batchSize)|
    requires forall k :: 0 <= k < |reports| ==>
      reports[k].success + reports[k].failed <= |Chunks(items, batchSize)[k]|
    ensures Counted(reports).0 + Counted(reports).1 <= |items|
  {
    ChunksPartition(items, batchSize);
    CountedBound(Chunks(items, batchSize), reports);
  }
}
