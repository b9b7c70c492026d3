/**
 * The sequential embedding run of setup_embeddings.py: `process_batch`
 * counting over the zipped (id, embedding) pairs, and `main`'s loop over
 * `range(0, total, BATCH_SIZE)` with its running totals, batch numbers
 * and progress figure.
 *
 * The embedding answers and the outcome of each UPDATE are inputs.
 */
module SetupRun {
  import opened Wrappers
  import opened Batching
  import Ingestion

  type Vector = seq<real>

  /** An item needing an embedding: its id and name. */
  type Item = (int, string)

  /** `process_batch`: embed the names (a failed call gives one `None` per
      name), then count each zipped pair as a success when its update
      returns true. */
  function ProcessBatch(batch: seq<Item>, answer: Result<seq<Vector>, string>, write: (int, Vector) -> bool)
    : (r: (nat, nat))
    ensures r.0 + r.1 <= |batch|
    ensures answer.Failure? ==> r == (0, |batch|)
    ensures answer.Success? ==> r.0 + r.1 == Min(|batch|, |answer.value|)
  {
    var ids := seq(|batch|, i requires 0 <= i < |batch| => batch[i].0);
    var embs := Ingestion.EmbedOrNone(Seconds(batch), answer);
    Ingestion.TallyConserves(ids, embs, write, Min(|batch|, |embs|));
    Ingestion.TallyExtremes(ids, embs, write, Min(|batch|, |embs|));
    Ingestion.Tally(ids, embs, write, Min(|batch|, |embs|))
  }

  /** One batch as `main` processes it: its names sent to the service. */
  function BatchCount(batch: seq<Item>, answers: seq<string> -> Result<seq<Vector>, string>,
                      write: (int, Vector) -> bool): (nat, nat) {
    ProcessBatch(batch, answers(Seconds(batch)), write)
  }

  /** The running totals: the sums of the per-batch counts. */
  function Totals(counts: seq<(nat, nat)>): (nat, nat) {
    if counts == [] then (0, 0)
    else
      var (s, f) := Totals(counts[..|counts| - 1]);
      (s + counts[|counts| - 1].0, f + counts[|counts| - 1].1)
  }

  lemma TotalsSnoc(counts: seq<(nat, nat)>, c: (nat, nat))
    ensures Totals(counts + [c]) == (Totals(counts).0 + c.0, Totals(counts).1 + c.1)
  {
    assert (counts + [c])[..|counts|] == counts;
  }

  /** `processed = min(i + BATCH_SIZE, total_items)` after the batch at `i`. */
  function Processed(k: nat, size: nat, total: nat): nat {
    Min(Start(k, size) + size, total)
  }

  /** The loop variable `i` at batch `k`: `size` added `k` times. */
  function Start(k: nat, size: nat): nat {
    if k == 0 then 0 else Start(k - 1, size) + size
  }

  lemma {:induction false} StartOffset(k: nat, size: nat)
    ensures Start(k, size) == Offset(k, size)
  {
    if k > 0 {
      StartOffset(k - 1, size);
    }
  }

  /** The progress figure never exceeds the total, grows from batch to
      batch, and reaches the total on the last batch. */
  lemma ProcessedSpec<T>(items: seq<T>, size: nat, k: nat)
    requires size > 0 && k < |Chunks(items, size)|
    ensures Processed(k, size, |items|) <= |items|
    ensures k + 1 < |Chunks(items, size)| ==> Processed(k, size, |items|) < Processed(k + 1, size, |items|)
    ensures k + 1 == |Chunks(items, size)| ==> Processed(k, size, |items|) == |items|
  {
    StartOffset(k, size);
    StartOffset(k + 1, size);
    ChunkIsSlice(items, size, k);
    if k + 1 < |Chunks(items, size)| {
      ChunkIsSlice(items, size, k + 1);
    }
    if k + 1 == |Chunks(items, size)| {
      ChunkBounds(items, size);
      OffsetIsProduct(k, size);
      MulSucc(k, size);
    }
  }

  /** The number shown as `total_batches`, `(total + size - 1) // size`, is
      the number of batches the loop visits. */
  lemma TotalBatches<T>(items: seq<T>, size: nat)
    requires size > 0
    ensures |Chunks(items, size)| == (|items| + size - 1) / size
  {
    ChunkCount(items, size);
  }

  const MissingKeyError: string := "OPENAI_API_KEY not found in environment variables"

  /** `main`: a missing key raises, no items returns early; otherwise each
      batch in order is processed and the totals are the sums of the
      per-batch counts. A zero batch size makes `range` raise; a negative
      one visits no batch. The per-batch counts and progress figures are
      returned in batch order. */
  method Setup(apiKey: Option<string>, items: seq<Item>, batchSize: int,
               answers: seq<string> -> Result<seq<Vector>, string>, write: (int, Vector) -> bool)
    returns (r: Result<Option<(nat, nat)>, string>, counts: seq<(nat, nat)>, progress: seq<nat>)
    ensures apiKey.None? || apiKey == Some("") ==> r == Failure(MissingKeyError)
    ensures apiKey.Some? && apiKey != Some("") && items == [] ==> r == Success(None)
    ensures apiKey.Some? && apiKey != Some("") && items != [] && batchSize == 0 ==> r.Failure?
    ensures apiKey.Some? && apiKey != Some("") && items != [] && batchSize < 0 ==> r == Success(Some((0, 0)))
    ensures apiKey.Some? && apiKey != Some("") && items != [] && batchSize > 0 ==>
      var batches := Chunks(items, batchSize);
      && |counts| == |batches| == |progress|
      && (forall k :: 0 <= k < |batches| ==>
            counts[k] == BatchCount(batches[k], answers, write))
      && (forall k :: 0 <= k < |batches| ==> progress[k] == Processed(k, batchSize, |items|))
      && r == Success(Some(Totals(counts)))
  {
    counts, progress := [], [];
    if apiKey.None? || apiKey.value == "" {
      return Failure(MissingKeyError), [], [];
    }
    if items == [] {
      return Success(None), [], [];
    }
    if batchSize == 0 {
      return Failure("range() arg 3 must not be zero"), [], [];
    }
    if batchSize < 0 {
      return Success(Some((0, 0))), [], [];
    }
    var totals;
    totals, counts, progress := RunBatches(Chunks(items, batchSize), |items|, batchSize,
      batch => BatchCount(batch, answers, write));
    r := Success(Some(totals));
  }

  /** The batch loop of `main` over the batches of `total` items, each
      batch counted by `count`. */
  method RunBatches(batches: seq<seq<Item>>, total: nat, batchSize: nat, count: seq<Item> -> (nat, nat))
    returns (totals: (nat, nat), counts: seq<(nat, nat)>, progress: seq<nat>)
    ensures |counts| == |batches| == |progress|
    ensures forall k :: 0 <= k < |batches| ==> counts[k] == count(batches[k])
    ensures forall k :: 0 <= k < |batches| ==> progress[k] == Processed(k, batchSize, total)
    ensures totals == Totals(counts)
  {
    counts, progress := [], [];
    totals := (0, 0);
    var i := 0;
    var k := 0;
    while k < |batches|
      invariant 0 <= k <= |batches| && |counts| == k && |progress| == k
      invariant i == Start(k, batchSize)
      invariant forall j :: 0 <= j < k ==> counts[j] == count(batches[j])
      invariant forall j :: 0 <= j < k ==> progress[j] == Processed(j, batchSize, total)
      invariant totals == Totals(counts)
    {
      var c := count(batches[k]);
      var p := Min(i + batchSize, total);
      assert p == Processed(k, batchSize, total);
      TotalsSnoc(counts, c);
      totals := (totals.0 + c.0, totals.1 + c.1);
      counts := counts + [c];
      progress := progress + [p];
      i := i + batchSize;
      k := k + 1;
    }
  }

  lemma {:induction false} TotalsBound(batches: seq<seq<Item>>, counts: seq<(nat, nat)>)
    requires |counts| == |batches|
    requires forall k :: 0 <= k < |counts| ==> counts[k].0 + counts[k].1 <= |batches[k]|
    ensures Totals(counts).0 + Totals(counts).1 <= |Flatten(batches)|
    ensures (forall k :: 0 <= k < |counts| ==> counts[k].0 + counts[k].1 == |batches[k]|) ==>
      Totals(counts).0 + Totals(counts).1 == |Flatten(batches)|
  {
    if counts != [] {
      var n := |counts| - 1;
      TotalsBound(batches[..n], counts[..n]);
      assert batches == batches[..n] + [batches[n]];
      Ingestion.FlattenAppend(batches[..n], [batches[n]]);
      assert Flatten([batches[n]]) == batches[n] + Flatten([]);
    }
  }
}
