/**
 * `generate_embeddings_batch` of api/matcher.py: the input texts are sent
 * to the embedding service in consecutive chunks of `BATCH_SIZE`, one
 * request per chunk; a chunk's answer is put in order of the `index` the
 * service attaches to each embedding, and a chunk whose request fails in
 * any way contributes one `None` per text.
 *
 * The service is a function from (batch number, chunk) to either the
 * `data` list of its answer or an error.
 */
module EmbeddingClient {
  import opened Wrappers
  import opened Batching

  type Vector = seq<real>

  /** One element of the answer's `data` list: `index` and `embedding`. */
  type Datum = (int, Vector)

  type Service = (nat, seq<string>) -> Result<seq<Datum>, string>

  // ---------------------------------------------------------------------
  // sorted(data, key=lambda x: x["index"])
  // ---------------------------------------------------------------------

  /** Insert `x` before the first datum whose index is not below its own,
      so that equal indices keep their order. */
  function InsertByIndex(x: Datum, t: seq<Datum>): seq<Datum> {
    if t == [] then [x]
    else if x.0 <= t[0].0 then [x] + t
    else [t[0]] + InsertByIndex(x, t[1..])
  }

  /** Python's stable `sorted` on the `index` key. */
  function SortByIndex(d: seq<Datum>): seq<Datum> {
    if d == [] then [] else InsertByIndex(d[0], SortByIndex(d[1..]))
  }

  predicate Ascending(s: seq<Datum>) {
    forall a, b :: 0 <= a < b < |s| ==> s[a].0 <= s[b].0
  }

  /** No two data carry the same index. */
  predicate DistinctIndices(s: seq<Datum>) {
    forall a, b :: 0 <= a < b < |s| ==> s[a].0 != s[b].0
  }

  function Indices(s: seq<Datum>): set<int> {
    set i | 0 <= i < |s| :: s[i].0
  }

  lemma {:induction false} InsertByIndexFacts(x: Datum, t: seq<Datum>)
    ensures |InsertByIndex(x, t)| == |t| + 1
    ensures multiset(InsertByIndex(x, t)) == multiset(t) + multiset{x}
    ensures Indices(InsertByIndex(x, t)) == Indices(t) + {x.0}
    ensures InsertByIndex(x, t)[0] == x || InsertByIndex(x, t)[0] == t[0]
  {
    InsertByIndexPerm(x, t);
    var r := InsertByIndex(x, t);
    assert multiset(r) == multiset([x] + t);
    SameIndices(r, [x] + t);
    HeadIndices([x] + t);
    assert ([x] + t)[1..] == t;
  }

  lemma {:induction false} InsertByIndexPerm(x: Datum, t: seq<Datum>)
    ensures |InsertByIndex(x, t)| == |t| + 1
    ensures multiset(InsertByIndex(x, t)) == multiset(t) + multiset{x}
    ensures InsertByIndex(x, t)[0] == x || InsertByIndex(x, t)[0] == t[0]
  {
    if t != [] && x.0 > t[0].0 {
      InsertByIndexPerm(x, t[1..]);
      assert t == [t[0]] + t[1..];
    }
  }

  /** Two arrangements of the same data carry the same indices. */
  lemma SameIndices(s: seq<Datum>, t: seq<Datum>)
    requires multiset(s) == multiset(t)
    ensures Indices(s) == Indices(t)
  {
    forall v | v in Indices(s)
      ensures v in Indices(t)
    {
      var i :| 0 <= i < |s| && s[i].0 == v;
      assert s[i] in multiset(t);
      var j :| 0 <= j < |t| && t[j] == s[i];
    }
    forall v | v in Indices(t)
      ensures v in Indices(s)
    {
      var j :| 0 <= j < |t| && t[j].0 == v;
      assert t[j] in multiset(s);
      var i :| 0 <= i < |s| && s[i] == t[j];
    }
  }

  lemma {:induction false} InsertByIndexAscending(x: Datum, t: seq<Datum>)
    requires Ascending(t)
    ensures Ascending(InsertByIndex(x, t))
  {
    if t != [] && x.0 > t[0].0 {
      var u := InsertByIndex(x, t[1..]);
      InsertByIndexAscending(x, t[1..]);
      InsertByIndexFacts(x, t[1..]);
      var r := InsertByIndex(x, t);
      assert r == [t[0]] + u;
      forall a, b | 0 <= a < b < |r|
        ensures r[a].0 <= r[b].0
      {
        if a == 0 {
          assert r[b] == u[b - 1];
          if b > 1 {
            assert u[0].0 <= u[b - 1].0;
          }
          assert u[0] == x || u[0] == t[1];
        }
      }
    }
  }

  /** Splitting a sequence at its head splits its index set. */
  lemma HeadIndices(t: seq<Datum>)
    requires t != []
    ensures Indices(t) == Indices(t[1..]) + {t[0].0}
    ensures DistinctIndices(t) ==> DistinctIndices(t[1..]) && t[0].0 !in Indices(t[1..])
  {
    assert forall i :: 0 <= i < |t[1..]| ==> t[1..][i] == t[i + 1];
    assert forall i :: 1 <= i < |t| ==> t[i] == t[1..][i - 1];
  }

  lemma ConsDistinct(h: Datum, u: seq<Datum>)
    requires DistinctIndices(u) && h.0 !in Indices(u)
    ensures DistinctIndices([h] + u)
  {
    var r := [h] + u;
    forall a, b | 0 <= a < b < |r|
      ensures r[a].0 != r[b].0
    {
      assert r[b] == u[b - 1];
      if a > 0 {
        assert r[a] == u[a - 1];
      } else {
        assert u[b - 1].0 in Indices(u);
      }
    }
  }

  lemma {:induction false} InsertByIndexDistinct(x: Datum, t: seq<Datum>)
    requires DistinctIndices(t) && x.0 !in Indices(t)
    ensures DistinctIndices(InsertByIndex(x, t))
  {
    if t == [] {
    } else if x.0 <= t[0].0 {
      ConsDistinct(x, t);
    } else {
      HeadIndices(t);
      InsertByIndexDistinct(x, t[1..]);
      InsertByIndexFacts(x, t[1..]);
      ConsDistinct(t[0], InsertByIndex(x, t[1..]));
    }
  }

  lemma {:induction false} SortByIndexFacts(d: seq<Datum>)
    ensures |SortByIndex(d)| == |d|
    ensures multiset(SortByIndex(d)) == multiset(d)
    ensures Indices(SortByIndex(d)) == Indices(d)
    ensures Ascending(SortByIndex(d))
    ensures DistinctIndices(d) ==> DistinctIndices(SortByIndex(d))
  {
    if d != [] {
      var t := d[1..];
      SortByIndexFacts(t);
      InsertByIndexFacts(d[0], SortByIndex(t));
      InsertByIndexAscending(d[0], SortByIndex(t));
      assert d == [d[0]] + t;
      HeadIndices(d);
      if DistinctIndices(d) {
        InsertByIndexDistinct(d[0], SortByIndex(t));
      }
    }
  }

  /** A strictly increasing run of `m` integers inside [0, m) is 0, 1, ... */
  lemma {:induction false} StrictRangeIsIdentity(s: seq<Datum>)
    requires Ascending(s) && DistinctIndices(s)
    requires forall i :: 0 <= i < |s| ==> 0 <= s[i].0 < |s|
    ensures forall j :: 0 <= j < |s| ==> s[j].0 == j
  {
    forall j | 0 <= j < |s|
      ensures s[j].0 == j
    {
      AtLeastPosition(s, j);
      AtMostPosition(s, j);
    }
  }

  lemma {:induction false} AtLeastPosition(s: seq<Datum>, j: nat)
    requires Ascending(s) && DistinctIndices(s) && j < |s|
    requires forall i :: 0 <= i < |s| ==> 0 <= s[i].0
    ensures s[j].0 >= j
  {
    if j > 0 {
      AtLeastPosition(s, j - 1);
    }
  }

  lemma {:induction false} AtMostPosition(s: seq<Datum>, j: nat)
    requires Ascending(s) && DistinctIndices(s) && j < |s|
    requires forall i :: 0 <= i < |s| ==> s[i].0 < |s|
    ensures s[j].0 <= j
    decreases |s| - j
  {
    if j < |s| - 1 {
      AtMostPosition(s, j + 1);
    }
  }

  // ---------------------------------------------------------------------
  // One chunk, and the whole call
  // ---------------------------------------------------------------------

  /** What one chunk contributes to the output. */
  function ChunkEmbeddings(chunk: seq<string>, answer: Result<seq<Datum>, string>): (r: seq<Option<Vector>>)
    ensures answer.Failure? ==> |r| == |chunk| && forall j :: 0 <= j < |r| ==> r[j].None?
    ensures answer.Success? ==> |r| == |answer.value| && forall j :: 0 <= j < |r| ==> r[j].Some?
  {
    match answer
    case Failure(_) => seq(|chunk|, j => None)
    case Success(d) =>
      var sorted := SortByIndex(d);
      SortByIndexFacts(d);
      seq(|sorted|, j requires 0 <= j < |sorted| => Some(sorted[j].1))
  }

  /** The service answered a chunk with one embedding per text, labelled
      0 .. len(chunk) - 1 in some order. */
  predicate Complete(chunk: seq<string>, d: seq<Datum>) {
    && |d| == |chunk|
    && DistinctIndices(d)
    && (forall i :: 0 <= i < |d| ==> 0 <= d[i].0 < |d|)
  }

  /** With a complete answer, the embedding labelled `j` lands at position
      `j` of the chunk: the output is aligned with the input texts. */
  lemma ChunkAligned(chunk: seq<string>, d: seq<Datum>)
    requires Complete(chunk, d)
    ensures var r := ChunkEmbeddings(chunk, Success(d));
      && |r| == |chunk|
      && forall q :: q in d ==> r[q.0] == Some(q.1)
  {
    var sorted := SortByIndex(d);
    SortByIndexFacts(d);
    assert forall i :: 0 <= i < |sorted| ==> 0 <= sorted[i].0 < |sorted| by {
      forall i | 0 <= i < |sorted|
        ensures 0 <= sorted[i].0 < |sorted|
      {
        assert sorted[i].0 in Indices(d);
      }
    }
    StrictRangeIsIdentity(sorted);
    forall q | q in d
      ensures ChunkEmbeddings(chunk, Success(d))[q.0] == Some(q.1)
    {
      assert q in multiset(sorted);
      var p :| 0 <= p < |sorted| && sorted[p] == q;
    }
  }

  /** Per-chunk outputs, chunk `k` sent as batch number `k + 1`. */
  function ChunkOutputs(texts: seq<string>, batchSize: nat, service: Service): (r: seq<seq<Option<Vector>>>)
    requires batchSize > 0
    ensures |r| == |Chunks(texts, batchSize)|
    ensures forall k :: 0 <= k < |r| ==>
      r[k] == ChunkEmbeddings(Chunks(texts, batchSize)[k], service(k + 1, Chunks(texts, batchSize)[k]))
  {
    var cs := Chunks(texts, batchSize);
    seq(|cs|, k requires 0 <= k < |cs| => ChunkEmbeddings(cs[k], service(k + 1, cs[k])))
  }

  /** The request a missing or empty API key turns into. */
  const MissingKey: string := "OPENAI_API_KEY not found"

  /** The error `(len(texts) + BATCH_SIZE - 1) // BATCH_SIZE` raises when
      the environment sets `BATCH_SIZE` to 0. */
  const ZeroBatchSize: string := "integer division or modulo by zero"

  /** `generate_embeddings_batch`, as the source loops over
      `range(0, len(texts), BATCH_SIZE)`. It also returns the chunks it sent,
      one per request. `BATCH_SIZE` comes from the environment: 0 makes the
      batch count divide by zero, and a negative size gives an empty
      `range`, so nothing is sent. */
  method GenerateEmbeddingsBatch(apiKey: Option<string>, texts: seq<string>, batchSize: int, service: Service)
    returns (r: Result<seq<Option<Vector>>, string>, requests: seq<seq<string>>)
    ensures apiKey.None? || apiKey == Some("") ==> r == Failure(MissingKey) && requests == []
    ensures apiKey.Some? && apiKey != Some("") && batchSize == 0 ==> r == Failure(ZeroBatchSize) && requests == []
    ensures apiKey.Some? && apiKey != Some("") && batchSize < 0 ==> r == Success([]) && requests == []
    ensures apiKey.Some? && apiKey != Some("") && batchSize > 0 ==>
      && r == Success(Flatten(ChunkOutputs(texts, batchSize, service)))
      && requests == Chunks(texts, batchSize)
      && |requests| == (|texts| + batchSize - 1) / batchSize
  {
    if apiKey.None? || apiKey == Some("") {
      return Failure(MissingKey), [];
    }
    if batchSize == 0 {
      return Failure(ZeroBatchSize), [];
    }
    if batchSize < 0 {
      return Success([]), [];
    }
    var all;
    all, requests := SendChunks(texts, batchSize, service);
    r := Success(all);
  }

  /** The loop of `generate_embeddings_batch` for a positive batch size. */
  method SendChunks(texts: seq<string>, batchSize: nat, service: Service)
    returns (all: seq<Option<Vector>>, requests: seq<seq<string>>)
    requires batchSize > 0
    ensures all == Flatten(ChunkOutputs(texts, batchSize, service))
    ensures requests == Chunks(texts, batchSize)
    ensures |requests| == (|texts| + batchSize - 1) / batchSize
  {
    all := [];
    ghost var cs := Chunks(texts, batchSize);
    ghost var outs := ChunkOutputs(texts, batchSize, service);
    ChunkCount(texts, batchSize);
    requests := [];
    var i := 0;
    ghost var k := 0;
    OffsetVersusEnd(texts, batchSize, 0);
    while i < |texts|
      invariant k <= |cs| && i == Offset(k, batchSize)
      invariant i < |texts| <==> k < |cs|
      invariant requests == cs[..k]
      invariant all == Flatten(outs[..k])
      decreases |cs| - k
    {
      var batch := texts[i..Min(i + batchSize, |texts|)];
      var batchNum := i / batchSize + 1;
      LoopStep(texts, batchSize, service, k, cs, outs, i);
      all := all + ChunkEmbeddings(batch, service(batchNum, batch));
      requests := requests + [batch];
      i := i + batchSize;
      k := k + 1;
    }
    assert outs[..k] == outs;
    assert cs[..k] == cs;
  }

  /** One turn of the loop: the slice at `Offset(k, size)` is chunk `k`,
      sent as batch `k + 1`, and it extends both prefixes by one. */
  lemma LoopStep(texts: seq<string>, size: nat, service: Service, k: nat,
                 cs: seq<seq<string>>, outs: seq<seq<Option<Vector>>>, i: nat)
    requires size > 0 && k < |Chunks(texts, size)| && i == Offset(k, size)
    requires cs == Chunks(texts, size) && outs == ChunkOutputs(texts, size, service)
    ensures i < |texts|
    ensures i / size == k
    ensures cs[..k] + [texts[i..Min(i + size, |texts|)]] == cs[..k + 1]
    ensures Flatten(outs[..k]) + ChunkEmbeddings(texts[i..Min(i + size, |texts|)], service(k + 1, texts[i..Min(i + size, |texts|)]))
      == Flatten(outs[..k + 1])
    ensures i + size == Offset(k + 1, size)
    ensures i + size < |texts| <==> k + 1 < |cs|
  {
    BatchAt(texts, size, k);
    var b := texts[i..Min(i + size, |texts|)];
    assert b == cs[k];
    PrefixSnoc(cs, k);
    NextOutput(texts, size, service, k);
    assert ChunkEmbeddings(b, service(k + 1, b)) == ChunkEmbeddings(cs[k], service(k + 1, cs[k]));
    OffsetVersusEnd(texts, size, k + 1);
  }

  /** The slice the loop takes at batch `k` is chunk `k`, and its batch
      number `i // BATCH_SIZE + 1` is `k + 1`. */
  lemma BatchAt(texts: seq<string>, size: nat, k: nat)
    requires size > 0 && k < |Chunks(texts, size)|
    ensures Offset(k, size) < |texts|
    ensures texts[Offset(k, size)..Min(Offset(k, size) + size, |texts|)] == Chunks(texts, size)[k]
    ensures Offset(k, size) / size == k
  {
    ChunkIsSlice(texts, size, k);
    OffsetIsProduct(k, size);
    DivUnique(Offset(k, size), size, k);
  }

  lemma PrefixSnoc<T>(s: seq<T>, k: nat)
    requires k < |s|
    ensures s[..k + 1] == s[..k] + [s[k]]
  {
  }

  lemma NextOutput(texts: seq<string>, size: nat, service: Service, k: nat)
    requires size > 0 && k < |Chunks(texts, size)|
    ensures var outs := ChunkOutputs(texts, size, service);
      var c := Chunks(texts, size)[k];
      Flatten(outs[..k + 1]) == Flatten(outs[..k]) + ChunkEmbeddings(c, service(k + 1, c))
  {
    var outs := ChunkOutputs(texts, size, service);
    assert outs[..k + 1] == outs[..k] + [outs[k]];
    FlattenSnoc(outs[..k], outs[k]);
  }

  /** Batch `k` starts inside the input exactly when it exists. */
  lemma OffsetVersusEnd<T>(s: seq<T>, size: nat, k: nat)
    requires size > 0 && k <= |Chunks(s, size)|
    ensures Offset(k, size) < |s| <==> k < |Chunks(s, size)|
  {
    if k < |Chunks(s, size)| {
      ChunkIsSlice(s, size, k);
    } else {
      ChunkBounds(s, size);
    }
  }

  lemma {:induction false} FlattenSnoc<T>(ss: seq<seq<T>>, x: seq<T>)
    ensures Flatten(ss + [x]) == Flatten(ss) + x
  {
    if ss != [] {
      assert (ss + [x])[1..] == ss[1..] + [x];
      FlattenSnoc(ss[1..], x);
    } else {
      assert [x][1..] == [];
    }
  }

  // ---------------------------------------------------------------------
  // Properties of the whole call
  // ---------------------------------------------------------------------

  /** Position `Offset(k) + j` of the concatenation is position `j` of part
      `k`, when every part before the last has the batch size. */
  lemma {:induction false} FlattenIndex<T>(ps: seq<seq<T>>, size: nat, k: nat, j: nat)
    requires forall i :: 0 <= i < |ps| - 1 ==> |ps[i]| == size
    requires k < |ps| && j < |ps[k]|
    ensures Offset(k, size) + j < |Flatten(ps)|
    ensures Flatten(ps)[Offset(k, size) + j] == ps[k][j]
  {
    var rest := ps[1..];
    assert Flatten(ps) == ps[0] + Flatten(rest);
    if k > 0 {
      FlattenIndex(rest, size, k - 1, j);
      assert rest[k - 1] == ps[k];
    }
  }

  lemma {:induction false} FlattenLength<T, U>(ps: seq<seq<T>>, qs: seq<seq<U>>)
    requires |ps| == |qs| && forall i :: 0 <= i < |ps| ==> |ps[i]| == |qs[i]|
    ensures |Flatten(ps)| == |Flatten(qs)|
  {
    if ps != [] {
      FlattenLength(ps[1..], qs[1..]);
    }
  }

  /** The concatenation holds part `k` at `Offset(k)`, when every part
      before the last has the batch size. */
  lemma {:induction false} FlattenSlice<T>(ps: seq<seq<T>>, size: nat, k: nat)
    requires forall i :: 0 <= i < |ps| - 1 ==> |ps[i]| == size
    requires k < |ps|
    ensures Offset(k, size) + |ps[k]| <= |Flatten(ps)|
    ensures Flatten(ps)[Offset(k, size)..Offset(k, size) + |ps[k]|] == ps[k]
  {
    var rest := ps[1..];
    var f := Flatten(ps);
    assert f == ps[0] + Flatten(rest);
    if k > 0 {
      FlattenSlice(rest, size, k - 1);
      assert rest[k - 1] == ps[k];
      var o := Offset(k - 1, size);
      assert Offset(k, size) == size + o;
      AppendSlice(ps[0], Flatten(rest), o, o + |ps[k]|);
    } else {
      assert f[..|ps[0]|] == ps[0];
    }
  }

  lemma AppendSlice<T>(a: seq<T>, b: seq<T>, x: nat, y: nat)
    requires x <= y <= |b|
    ensures (a + b)[|a| + x..|a| + y] == b[x..y]
  {
  }

  /** Every chunk's request either failed or was answered completely. */
  predicate Answered(texts: seq<string>, batchSize: nat, service: Service)
    requires batchSize > 0
  {
    forall k :: 0 <= k < |Chunks(texts, batchSize)| ==>
      var c := Chunks(texts, batchSize)[k];
      service(k + 1, c).Failure? || Complete(c, service(k + 1, c).value)
  }

  /** Under complete-or-failed answers every chunk's output has the chunk's
      length. */
  lemma OutputLengths(texts: seq<string>, batchSize: nat, service: Service)
    requires batchSize > 0
    requires Answered(texts, batchSize, service)
    ensures forall k :: 0 <= k < |Chunks(texts, batchSize)| ==>
      |ChunkOutputs(texts, batchSize, service)[k]| == |Chunks(texts, batchSize)[k]|
    ensures forall k :: 0 <= k < |ChunkOutputs(texts, batchSize, service)| - 1 ==>
      |ChunkOutputs(texts, batchSize, service)[k]| == batchSize
    ensures |Flatten(ChunkOutputs(texts, batchSize, service))| == |texts|
  {
    var cs := Chunks(texts, batchSize);
    var outs := ChunkOutputs(texts, batchSize, service);
    ChunksPartition(texts, batchSize);
    forall k | 0 <= k < |cs|
      ensures |outs[k]| == |cs[k]|
    {
      if service(k + 1, cs[k]).Success? {
        ChunkAligned(cs[k], service(k + 1, cs[k]).value);
      }
    }
    FlattenLength(outs, cs);
  }

  /** The output is the chunks' outputs laid end to end: chunk `k` of the
      input (texts `k * BATCH_SIZE` onward) is answered at the same
      positions, so when every answer is complete or an error the output
      has one entry per text and a failed chunk holds `None` at each of its
      positions. */
  lemma Aligned(texts: seq<string>, batchSize: nat, service: Service)
    requires batchSize > 0
    requires Answered(texts, batchSize, service)
    ensures |Flatten(ChunkOutputs(texts, batchSize, service))| == |texts|
    ensures forall k :: 0 <= k < |Chunks(texts, batchSize)| ==>
      var c := Chunks(texts, batchSize)[k];
      |ChunkEmbeddings(c, service(k + 1, c))| == |c| &&
      SliceAt(Flatten(ChunkOutputs(texts, batchSize, service)), Offset(k, batchSize), ChunkEmbeddings(c, service(k + 1, c)))
  {
    var cs := Chunks(texts, batchSize);
    var outs := ChunkOutputs(texts, batchSize, service);
    OutputLengths(texts, batchSize, service);
    forall k | 0 <= k < |cs|
      ensures SliceAt(Flatten(outs), Offset(k, batchSize), outs[k])
    {
      FlattenSlice(outs, batchSize, k);
    }
  }

  /** `part` sits in `s` starting at position `o`. */
  predicate SliceAt(s: seq<Option<Vector>>, o: nat, part: seq<Option<Vector>>) {
    o + |part| <= |s| && s[o..o + |part|] == part
  }

  /** Under the same answers, the embedding the service labelled `j` in its
      answer to chunk `k` sits at position `k * BATCH_SIZE + j`. */
  lemma LabelledAt(texts: seq<string>, batchSize: nat, service: Service, k: nat, q: Datum)
    requires batchSize > 0
    requires Answered(texts, batchSize, service)
    requires var cs := Chunks(texts, batchSize);
      k < |cs| && service(k + 1, cs[k]).Success? && q in service(k + 1, cs[k]).value
    ensures var out := Flatten(ChunkOutputs(texts, batchSize, service));
      0 <= Offset(k, batchSize) + q.0 < |out| && out[Offset(k, batchSize) + q.0] == Some(q.1)
  {
    var cs := Chunks(texts, batchSize);
    var outs := ChunkOutputs(texts, batchSize, service);
    assert 0 <= q.0 < |outs[k]| && outs[k][q.0] == Some(q.1) by {
      AnsweredAt(texts, batchSize, service, k);
      ChunkOutputAt(texts, batchSize, service, k, q);
    }
    assert forall i :: 0 <= i < |outs| - 1 ==> |outs[i]| == batchSize by {
      OutputLengths(texts, batchSize, service);
    }
    FlattenIndex(outs, batchSize, k, q.0);
    assert Flatten(outs)[Offset(k, batchSize) + q.0] == Some(q.1);
  }

  /** A chunk the service answered got a complete answer. */
  lemma AnsweredAt(texts: seq<string>, batchSize: nat, service: Service, k: nat)
    requires batchSize > 0
    requires Answered(texts, batchSize, service)
    requires var cs := Chunks(texts, batchSize);
      k < |cs| && service(k + 1, cs[k]).Success?
    ensures var c := Chunks(texts, batchSize)[k];
      Complete(c, service(k + 1, c).value)
  {
  }

  /** Within chunk `k`'s own output, a complete answer puts the embedding
      labelled `j` at position `j`. */
  lemma ChunkOutputAt(texts: seq<string>, batchSize: nat, service: Service, k: nat, q: Datum)
    requires batchSize > 0
    requires var cs := Chunks(texts, batchSize);
      && k < |cs| && service(k + 1, cs[k]).Success? && q in service(k + 1, cs[k]).value
      && Complete(cs[k], service(k + 1, cs[k]).value)
    ensures var outs := ChunkOutputs(texts, batchSize, service);
      0 <= q.0 < |outs[k]| && outs[k][q.0] == Some(q.1)
  {
    var cs := Chunks(texts, batchSize);
    var d := service(k + 1, cs[k]).value;
    ChunkAligned(cs[k], d);
    var p :| 0 <= p < |d| && d[p] == q;
  }
}
