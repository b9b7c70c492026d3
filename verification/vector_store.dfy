/**
 * The in-memory vector store of api/database.py: the module globals that
 * `load_vectors_to_memory` fills from the cache file, the sku-to-index map,
 * cosine similarity with its zero-norm guard, top-k selection for the
 * single and batch searches, and the bulk item and quote lookups.
 *
 * numpy's dot product and norm are parameters; similarities are reals.
 * The database answers are inputs.
 */
module VectorStore {
  import opened Wrappers

  type Vector = seq<real>

  /** A database row as a dict: column name to value, `None` for NULL. */
  type Row = map<string, Option<string>>

  // ---------------------------------------------------------------------
  // Module globals and load_vectors_to_memory
  // ---------------------------------------------------------------------

  /** `_vectors_cache`, `_item_skus`, `_item_names`, `_item_sku_to_index` */
  datatype Globals = Globals(
    vectors: Option<seq<Vector>>,
    skus: Option<seq<string>>,
    names: Option<seq<string>>,
    index: Option<map<string, nat>>)

  const Unloaded: Globals := Globals(None, None, None, None)

  /** The dict unpickled from the cache file; a field is `None` when the
      dict lacks that key. */
  datatype CacheFile = CacheFile(
    vectors: Option<seq<Vector>>,
    itemSkus: Option<seq<string>>,
    itemNames: Option<seq<string>>)

  datatype LoadError = Unreadable(reason: string) | MissingKey(key: string) | OldFormat

  /** `{sku: idx for idx, sku in enumerate(skus)}`: a later duplicate
      overwrites an earlier one. */
  function SkuIndex(skus: seq<string>): (m: map<string, nat>)
    ensures m.Keys == set i | 0 <= i < |skus| :: skus[i]
    ensures forall s :: s in m ==> m[s] < |skus| && skus[m[s]] == s
    ensures forall s, j :: s in m && m[s] < j < |skus| ==> skus[j] != s
  {
    if skus == [] then map[]
    else
      var init := skus[..|skus| - 1];
      var m' := SkuIndex(init);
      assert forall i :: 0 <= i < |init| ==> init[i] == skus[i];
      m'[skus[|skus| - 1] := |skus| - 1]
  }

  /** Every state the globals are meant to be in: nothing loaded, or all
      four loaded together with the index built from the sku list. */
  predicate Coherent(g: Globals) {
    || g == Unloaded
    || (g.vectors.Some? && g.skus.Some? && g.names.Some? && g.index == Some(SkuIndex(g.skus.value)))
  }

  /** `load_vectors_to_memory` as written: each global is assigned as soon
      as its key is read, so a failure part-way leaves the earlier ones
      assigned. A missing file is not an error. */
  function LoadAsWritten(g: Globals, file: Option<Result<CacheFile, string>>): (r: (Globals, Result<(), LoadError>))
    ensures file.None? ==> r == (g, Success(()))
    ensures r.1.Success? && file.Some? ==> Coherent(r.0) && r.0 != Unloaded
  {
    match file
    case None => (g, Success(()))
    case Some(Failure(e)) => (g, Failure(Unreadable(e)))
    case Some(Success(c)) =>
      if c.vectors.None? then (g, Failure(MissingKey("vectors")))
      else
        var g1 := g.(vectors := c.vectors);
        if c.itemSkus.None? then (g1, Failure(OldFormat))
        else
          var g2 := g1.(skus := c.itemSkus);
          if c.itemNames.None? then (g2, Failure(MissingKey("item_names")))
          else (Globals(c.vectors, c.itemSkus, c.itemNames, Some(SkuIndex(c.itemSkus.value))), Success(()))
  }

  /** An old-format cache file (no `item_skus`) makes the load raise, yet
      `_vectors_cache` is already set: the `is None` guard of the searches
      then takes the store for loaded while `_item_skus` is still `None`. */
  lemma OldFormatTearsState()
    ensures var file := Some(Success(CacheFile(Some([[1.0]]), None, Some(["x"]))));
      var (g, res) := LoadAsWritten(Unloaded, file);
      && res == Failure(OldFormat)
      && g.vectors.Some? && g.skus.None?
      && !Coherent(g)
  {
  }

  /** `load_vectors_to_memory` with the keys checked before any global is
      assigned: a load either succeeds as a whole or leaves the globals as
      they were. */
  function LoadVectorsToMemory(g: Globals, file: Option<Result<CacheFile, string>>): (r: (Globals, Result<(), LoadError>))
    ensures r.1.Failure? ==> r.0 == g
    ensures file.None? ==> r == (g, Success(()))
    ensures Coherent(g) ==> Coherent(r.0)
    ensures r.1.Success? && file.Some? ==>
      && file.value.Success?
      && var c := file.value.value;
      && c.vectors.Some? && c.itemSkus.Some? && c.itemNames.Some?
      && r.0 == Globals(c.vectors, c.itemSkus, c.itemNames, Some(SkuIndex(c.itemSkus.value)))
  {
    match file
    case None => (g, Success(()))
    case Some(Failure(e)) => (g, Failure(Unreadable(e)))
    case Some(Success(c)) =>
      if c.vectors.None? then (g, Failure(MissingKey("vectors")))
      else if c.itemSkus.None? then (g, Failure(OldFormat))
      else if c.itemNames.None? then (g, Failure(MissingKey("item_names")))
      else (Globals(c.vectors, c.itemSkus, c.itemNames, Some(SkuIndex(c.itemSkus.value))), Success(()))
  }

  /** Both loads agree whenever the load succeeds or fails before touching
      anything; they differ only in what a failure leaves behind. */
  lemma LoadsAgreeOnSuccess(g: Globals, file: Option<Result<CacheFile, string>>)
    ensures LoadAsWritten(g, file).1 == LoadVectorsToMemory(g, file).1
    ensures LoadVectorsToMemory(g, file).1.Success? ==> LoadAsWritten(g, file).0 == LoadVectorsToMemory(g, file).0
  {
  }

  /** `get_vectors`: raises until the vectors are loaded. */
  function GetVectors(g: Globals): (r: Result<(seq<Vector>, Option<seq<string>>, Option<seq<string>>), string>)
    ensures r.Success? <==> g.vectors.Some?
    ensures Coherent(g) && r.Success? ==> r.value.1.Some? && r.value.2.Some?
  {
    if g.vectors.None? then Failure("Vectors not loaded. Call load_vectors_to_memory() first.")
    else Success((g.vectors.value, g.skus, g.names))
  }

  // ---------------------------------------------------------------------
  // cosine_similarity
  // ---------------------------------------------------------------------

  /** `cosine_similarity`, with numpy's dot product and norm as parameters. */
  function Cosine(a: Vector, b: Vector, dot: (Vector, Vector) -> real, norm: Vector -> real): (r: real)
    ensures norm(a) == 0.0 || norm(b) == 0.0 ==> r == 0.0
  {
    if norm(a) == 0.0 || norm(b) == 0.0 then 0.0
    else dot(a, b) / (norm(a) * norm(b))
  }

  /** When the norm is the square root of the self dot product, a vector
      of positive length has similarity exactly 1 with itself. */
  lemma CosineSelf(v: Vector, dot: (Vector, Vector) -> real, norm: Vector -> real)
    requires dot(v, v) > 0.0 && norm(v) > 0.0 && norm(v) * norm(v) == dot(v, v)
    ensures Cosine(v, v, dot, norm) == 1.0
  {
    DivSelf(dot(v, v), norm(v) * norm(v));
  }

  lemma DivSelf(x: real, y: real)
    requires x > 0.0 && y == x
    ensures x / y == 1.0
  {
  }

  /** The zero-norm substitute of `search_vectors_batch`. */
  const Tiny: real := 0.0000000001

  function SafeNorm(n: real): (r: real)
    ensures n >= 0.0 ==> r > 0.0
    ensures n != 0.0 ==> r == n
  {
    if n == 0.0 then Tiny else n
  }

  /** One entry of the batch similarity matrix: never a division by zero,
      and equal to the cosine whenever both norms are non-zero. */
  function BatchSimilarity(q: Vector, v: Vector, dot: (Vector, Vector) -> real, norm: Vector -> real): (r: real)
    requires norm(q) >= 0.0 && norm(v) >= 0.0
    ensures norm(q) != 0.0 && norm(v) != 0.0 ==> r == Cosine(q, v, dot, norm)
    ensures norm(q) == 0.0 || norm(v) == 0.0 ==> r == dot(q, v) / (SafeNorm(norm(q)) * SafeNorm(norm(v)))
  {
    var d := SafeNorm(norm(q)) * SafeNorm(norm(v));
    PositiveProduct(SafeNorm(norm(q)), SafeNorm(norm(v)));
    dot(q, v) / d
  }

  lemma PositiveProduct(a: real, b: real)
    requires a > 0.0 && b > 0.0
    ensures a * b > 0.0
  {
  }

  // ---------------------------------------------------------------------
  // np.argsort(similarities)[::-1][:top_k]
  // ---------------------------------------------------------------------

  function Min(a: int, b: int): int {
    if a <= b then a else b
  }

  /** `picked` is a top-k selection of `sims`: `min(k, len)` distinct
      positions in non-increasing similarity, none left out scoring above
      one picked. Ties may come in any order. */
  predicate IsTopK(sims: seq<real>, k: nat, picked: seq<nat>) {
    && |picked| == Min(k, |sims|)
    && (forall a :: 0 <= a < |picked| ==> picked[a] < |sims|)
    && (forall a, b :: 0 <= a < b < |picked| ==> picked[a] != picked[b])
    && (forall a, b :: 0 <= a < b < |picked| ==> sims[picked[a]] >= sims[picked[b]])
    && (forall j, a :: 0 <= j < |sims| && j !in picked && 0 <= a < |picked| ==> sims[j] <= sims[picked[a]])
  }

  predicate IsPermutation(perm: seq<nat>, n: nat) {
    && |perm| == n
    && (forall i :: 0 <= i < n ==> perm[i] < n)
    && (forall a, b :: 0 <= a < b < n ==> perm[a] != perm[b])
    && (forall j :: 0 <= j < n ==> j in perm)
  }

  lemma SwapPermutation(perm: seq<nat>, n: nat, p: nat, b: nat)
    requires IsPermutation(perm, n) && p < n && b < n
    ensures IsPermutation(perm[p := perm[b]][b := perm[p]], n)
  {
    var s := perm[p := perm[b]][b := perm[p]];
    forall j: nat | j < n
      ensures j in s
    {
      assert j in perm;
      var q :| 0 <= q < |perm| && perm[q] == j;
      if q == p {
        assert s[b] == j;
      } else if q == b {
        assert s[p] == j;
      } else {
        assert s[q] == j;
      }
    }
  }

  /** The first `p` positions of `perm` hold the `p` best similarities in
      non-increasing order. */
  predicate PrefixSelected(sims: seq<real>, perm: seq<nat>, p: nat)
    requires p <= |perm| && forall i :: 0 <= i < |perm| ==> perm[i] < |sims|
  {
    && (forall a, b :: 0 <= a < b < p ==> sims[perm[a]] >= sims[perm[b]])
    && (forall a, q :: 0 <= a < p <= q < |perm| ==> sims[perm[a]] >= sims[perm[q]])
  }

  /** Swapping the best of the rest into place `p` extends the selection. */
  lemma SwapSelects(sims: seq<real>, perm: seq<nat>, p: nat, best: nat)
    requires p <= best < |perm| && forall i :: 0 <= i < |perm| ==> perm[i] < |sims|
    requires PrefixSelected(sims, perm, p)
    requires forall r :: p <= r < |perm| ==> sims[perm[r]] <= sims[perm[best]]
    ensures var s := perm[p := perm[best]][best := perm[p]];
      (forall i :: 0 <= i < |s| ==> s[i] < |sims|) && PrefixSelected(sims, s, p + 1)
  {
    var s := perm[p := perm[best]][best := perm[p]];
    assert forall i :: 0 <= i < |s| ==> s[i] == perm[i] || s[i] == perm[p] || s[i] == perm[best];
    forall a, q | 0 <= a < p + 1 <= q < |s|
      ensures sims[s[a]] >= sims[s[q]]
    {
      assert s[q] == perm[q] || s[q] == perm[p];
    }
  }

  /** Top-k by partial selection sort over a permutation of the positions. */
  method SelectTopK(sims: seq<real>, k: nat) returns (picked: seq<nat>)
    ensures IsTopK(sims, k, picked)
  {
    var n := |sims|;
    var m := Min(k, n);
    var perm: seq<nat> := seq(n, i requires 0 <= i < n => i as nat);
    assert IsPermutation(perm, n) by {
      forall j | 0 <= j < n
        ensures j in perm
      {
        assert perm[j] == j;
      }
    }
    var p := 0;
    while p < m
      invariant 0 <= p <= m
      invariant IsPermutation(perm, n)
      invariant PrefixSelected(sims, perm, p)
    {
      var best := p;
      var q := p + 1;
      while q < n
        invariant p <= best < n && p + 1 <= q <= n
        invariant forall r :: p <= r < q ==> sims[perm[r]] <= sims[perm[best]]
      {
        if sims[perm[q]] > sims[perm[best]] {
          best := q;
        }
        q := q + 1;
      }
      SwapPermutation(perm, n, p, best);
      SwapSelects(sims, perm, p, best);
      perm := perm[p := perm[best]][best := perm[p]];
      p := p + 1;
    }
    picked := perm[..m];
    PrefixIsTopK(sims, k, perm);
  }

  /** A permutation whose first `min(k, len)` positions are selected gives
      a top-k selection. */
  lemma PrefixIsTopK(sims: seq<real>, k: nat, perm: seq<nat>)
    requires IsPermutation(perm, |sims|)
    requires PrefixSelected(sims, perm, Min(k, |sims|))
    ensures IsTopK(sims, k, perm[..Min(k, |sims|)])
  {
    var m := Min(k, |sims|);
    var picked := perm[..m];
    forall j: nat, a | j < |sims| && j !in picked && 0 <= a < m
      ensures sims[j] <= sims[picked[a]]
    {
      assert j in perm;
      var q :| 0 <= q < |perm| && perm[q] == j;
      OutsidePrefix(perm, m, q);
    }
  }

  lemma OutsidePrefix(perm: seq<nat>, m: nat, q: nat)
    requires m <= |perm| && q < |perm| && perm[q] !in perm[..m]
    ensures q >= m
  {
  }

  // ---------------------------------------------------------------------
  // search_vectors and search_vectors_batch
  // ---------------------------------------------------------------------

  /** `search_vectors`: `similarity` gives the cosine of one cache row with
      the query. Raises when nothing is loaded, or when a picked position
      has no sku. */
  method SearchVectors(g: Globals, similarity: Vector -> real, topK: nat)
    returns (r: Result<seq<(string, real)>, string>, picked: seq<nat>)
    ensures g.vectors.None? ==> r.Failure?
    ensures g.vectors.Some? ==>
      var sims := Similarities(g.vectors.value, similarity);
      && IsTopK(sims, topK, picked)
      && (g.skus.Some? && |g.skus.value| >= |sims| ==> r.Success?)
      && (r.Success? ==>
            g.skus.Some? && |r.value| == |picked| &&
            forall a :: 0 <= a < |picked| ==>
              picked[a] < |g.skus.value| && r.value[a] == (g.skus.value[picked[a]], sims[picked[a]]))
  {
    if g.vectors.None? {
      return Failure("Vectors not loaded"), [];
    }
    var sims := Similarities(g.vectors.value, similarity);
    picked := SelectTopK(sims, topK);
    r := Pair(g.skus, sims, picked);
  }

  /** The similarity of each cache row with the query, in row order. */
  function Similarities(vs: seq<Vector>, similarity: Vector -> real): (r: seq<real>)
    ensures |r| == |vs|
    ensures forall i :: 0 <= i < |vs| ==> r[i] == similarity(vs[i])
  {
    seq(|vs|, i requires 0 <= i < |vs| => similarity(vs[i]))
  }

  /** `(_item_skus[idx], float(similarities[idx]))` for each picked index;
      `None` skus or a short sku list raise. */
  function Pair(skus: Option<seq<string>>, sims: seq<real>, picked: seq<nat>): (r: Result<seq<(string, real)>, string>)
    requires forall a :: 0 <= a < |picked| ==> picked[a] < |sims|
    ensures skus.Some? && |skus.value| >= |sims| ==> r.Success?
    ensures r.Success? ==>
      && skus.Some? && |r.value| == |picked|
      && (forall a :: 0 <= a < |picked| ==>
            picked[a] < |skus.value| && r.value[a] == (skus.value[picked[a]], sims[picked[a]]))
  {
    if skus.None? then Failure("'NoneType' object is not subscriptable")
    else if exists a :: 0 <= a < |picked| && picked[a] >= |skus.value| then Failure("list index out of range")
    else Success(seq(|picked|, a requires 0 <= a < |picked| => (skus.value[picked[a]], sims[picked[a]])))
  }

  /** Row `q` of the batch similarity matrix. */
  function BatchSims(vs: seq<Vector>, q: Vector, dot: (Vector, Vector) -> real, norm: Vector -> real): (r: seq<real>)
    requires forall v :: norm(v) >= 0.0
    ensures |r| == |vs|
  {
    seq(|vs|, j requires 0 <= j < |vs| => BatchSimilarity(q, vs[j], dot, norm))
  }

  /** `answer` is a top-k result list for query `q`. */
  ghost predicate Answers(g: Globals, q: Vector, topK: nat, dot: (Vector, Vector) -> real, norm: Vector -> real,
                    answer: seq<(string, real)>)
    requires forall v :: norm(v) >= 0.0
    requires g.vectors.Some?
  {
    var sims := BatchSims(g.vectors.value, q, dot, norm);
    exists picked :: IsTopK(sims, topK, picked) && Pair(g.skus, sims, picked) == Success(answer)
  }

  /** `search_vectors_batch`: one top-k list per query, over similarities
      whose zero norms were replaced by a tiny positive number; an empty
      batch gives `[]`. */
  method SearchVectorsBatch(
    g: Globals,
    queries: seq<Vector>,
    topK: nat,
    dot: (Vector, Vector) -> real,
    norm: Vector -> real)
    returns (r: Result<seq<seq<(string, real)>>, string>)
    requires forall v :: norm(v) >= 0.0
    ensures g.vectors.None? ==> r.Failure?
    ensures g.vectors.Some? && queries == [] ==> r == Success([])
    ensures g.vectors.Some? && g.skus.Some? && |g.skus.value| >= |g.vectors.value| ==> r.Success?
    ensures r.Success? ==> g.vectors.Some? && |r.value| == |queries|
    ensures r.Success? ==> forall i :: 0 <= i < |queries| ==> Answers(g, queries[i], topK, dot, norm, r.value[i])
  {
    if g.vectors.None? {
      return Failure("Vectors not loaded");
    }
    if |queries| == 0 {
      return Success([]);
    }
    var vs := g.vectors.value;
    var out: seq<seq<(string, real)>> := [];
    var i := 0;
    while i < |queries|
      invariant 0 <= i <= |queries| && |out| == i
      invariant forall i' :: 0 <= i' < i ==> Answers(g, queries[i'], topK, dot, norm, out[i'])
    {
      var sims := BatchSims(vs, queries[i], dot, norm);
      var picked := SelectTopK(sims, topK);
      var row := Pair(g.skus, sims, picked);
      if row.Failure? {
        return Failure(row.error);
      }
      assert Answers(g, queries[i], topK, dot, norm, row.value);
      out := out + [row.value];
      i := i + 1;
    }
    r := Success(out);
  }

  // ---------------------------------------------------------------------
  // get_items_by_skus and get_quote_history_bulk
  // ---------------------------------------------------------------------

  /** `get_items_by_skus`: no skus means no query and an empty dict;
      otherwise each returned row under its sku. `query` answers the
      `IN (...)` select. The flag says whether the database was asked. */
  function ItemsBySkus(skus: seq<string>, query: seq<string> -> Result<seq<Row>, string>)
    : (r: (Result<map<string, Row>, string>, bool))
    ensures skus == [] ==> r == (Success(map[]), false)
    ensures skus != [] ==> r.1 && (r.0.Success? <==> query(skus).Success?)
    ensures skus != [] && query(skus).Success? ==> r.0.value == RowsBySku(query(skus).value)
  {
    if skus == [] then (Success(map[]), false)
    else match query(skus)
      case Failure(e) => (Failure(e), true)
      case Success(rows) => (Success(RowsBySku(rows)), true)
  }

  /** The `sku` column of a row, `None` when absent or NULL. */
  function SkuOf(row: Row): Option<string> {
    if "sku" in row then row["sku"] else None
  }

  /** `{row["sku"]: row for row in rows}`, rows without a non-NULL sku
      left out. */
  function RowsBySku(rows: seq<Row>): (m: map<string, Row>)
    ensures forall s :: s in m ==> m[s] in rows && SkuOf(m[s]) == Some(s)
  {
    if rows == [] then map[]
    else
      var init := RowsBySku(rows[..|rows| - 1]);
      var last := rows[|rows| - 1];
      assert forall x :: x in rows[..|rows| - 1] ==> x in rows;
      if SkuOf(last).Some? then init[SkuOf(last).value := last] else init
  }

  /** No row after row `i` has the same sku. */
  predicate LastWithSku(rows: seq<Row>, i: nat)
    requires i < |rows|
  {
    forall j :: i < j < |rows| ==> SkuOf(rows[j]) != SkuOf(rows[i])
  }

  /** Every row with a sku is reachable under it, and the dict keeps the
      last row of each sku, since later rows overwrite earlier ones. */
  lemma {:induction false} RowsBySkuSpec(rows: seq<Row>)
    ensures var m := RowsBySku(rows);
      && (forall i :: 0 <= i < |rows| && SkuOf(rows[i]).Some? ==> SkuOf(rows[i]).value in m)
      && (forall i :: 0 <= i < |rows| && SkuOf(rows[i]).Some? && LastWithSku(rows, i) ==>
            m[SkuOf(rows[i]).value] == rows[i])
  {
    if rows != [] {
      var n := |rows| - 1;
      var init := rows[..n];
      RowsBySkuSpec(init);
      var m := RowsBySku(rows);
      forall i | 0 <= i < |rows| && SkuOf(rows[i]).Some?
        ensures SkuOf(rows[i]).value in m
        ensures LastWithSku(rows, i) ==> m[SkuOf(rows[i]).value] == rows[i]
      {
        if i < n {
          assert rows[i] == init[i];
          if LastWithSku(rows, i) {
            assert SkuOf(rows[n]) != SkuOf(rows[i]);
            assert LastWithSku(init, i) by {
              forall j | i < j < |init| ensures SkuOf(init[j]) != SkuOf(init[i]) {
                assert init[j] == rows[j];
              }
            }
          }
        }
      }
    }
  }

  /** One quote row: its `sku` column and the row. */
  type Quote = (string, Row)

  /** The rows for `sku`, in row order. */
  function RowsFor(rows: seq<Quote>, sku: string): seq<Row> {
    if rows == [] then []
    else RowsFor(rows[..|rows| - 1], sku) + (if rows[|rows| - 1].0 == sku then [rows[|rows| - 1].1] else [])
  }

  /** The first `limit` elements (none for a limit <= 0). */
  function Prefix<T>(s: seq<T>, limit: int): (r: seq<T>)
    ensures limit <= 0 ==> r == []
    ensures limit > 0 ==> |r| == Min(limit, |s|) && r == s[..|r|]
  {
    if limit <= 0 then [] else if limit < |s| then s[..limit] else s
  }

  /** One step of the grouping loop: append the row to its sku's list
      while that list is shorter than the limit; an sku that was not
      requested raises `KeyError`. */
  function Place(m: map<string, seq<Row>>, q: Quote, limit: int): Result<map<string, seq<Row>>, string> {
    if q.0 !in m then Failure("KeyError")
    else if |m[q.0]| < limit then Success(m[q.0 := m[q.0] + [q.1]])
    else Success(m)
  }

  /** The grouping loop of `get_quote_history_bulk`, rows in query order. */
  function GroupQuotes(acc: map<string, seq<Row>>, rows: seq<Quote>, limit: int): Result<map<string, seq<Row>>, string>
  {
    if rows == [] then Success(acc)
    else
      var inner := GroupQuotes(acc, rows[..|rows| - 1], limit);
      if inner.Failure? then inner else Place(inner.value, rows[|rows| - 1], limit)
  }

  /** `get_quote_history_bulk`: `{}` without querying for no skus; else a
      list per requested sku, grouped from the query's rows. */
  function QuoteHistoryBulk(skus: seq<string>, rows: Result<seq<Quote>, string>, limit: int)
    : Result<map<string, seq<Row>>, string>
  {
    if skus == [] then Success(map[])
    else match rows
      case Failure(e) => Failure(e)
      case Success(rs) => GroupQuotes(map s | s in skus :: [], rs, limit)
  }

  /** Every list of `m` is the first `limit` rows of its sku. */
  predicate GroupedAs(m: map<string, seq<Row>>, rows: seq<Quote>, limit: int) {
    forall s :: s in m ==> m[s] == Prefix(RowsFor(rows, s), limit)
  }

  /** Placing a requested row keeps every list the limited prefix of its
      sku's rows so far. */
  lemma PlaceSpec(m: map<string, seq<Row>>, prev: seq<Quote>, q: Quote, limit: int)
    requires q.0 in m
    requires GroupedAs(m, prev, limit)
    ensures Place(m, q, limit).Success?
    ensures Place(m, q, limit).value.Keys == m.Keys
    ensures GroupedAs(Place(m, q, limit).value, prev + [q], limit)
  {
    var m' := Place(m, q, limit).value;
    var grow := |m[q.0]| < limit;
    assert m' == if grow then m[q.0 := m[q.0] + [q.1]] else m;
    forall s | s in m'
      ensures m'[s] == Prefix(RowsFor(prev + [q], s), limit)
    {
      PrefixFor(prev, q, limit, s);
      assert m[s] == Prefix(RowsFor(prev, s), limit);
      if s != q.0 || !grow {
        assert m'[s] == m[s];
      }
    }
  }

  /** The limited rows of one sku after one more row. */
  lemma PrefixFor(prev: seq<Quote>, q: Quote, limit: int, s: string)
    ensures var p := Prefix(RowsFor(prev, s), limit);
      Prefix(RowsFor(prev + [q], s), limit) == if q.0 == s && |p| < limit then p + [q.1] else p
  {
    var rows := prev + [q];
    assert rows[..|rows| - 1] == prev;
    assert RowsFor(rows, s) == RowsFor(prev, s) + (if q.0 == s then [q.1] else []);
    if s == q.0 {
      PrefixSnoc(RowsFor(prev, s), q.1, limit);
    } else {
      assert RowsFor(prev, s) + [] == RowsFor(prev, s);
    }
  }

  /** Each requested sku gets the first `limit_per_sku` of its rows, in
      row order; no other key appears. */
  lemma {:induction false} GroupQuotesSpec(acc: map<string, seq<Row>>, rows: seq<Quote>, limit: int)
    requires forall s :: s in acc ==> acc[s] == []
    requires forall i :: 0 <= i < |rows| ==> rows[i].0 in acc
    ensures var r := GroupQuotes(acc, rows, limit);
      && r.Success?
      && r.value.Keys == acc.Keys
      && GroupedAs(r.value, rows, limit)
  {
    if rows != [] {
      var init := rows[..|rows| - 1];
      assert forall i :: 0 <= i < |init| ==> init[i] == rows[i];
      GroupQuotesSpec(acc, init, limit);
      var last := rows[|rows| - 1];
      var inner := GroupQuotes(acc, init, limit).value;
      assert GroupQuotes(acc, rows, limit) == Place(inner, last, limit);
      assert rows == init + [last];
      PlaceSpec(inner, init, last, limit);
    }
  }

  lemma PrefixSnoc<T>(s: seq<T>, x: T, limit: int)
    ensures |Prefix(s, limit)| < limit ==> Prefix(s + [x], limit) == Prefix(s, limit) + [x]
    ensures |Prefix(s, limit)| >= limit ==> Prefix(s + [x], limit) == Prefix(s, limit)
  {
    if limit > 0 && |s| < limit {
      assert Prefix(s, limit) == s;
    }
    if limit > 0 && |s| >= limit {
      assert (s + [x])[..limit] == s[..limit];
    }
  }

  /** The bulk lookup with all rows for requested skus: `{}` for no skus,
      otherwise a list of at most `limit_per_sku` rows for each requested
      sku, the first of its rows in query order. */
  lemma QuoteHistoryBulkSpec(skus: seq<string>, rows: seq<Quote>, limit: int)
    requires forall i :: 0 <= i < |rows| ==> rows[i].0 in skus
    ensures var r := QuoteHistoryBulk(skus, Success(rows), limit);
      && r.Success?
      && (skus == [] ==> r.value == map[])
      && (skus != [] ==>
            r.value.Keys == (set s | s in skus) &&
            forall s :: s in skus ==> s in r.value && r.value[s] == Prefix(RowsFor(rows, s), limit))
  {
    if skus != [] {
      var empty := map s | s in skus :: [];
      assert forall s :: s in skus ==> s in empty;
      GroupQuotesSpec(empty, rows, limit);
    }
  }
}
