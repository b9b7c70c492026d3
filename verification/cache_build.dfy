/**
 * scripts/load_vectors_to_memory.py: building the vectors cache from the
 * rows of the items table, the dict it pickles, reading that dict back,
 * and the rebuild entry point.
 *
 * Unpickling a stored vector is an input: `None` when it fails or yields
 * something without a first dimension. The file system is a value: the
 * dict written, or the dict found (`None` for a missing file).
 */
module CacheBuild {
  import opened Wrappers
  import VectorStore

  type Vector = seq<real>

  /** The embedding width the cache accepts. */
  const Dimension: nat := 1536

  /** One selected row: sku, name and the decoded vector. */
  datatype ItemRow = ItemRow(sku: string, name: string, decoded: Option<Vector>)

  /** A row makes it into the cache iff its vector decodes with width 1536. */
  predicate Usable(row: ItemRow) {
    row.decoded.Some? && |row.decoded.value| == Dimension
  }

  /** The three aligned lists of `load_items_and_vectors`. */
  datatype Loaded = Loaded(vectors: seq<Vector>, skus: seq<string>, names: seq<string>)

  /** `load_items_and_vectors`: unusable rows are skipped without aborting;
      the kept rows give three aligned lists in row order. */
  function LoadItemsAndVectors(rows: seq<ItemRow>): (r: Loaded)
    ensures |r.vectors| == |r.skus| == |r.names| <= |rows|
    ensures forall i :: 0 <= i < |r.vectors| ==> |r.vectors[i]| == Dimension
  {
    if rows == [] then Loaded([], [], [])
    else
      var rest := LoadItemsAndVectors(rows[1..]);
      var row := rows[0];
      if Usable(row) then Loaded([row.decoded.value] + rest.vectors, [row.sku] + rest.skus, [row.name] + rest.names)
      else rest
  }

  /** The usable rows, in order. */
  function UsableRows(rows: seq<ItemRow>): (r: seq<ItemRow>)
    ensures |r| <= |rows|
  {
    if rows == [] then []
    else (if Usable(rows[0]) then [rows[0]] else []) + UsableRows(rows[1..])
  }

  /** Entry `i` of each list comes from the `i`-th usable row: the lists
      stay aligned, in row order, and nothing else is kept. */
  lemma {:induction false} LoadAligned(rows: seq<ItemRow>)
    ensures var r := LoadItemsAndVectors(rows);
      var u := UsableRows(rows);
      && |r.skus| == |u|
      && forall i :: 0 <= i < |u| ==>
           r.skus[i] == u[i].sku && r.names[i] == u[i].name && Some(r.vectors[i]) == u[i].decoded
  {
    if rows != [] {
      LoadAligned(rows[1..]);
      var r := LoadItemsAndVectors(rows);
      var rest := LoadItemsAndVectors(rows[1..]);
      var u' := UsableRows(rows[1..]);
      if Usable(rows[0]) {
        assert UsableRows(rows) == [rows[0]] + u';
        forall i | 1 <= i < |u'| + 1
          ensures r.skus[i] == ([rows[0]] + u')[i].sku && r.names[i] == ([rows[0]] + u')[i].name
          ensures Some(r.vectors[i]) == ([rows[0]] + u')[i].decoded
        {
          assert r.skus[i] == rest.skus[i - 1];
          assert r.names[i] == rest.names[i - 1];
          assert r.vectors[i] == rest.vectors[i - 1];
        }
      } else {
        assert UsableRows(rows) == [] + u';
      }
    }
  }

  /** The usable rows are exactly those that qualify, in their order:
      filtering commutes with concatenation. */
  lemma {:induction false} UsableAppend(a: seq<ItemRow>, b: seq<ItemRow>)
    ensures UsableRows(a + b) == UsableRows(a) + UsableRows(b)
  {
    if a != [] {
      assert (a + b)[1..] == a[1..] + b;
      UsableAppend(a[1..], b);
    } else {
      assert a + b == b;
    }
  }

  /** A row is kept iff it is usable. */
  lemma {:induction false} UsableMembers(rows: seq<ItemRow>)
    ensures forall row :: row in UsableRows(rows) <==> row in rows && Usable(row)
  {
    if rows != [] {
      UsableMembers(rows[1..]);
      assert rows == [rows[0]] + rows[1..];
    }
  }

  /** No rows, or none usable, gives three empty lists. */
  lemma {:induction false} LoadEmpty(rows: seq<ItemRow>)
    requires forall i :: 0 <= i < |rows| ==> !Usable(rows[i])
    ensures LoadItemsAndVectors(rows) == Loaded([], [], [])
  {
    if rows != [] {
      LoadEmpty(rows[1..]);
    }
  }

  // ---------------------------------------------------------------------
  // The cache dict
  // ---------------------------------------------------------------------

  /** The pickled dict; a field is `None` when the dict lacks that key. */
  datatype CacheDict = CacheDict(
    vectors: Option<seq<Vector>>,
    itemSkus: Option<seq<string>>,
    itemNames: Option<seq<string>>,
    numItems: Option<nat>,
    embeddingDim: Option<nat>)

  /** The dict `save_cache` builds: `num_items` is the sku count and
      `embedding_dim` the vector width, 1536 for an empty cache. */
  function CacheData(l: Loaded): (d: CacheDict)
    ensures d.numItems == Some(|l.skus|)
    ensures |l.vectors| > 0 ==> d.embeddingDim == Some(|l.vectors[0]|)
    ensures |l.vectors| == 0 ==> d.embeddingDim == Some(Dimension)
    ensures d.vectors == Some(l.vectors) && d.itemSkus == Some(l.skus) && d.itemNames == Some(l.names)
  {
    CacheDict(Some(l.vectors), Some(l.skus), Some(l.names), Some(|l.skus|),
      Some(if |l.vectors| > 0 then |l.vectors[0]| else Dimension))
  }

  /** `save_cache` as written: the file is written first, then the closing
      log line reads the second dimension of the vector array, which an
      empty array does not have. Returns the dict written and the outcome. */
  function SaveCacheAsWritten(l: Loaded): (r: (CacheDict, Result<(), string>))
    ensures r.0 == CacheData(l)
  {
    var d := CacheData(l);
    if |l.vectors| == 0 then (d, Failure("tuple index out of range"))
    else (d, Success(()))
  }

  /** Saving an empty cache writes the file and then raises. */
  lemma EmptySaveRaises()
    ensures var (d, res) := SaveCacheAsWritten(Loaded([], [], []));
      && d.numItems == Some(0) && d.embeddingDim == Some(Dimension)
      && res.Failure?
  {
  }

  /** `save_cache` with the log line reporting the width it saved: every
      cache, the empty one included, is written without error. */
  function SaveCache(l: Loaded): (r: (CacheDict, Result<(), string>))
    ensures r.0 == CacheData(l) && r.1.Success?
    ensures |l.vectors| > 0 ==> r == SaveCacheAsWritten(l)
  {
    (CacheData(l), Success(()))
  }

  /** Why reading the cache fails. */
  datatype LoadCacheError = FileNotFound | Unpickling(reason: string) | KeyError(key: string) | OldFormat

  /** `load_cache`: a missing file, then the `num_items` read of the log
      line, then the format check, then the three reads in order. */
  function LoadCache(file: Option<Result<CacheDict, string>>): (r: Result<Loaded, LoadCacheError>)
    ensures file.None? ==> r == Failure(FileNotFound)
    ensures r.Success? ==> file.Some? && file.value.Success? && file.value.value.numItems.Some?
    ensures file.Some? && file.value.Success? && file.value.value.numItems.Some? && file.value.value.itemSkus.None? ==>
      r == Failure(OldFormat)
  {
    match file
    case None => Failure(FileNotFound)
    case Some(Failure(e)) => Failure(Unpickling(e))
    case Some(Success(d)) =>
      if d.numItems.None? then Failure(KeyError("num_items"))
      else if d.itemSkus.None? then Failure(OldFormat)
      else if d.vectors.None? then Failure(KeyError("vectors"))
      else if d.itemNames.None? then Failure(KeyError("item_names"))
      else Success(Loaded(d.vectors.value, d.itemSkus.value, d.itemNames.value))
  }

  /** Reading back what `save_cache` wrote gives the same three lists. */
  lemma SaveLoadRoundTrip(l: Loaded)
    ensures LoadCache(Some(Success(SaveCache(l).0))) == Success(l)
  {
  }

  /** Why a rebuild fails. */
  datatype RebuildError = NoVectors

  /** `run_rebuild_cache`: no usable rows raises ValueError before anything
      is written; otherwise the dict saved describes the loaded lists. The
      first component is the dict written, if any. */
  function RunRebuildCache(rows: seq<ItemRow>): (r: (Option<CacheDict>, Result<(), RebuildError>))
    ensures r.1.Failure? ==> r.0.None? && r.1 == Failure(NoVectors)
    ensures r.1.Failure? <==> LoadItemsAndVectors(rows).skus == []
    ensures r.1.Success? ==>
      && r.0 == Some(CacheData(LoadItemsAndVectors(rows)))
      && r.0.value.numItems == Some(|LoadItemsAndVectors(rows).skus|)
      && r.0.value.numItems.value > 0
      && r.0.value.embeddingDim == Some(Dimension)
  {
    var l := LoadItemsAndVectors(rows);
    if |l.skus| == 0 then (None, Failure(NoVectors))
    else
      (Some(SaveCache(l).0), Success(()))
  }

  /** The API's view of the dict: the three keys it reads. */
  function ApiView(d: CacheDict): VectorStore.CacheFile {
    VectorStore.CacheFile(d.vectors, d.itemSkus, d.itemNames)
  }

  /** A rebuilt cache loads into the API's globals as a whole: vectors,
      skus and names from the rebuild, the index built from the skus. */
  lemma RebuildThenServe(rows: seq<ItemRow>, g: VectorStore.Globals)
    requires RunRebuildCache(rows).1.Success?
    ensures var d := RunRebuildCache(rows).0.value;
      var l := LoadItemsAndVectors(rows);
      var (g', res) := VectorStore.LoadVectorsToMemory(g, Some(Success(ApiView(d))));
      && res.Success?
      && VectorStore.Coherent(g')
      && g'.vectors == Some(l.vectors) && g'.skus == Some(l.skus) && g'.names == Some(l.names)
  {
  }
}
