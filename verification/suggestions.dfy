/**
 * The outer layer of api/matcher.py: how `calculate_hybrid_score` obtains
 * its vector results, and how `get_suggestions` turns ranked records into
 * suggestion dicts, looking items up, dropping missing ones, and turning
 * any exception into an empty list.
 *
 * The database, the embedding service and the vector search are inputs:
 * a `Result` for a call that may raise, a function for a call whose
 * argument matters.
 */
module Suggestions {
  import opened Wrappers
  import opened Ranker

  type Vector = seq<real>

  /** A database row as a dict: column name to value, `None` for NULL. */
  type Row = map<string, Option<string>>

  /** The suggestion dict built for one ranked record. */
  datatype Suggestion = Suggestion(
    sku: Sku,
    itemName: Option<string>,
    confidenceScore: real,
    historicalFrequency: int,
    vectorSimilarity: real,
    historicalScore: real,
    vectorScore: real,
    image: Option<string>,
    price: Option<string>)

  /** Steps 2 and 3 of `calculate_hybrid_score`: results passed in are used
      as they are; otherwise the query vector (passed in, or else embedded,
      a failed embedding meaning none) is searched for `2 * top_k`
      neighbours, and a failed or impossible search means no results. */
  function ResolveHits(
    provided: Option<seq<Hit>>,
    queryVector: Option<Vector>,
    embedding: Result<Vector, string>,
    search: (Vector, nat) -> Result<seq<Hit>, string>,
    topK: nat): (r: seq<Hit>)
    ensures provided.Some? ==> r == provided.value
    ensures provided.None? && queryVector.Some? ==>
      var found := search(queryVector.value, 2 * topK);
      (found.Success? ==> r == found.value) && (found.Failure? ==> r == [])
    ensures provided.None? && queryVector.None? && embedding.Success? ==>
      var found := search(embedding.value, 2 * topK);
      (found.Success? ==> r == found.value) && (found.Failure? ==> r == [])
    ensures provided.None? && queryVector.None? && embedding.Failure? ==> r == []
  {
    match provided
    case Some(hits) => hits
    case None =>
      var q := if queryVector.Some? then queryVector
        else if embedding.Success? then Some(embedding.value)
        else None;
      match q
      case None => []
      case Some(v) =>
        match search(v, 2 * topK)
        case Success(hits) => hits
        case Failure(_) => []
  }

  /** `calculate_hybrid_score`: a failure to read the history propagates;
      every other failure only empties the vector signal. */
  function HybridScore(
    history: Result<seq<(Sku, int)>, string>,
    provided: Option<seq<Hit>>,
    queryVector: Option<Vector>,
    embedding: Result<Vector, string>,
    search: (Vector, nat) -> Result<seq<Hit>, string>,
    topK: nat): (r: Result<seq<Candidate>, string>)
    ensures r.Success? <==> history.Success?
    ensures r.Success? ==> |r.value| <= topK
  {
    match history
    case Failure(e) => Failure(e)
    case Success(h) =>
      var ranked := RankCandidates(h, ResolveHits(provided, queryVector, embedding, search, topK), topK);
      assert |ranked| <= topK;
      Success(ranked)
  }

  /** `not item`: a missing item or an empty dict. */
  predicate Truthy(item: Option<Row>) {
    item.Some? && item.value != map[]
  }

  /** `item.get(key, default) if item else None` */
  function Field(item: Option<Row>, key: string, default: Option<string>): Option<string> {
    if !Truthy(item) then None
    else if key in item.value then item.value[key]
    else default
  }

  /** The item consulted for a sku: the cache when one is given, nothing
      when lookups are skipped, the database otherwise. */
  function ItemFor(
    sku: Sku,
    skipLookup: bool,
    cache: Option<map<Sku, Row>>,
    lookup: Sku -> Result<Option<Row>, string>): Result<Option<Row>, string>
  {
    if cache.Some? then Success(if sku in cache.value then Some(cache.value[sku]) else None)
    else if skipLookup then Success(None)
    else lookup(sku)
  }

  /** The dict appended for one ranked record. */
  function MakeSuggestion(c: Candidate, item: Option<Row>): (s: Suggestion)
    ensures s.sku == c.sku && s.confidenceScore == c.finalScore
    ensures s.historicalScore == c.historicalScore && s.vectorScore == c.vectorScore
    ensures s.historicalFrequency == c.historicalFrequency
    ensures s.vectorSimilarity == c.vectorSimilarity
    ensures !Truthy(item) ==> s.itemName.None? && s.image.None? && s.price.None?
  {
    Suggestion(c.sku, Field(item, "name", Some("Unknown")), c.finalScore,
      c.historicalFrequency, c.vectorSimilarity, c.historicalScore, c.vectorScore,
      Field(item, "image", None), Field(item, "amt", None))
  }

  /** The loop of `get_suggestions`: the first failing lookup aborts it; a
      record whose item the database does not have is skipped, but only
      when the database was actually consulted. */
  function Format(
    ranked: seq<Candidate>,
    skipLookup: bool,
    cache: Option<map<Sku, Row>>,
    lookup: Sku -> Result<Option<Row>, string>): (r: Result<seq<Suggestion>, string>)
    ensures r.Success? ==> |r.value| <= |ranked|
  {
    if ranked == [] then Success([])
    else
      match ItemFor(ranked[0].sku, skipLookup, cache, lookup)
      case Failure(e) => Failure(e)
      case Success(item) =>
        match Format(ranked[1..], skipLookup, cache, lookup)
        case Failure(e) => Failure(e)
        case Success(rest) =>
          if !skipLookup && cache.None? && !Truthy(item) then Success(rest)
          else Success([MakeSuggestion(ranked[0], item)] + rest)
  }

  /** `get_suggestions`: any exception yields the empty list. */
  function GetSuggestions(
    history: Result<seq<(Sku, int)>, string>,
    provided: Option<seq<Hit>>,
    queryVector: Option<Vector>,
    embedding: Result<Vector, string>,
    search: (Vector, nat) -> Result<seq<Hit>, string>,
    topK: nat,
    skipLookup: bool,
    cache: Option<map<Sku, Row>>,
    lookup: Sku -> Result<Option<Row>, string>): (r: seq<Suggestion>)
    ensures |r| <= topK
    ensures history.Failure? ==> r == []
  {
    match HybridScore(history, provided, queryVector, embedding, search, topK)
    case Failure(_) => []
    case Success(ranked) =>
      match Format(ranked, skipLookup, cache, lookup)
      case Failure(_) => []
      case Success(s) => s
  }

  // ---------------------------------------------------------------------
  // Properties of the formatting loop
  // ---------------------------------------------------------------------

  /** With a cache or with lookups skipped, nothing is dropped: one
      suggestion per ranked record, in order, carrying its final score as
      the confidence. */
  lemma {:induction false} FormatKeepsAll(
    ranked: seq<Candidate>,
    skipLookup: bool,
    cache: Option<map<Sku, Row>>,
    lookup: Sku -> Result<Option<Row>, string>)
    requires skipLookup || cache.Some?
    ensures var r := Format(ranked, skipLookup, cache, lookup);
      && r.Success?
      && |r.value| == |ranked|
      && (forall i :: 0 <= i < |ranked| ==>
            r.value[i].sku == ranked[i].sku && r.value[i].confidenceScore == ranked[i].finalScore)
      && (cache.None? ==> forall i :: 0 <= i < |ranked| ==> r.value[i].itemName.None?)
  {
    if ranked != [] {
      FormatKeepsAll(ranked[1..], skipLookup, cache, lookup);
    }
  }

  /** The ranked records whose item the database returns. */
  function Found(ranked: seq<Candidate>, lookup: Sku -> Result<Option<Row>, string>): (r: seq<Candidate>)
    ensures forall i :: 0 <= i < |r| ==> lookup(r[i].sku).Success? && Truthy(lookup(r[i].sku).value)
  {
    if ranked == [] then []
    else
      var rest := Found(ranked[1..], lookup);
      var item := lookup(ranked[0].sku);
      if item.Success? && Truthy(item.value) then [ranked[0]] + rest else rest
  }

  /** Looking items up in the database, with every lookup answering, the
      suggestions are exactly the ranked records whose item exists, in
      ranked order, each carrying that item's name. */
  lemma {:induction false} FormatDropsMissing(
    ranked: seq<Candidate>,
    lookup: Sku -> Result<Option<Row>, string>)
    requires forall i :: 0 <= i < |ranked| ==> lookup(ranked[i].sku).Success?
    ensures var r := Format(ranked, false, None, lookup);
      var kept := Found(ranked, lookup);
      && r.Success?
      && |r.value| == |kept|
      && (forall i :: 0 <= i < |kept| ==>
            r.value[i] == MakeSuggestion(kept[i], lookup(kept[i].sku).value))
  {
    if ranked != [] {
      FormatDropsMissing(ranked[1..], lookup);
    }
  }

  /** A lookup that raises on a ranked record empties the whole answer. */
  lemma {:induction false} FormatFailure(
    ranked: seq<Candidate>,
    lookup: Sku -> Result<Option<Row>, string>,
    k: nat)
    requires k < |ranked| && lookup(ranked[k].sku).Failure?
    ensures Format(ranked, false, None, lookup).Failure?
  {
    if k > 0 {
      FormatFailure(ranked[1..], lookup, k - 1);
    }
  }

  /** `get_suggestions` with `skip_item_lookup`: one suggestion per ranked
      record of `calculate_hybrid_score`, in order, confidence equal to its
      final score, no item details. */
  lemma GetSuggestionsSkipLookup(
    history: seq<(Sku, int)>,
    provided: Option<seq<Hit>>,
    queryVector: Option<Vector>,
    embedding: Result<Vector, string>,
    search: (Vector, nat) -> Result<seq<Hit>, string>,
    topK: nat,
    lookup: Sku -> Result<Option<Row>, string>)
    ensures var ranked := HybridScore(Success(history), provided, queryVector, embedding, search, topK).value;
      var r := GetSuggestions(Success(history), provided, queryVector, embedding, search, topK, true, None, lookup);
      && |r| == |ranked|
      && (forall i :: 0 <= i < |r| ==>
            r[i].sku == ranked[i].sku && r[i].confidenceScore == ranked[i].finalScore && r[i].itemName.None?)
  {
    var ranked := HybridScore(Success(history), provided, queryVector, embedding, search, topK).value;
    FormatKeepsAll(ranked, true, None, lookup);
  }

  /** `get_suggestions` looking items up: if any lookup raises the answer is
      empty; otherwise it is the ranked records whose item exists. */
  lemma GetSuggestionsLookup(
    history: seq<(Sku, int)>,
    provided: Option<seq<Hit>>,
    queryVector: Option<Vector>,
    embedding: Result<Vector, string>,
    search: (Vector, nat) -> Result<seq<Hit>, string>,
    topK: nat,
    lookup: Sku -> Result<Option<Row>, string>)
    ensures var ranked := HybridScore(Success(history), provided, queryVector, embedding, search, topK).value;
      var r := GetSuggestions(Success(history), provided, queryVector, embedding, search, topK, false, None, lookup);
      var kept := Found(ranked, lookup);
      && ((exists k :: 0 <= k < |ranked| && lookup(ranked[k].sku).Failure?) ==> r == [])
      && ((forall k :: 0 <= k < |ranked| ==> lookup(ranked[k].sku).Success?) ==>
            |r| == |kept| &&
            forall i :: 0 <= i < |kept| ==> r[i] == MakeSuggestion(kept[i], lookup(kept[i].sku).value))
  {
    var ranked := HybridScore(Success(history), provided, queryVector, embedding, search, topK).value;
    var r := GetSuggestions(Success(history), provided, queryVector, embedding, search, topK, false, None, lookup);
    var f := Format(ranked, false, None, lookup);
    assert r == if f.Success? then f.value else [];
    if k :| 0 <= k < |ranked| && lookup(ranked[k].sku).Failure? {
      FormatFailure(ranked, lookup, k);
    } else {
      FormatDropsMissing(ranked, lookup);
    }
  }

  /** The confidence of every suggestion is a final score of the ranker, so
      with counts >= 0 and similarities in [0, 1] it lies in [0, 1], the
      range the `Suggestion` response model accepts. */
  lemma {:induction false} FormatConfidence(
    ranked: seq<Candidate>,
    skipLookup: bool,
    cache: Option<map<Sku, Row>>,
    lookup: Sku -> Result<Option<Row>, string>,
    lo: real, hi: real)
    requires forall i :: 0 <= i < |ranked| ==> lo <= ranked[i].finalScore <= hi
    ensures var r := Format(ranked, skipLookup, cache, lookup);
      r.Success? ==> forall i :: 0 <= i < |r.value| ==> lo <= r.value[i].confidenceScore <= hi
  {
    var r := Format(ranked, skipLookup, cache, lookup);
    if ranked != [] && r.Success? {
      FormatConfidence(ranked[1..], skipLookup, cache, lookup, lo, hi);
      var item := ItemFor(ranked[0].sku, skipLookup, cache, lookup).value;
      var rest := Format(ranked[1..], skipLookup, cache, lookup).value;
      if r.value != rest {
        var head := MakeSuggestion(ranked[0], item);
        assert r.value == [head] + rest;
        forall i | 0 <= i < |r.value|
          ensures lo <= r.value[i].confidenceScore <= hi
        {
          if i > 0 {
            assert r.value[i] == rest[i - 1];
          }
        }
      }
    }
  }

  lemma GetSuggestionsConfidence(
    history: seq<(Sku, int)>,
    provided: Option<seq<Hit>>,
    queryVector: Option<Vector>,
    embedding: Result<Vector, string>,
    search: (Vector, nat) -> Result<seq<Hit>, string>,
    topK: nat,
    skipLookup: bool,
    cache: Option<map<Sku, Row>>,
    lookup: Sku -> Result<Option<Row>, string>)
    requires Distinct(SkusOf(history))
    requires forall i :: 0 <= i < |history| ==> history[i].1 >= 0
    requires var hits := ResolveHits(provided, queryVector, embedding, search, topK);
      forall i :: 0 <= i < |hits| ==> 0.0 <= hits[i].1 <= 1.0
    ensures var r := GetSuggestions(Success(history), provided, queryVector, embedding, search, topK, skipLookup, cache, lookup);
      forall i :: 0 <= i < |r| ==> 0.0 <= r[i].confidenceScore <= 1.0
  {
    var hits := ResolveHits(provided, queryVector, embedding, search, topK);
    var ranked := RankCandidates(history, hits, topK);
    assert HybridScore(Success(history), provided, queryVector, embedding, search, topK) == Success(ranked);
    RankedInUnitRange(history, hits, topK);
    FormatConfidence(ranked, skipLookup, cache, lookup, 0.0, 1.0);
  }

  /** Ranking keeps every final score in [0, 1]. */
  lemma RankedInUnitRange(history: seq<(Sku, int)>, hits: seq<Hit>, topK: nat)
    requires Distinct(SkusOf(history))
    requires forall i :: 0 <= i < |history| ==> history[i].1 >= 0
    requires forall i :: 0 <= i < |hits| ==> 0.0 <= hits[i].1 <= 1.0
    ensures var ranked := RankCandidates(history, hits, topK);
      forall i :: 0 <= i < |ranked| ==> 0.0 <= ranked[i].finalScore <= 1.0
  {
    var c := Combine(history, hits);
    var ranked := RankCandidates(history, hits, topK);
    ScoreBounds(history, hits);
    RankSpec(history, hits, topK);
    forall i | 0 <= i < |ranked|
      ensures 0.0 <= ranked[i].finalScore <= 1.0
    {
      var j :| 0 <= j < |c| && c[j] == ranked[i];
    }
  }
}
