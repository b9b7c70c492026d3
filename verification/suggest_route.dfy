/**
 * The batched path of `get_suggestions_for_items` in api/routes.py:
 * collect one requirement per line item, embed them all at once, search
 * the valid embeddings as one batch, scatter the result lists back to the
 * items, rank each item, then fetch items and quote history for all
 * suggested skus in one query each and assemble the response.
 *
 * The embedding call, the batch search, the history lookup, the two bulk
 * queries and Python's `hash` are parameters.
 */
module SuggestRoute {
  import opened Wrappers
  import opened Text
  import opened Batching
  import Ranker
  import Suggestions
  import Models

  type Vector = seq<real>
  type Hit = (string, real)
  type Row = map<string, Option<string>>

  /** `top_k` of the batch vector search. */
  const BatchTopK: nat := 6

  /** `top_k` of each item's ranking. */
  const ItemTopK: nat := 3

  /** The quote rows kept per sku. */
  const QuotesPerSku: int := 3

  // ---------------------------------------------------------------------
  // Collecting requirements
  // ---------------------------------------------------------------------

  /** `line_item.description or line_item.text` */
  function Requirement(item: Models.LineItem): string {
    if item.description != "" then item.description else item.text
  }

  /** A kept item with its stripped requirement. */
  function Kept(item: Models.LineItem): (Models.LineItem, string) {
    (item, Strip(Requirement(item)))
  }

  /** The collect loop: items whose requirement is blank are skipped, the
      others keep their stripped requirement. */
  function Collect(items: seq<Models.LineItem>): (r: seq<(Models.LineItem, string)>)
    ensures |r| <= |items|
  {
    if items == [] then []
    else
      var rest := Collect(items[1..]);
      var req := Requirement(items[0]);
      if AllSpace(req) then rest else [Kept(items[0])] + rest
  }

  /** A collected pair: an input item with a non-blank requirement, paired
      with that requirement stripped. */
  predicate FromInput(items: seq<Models.LineItem>, p: (Models.LineItem, string)) {
    p.0 in items && !AllSpace(Requirement(p.0)) && p == Kept(p.0)
  }

  /** Every collected pair comes from the input with its stripped, non-blank
      requirement. */
  lemma {:induction false} CollectSound(items: seq<Models.LineItem>)
    ensures forall k :: 0 <= k < |Collect(items)| ==> FromInput(items, Collect(items)[k])
  {
    if items != [] {
      CollectSound(items[1..]);
      var r := Collect(items);
      var rest := Collect(items[1..]);
      forall k | 0 <= k < |r|
        ensures FromInput(items, r[k])
      {
        if AllSpace(Requirement(items[0])) {
          assert r[k] == rest[k];
          assert FromInput(items[1..], rest[k]);
        } else if k > 0 {
          assert r[k] == rest[k - 1];
          assert FromInput(items[1..], rest[k - 1]);
        }
      }
    }
  }

  /** Every item with a non-blank requirement is kept. */
  lemma {:induction false} CollectComplete(items: seq<Models.LineItem>)
    ensures forall i :: 0 <= i < |items| && !AllSpace(Requirement(items[i])) ==>
      Kept(items[i]) in Collect(items)
  {
    if items != [] {
      var tail := items[1..];
      CollectComplete(tail);
      var rest := Collect(tail);
      forall i | 0 <= i < |items| && !AllSpace(Requirement(items[i]))
        ensures Kept(items[i]) in Collect(items)
      {
        if i == 0 {
          assert Collect(items) == [Kept(items[0])] + rest;
        } else {
          assert items[i] == tail[i - 1];
          assert Kept(items[i]) in rest;
          assert Collect(items) == rest || Collect(items) == [Kept(items[0])] + rest;
        }
      }
    }
  }

  /** Collecting commutes with concatenation, so the kept items stay in
      their input order. */
  lemma {:induction false} CollectAppend(a: seq<Models.LineItem>, b: seq<Models.LineItem>)
    ensures Collect(a + b) == Collect(a) + Collect(b)
  {
    if a != [] {
      assert (a + b)[1..] == a[1..] + b;
      CollectAppend(a[1..], b);
    } else {
      assert a + b == b;
    }
  }

  // ---------------------------------------------------------------------
  // Compacting and scattering
  // ---------------------------------------------------------------------

  /** `[e for e in all_embeddings if e is not None]` */
  function Valid(embs: seq<Option<Vector>>): (r: seq<Vector>)
    ensures |r| <= |embs|
  {
    if embs == [] then []
    else (if embs[0].Some? then [embs[0].value] else []) + Valid(embs[1..])
  }

  /** How many of `embs` are present: the position of an embedding within
      the valid ones is the count before it. */
  function CountSome(embs: seq<Option<Vector>>): nat {
    if embs == [] then 0 else (if embs[0].Some? then 1 else 0) + CountSome(embs[1..])
  }

  lemma {:induction false} ValidLength(embs: seq<Option<Vector>>)
    ensures |Valid(embs)| == CountSome(embs)
  {
    if embs != [] {
      ValidLength(embs[1..]);
    }
  }

  lemma {:induction false} CountSomeSnoc(embs: seq<Option<Vector>>, e: Option<Vector>)
    ensures CountSome(embs + [e]) == CountSome(embs) + (if e.Some? then 1 else 0)
  {
    if embs != [] {
      assert (embs + [e])[1..] == embs[1..] + [e];
      CountSomeSnoc(embs[1..], e);
    } else {
      assert [e][1..] == [];
    }
  }

  /** The `k`-th present embedding is the `k`-th query of the batch. */
  lemma {:induction false} ValidAt(embs: seq<Option<Vector>>, i: nat)
    requires i < |embs| && embs[i].Some?
    ensures CountSome(embs[..i]) < |Valid(embs)|
    ensures Valid(embs)[CountSome(embs[..i])] == embs[i].value
  {
    ValidLength(embs);
    if i == 0 {
      assert embs[..0] == [];
    } else {
      ValidAt(embs[1..], i - 1);
      assert embs[1..][..i - 1] == embs[..i][1..];
      assert embs[..i][0] == embs[0];
    }
  }

  /** The scatter loop: a missing embedding gets `[]`, the `k`-th present one
      gets `results[k]`; running out of results raises `IndexError`. */
  method Scatter(embs: seq<Option<Vector>>, results: seq<seq<Hit>>) returns (r: Result<seq<seq<Hit>>, string>)
    ensures r.Success? <==> CountSome(embs) <= |results|
    ensures r.Success? ==> |r.value| == |embs|
    ensures r.Success? ==> forall i :: 0 <= i < |embs| && embs[i].None? ==> r.value[i] == []
    ensures r.Success? ==> forall i :: 0 <= i < |embs| && embs[i].Some? ==>
      CountSome(embs[..i]) < |results| && r.value[i] == results[CountSome(embs[..i])]
  {
    var vidx := 0;
    var out: seq<seq<Hit>> := [];
    var i := 0;
    while i < |embs|
      invariant 0 <= i <= |embs| && |out| == i
      invariant vidx == CountSome(embs[..i]) <= |results|
      invariant forall j :: 0 <= j < i && embs[j].None? ==> out[j] == []
      invariant forall j :: 0 <= j < i && embs[j].Some? ==>
        CountSome(embs[..j]) < |results| && out[j] == results[CountSome(embs[..j])]
    {
      assert embs[..i + 1] == embs[..i] + [embs[i]];
      CountSomeSnoc(embs[..i], embs[i]);
      if embs[i].Some? {
        if vidx >= |results| {
          CountRest(embs, i + 1);
          return Failure("list index out of range");
        }
        out := out + [results[vidx]];
        vidx := vidx + 1;
      } else {
        out := out + [[]];
      }
      i := i + 1;
    }
    assert embs[..i] == embs;
    r := Success(out);
  }

  /** Counting is monotone in the prefix taken. */
  lemma {:induction false} CountRest(embs: seq<Option<Vector>>, i: nat)
    requires i <= |embs|
    ensures CountSome(embs[..i]) <= CountSome(embs)
    decreases |embs| - i
  {
    if i < |embs| {
      assert embs[..i + 1] == embs[..i] + [embs[i]];
      CountSomeSnoc(embs[..i], embs[i]);
      CountRest(embs, i + 1);
    } else {
      assert embs[..i] == embs;
    }
  }

  /** `results` are the vector results per item for `embs`: `[]` for a
      missing embedding, and for the `k`-th present one the `k`-th list the
      batch search returned. */
  predicate ScatteredFrom(
    results: seq<seq<Hit>>,
    embs: seq<Option<Vector>>,
    searchBatch: (seq<Vector>, nat) -> Result<seq<seq<Hit>>, string>)
  {
    && |results| == |embs|
    && (forall i :: 0 <= i < |embs| && embs[i].None? ==> results[i] == [])
    && (Valid(embs) != [] ==> forall i :: 0 <= i < |embs| && embs[i].Some? ==>
          searchBatch(Valid(embs), BatchTopK).Success? &&
          CountSome(embs[..i]) < |searchBatch(Valid(embs), BatchTopK).value| &&
          results[i] == searchBatch(Valid(embs), BatchTopK).value[CountSome(embs[..i])])
  }

  /** The vector results per item: without a present embedding the batch
      search is not called and every item gets `[]`; a failing search
      raises. The flag says whether the search was called. */
  method VectorResults(
    embs: seq<Option<Vector>>,
    searchBatch: (seq<Vector>, nat) -> Result<seq<seq<Hit>>, string>)
    returns (r: Result<seq<seq<Hit>>, string>, searched: bool)
    ensures searched <==> Valid(embs) != []
    ensures !searched ==> r == Success(seq(|embs|, _ => []))
    ensures searched && searchBatch(Valid(embs), BatchTopK).Failure? ==> r.Failure?
    ensures searched && searchBatch(Valid(embs), BatchTopK).Success? && |searchBatch(Valid(embs), BatchTopK).value| == |Valid(embs)| ==>
      r.Success?
    ensures r.Success? ==> ScatteredFrom(r.value, embs, searchBatch)
  {
    var valid := Valid(embs);
    ValidLength(embs);
    if valid == [] {
      searched := false;
      var results: seq<seq<Hit>> := [];
      r := Scatter(embs, results);
      assert r.Success?;
      NoneWhenNoneValid(embs);
      assert forall i :: 0 <= i < |embs| ==> r.value[i] == [];
      assert r.value == seq(|embs|, _ => []);
    } else {
      searched := true;
      var batch := searchBatch(valid, BatchTopK);
      if batch.Failure? {
        r := Failure(batch.error);
      } else {
        r := Scatter(embs, batch.value);
      }
    }
  }

  lemma {:induction false} NoneWhenNoneValid(embs: seq<Option<Vector>>)
    requires Valid(embs) == []
    ensures forall i :: 0 <= i < |embs| ==> embs[i].None?
  {
    if embs != [] {
      NoneWhenNoneValid(embs[1..]);
      assert forall i :: 1 <= i < |embs| ==> embs[i] == embs[1..][i - 1];
    }
  }

  // ---------------------------------------------------------------------
  // Per-item ranking, bulk lookups and the response
  // ---------------------------------------------------------------------

  /** `get_suggestions(requirement, top_k=3, vector_results=..., skip_item_lookup=True)`:
      the precomputed vector results are used, so no embedding or search
      happens and items are not looked up. */
  function RankItem(
    history: string -> Result<seq<(string, int)>, string>,
    requirement: string,
    hits: seq<Hit>): (r: seq<Suggestions.Suggestion>)
    ensures |r| <= ItemTopK
  {
    Suggestions.GetSuggestions(history(requirement), Some(hits), None, Failure("unused"),
      (v: Vector, k: nat) => Success([]), ItemTopK, true, None, (s: string) => Success(None))
  }

  /** `all_skus`: the suggested skus of every item, item by item. */
  function AllSkus(lists: seq<seq<Suggestions.Suggestion>>): (r: seq<string>) {
    if lists == [] then []
    else SkusIn(lists[0]) + AllSkus(lists[1..])
  }

  function SkusIn(list: seq<Suggestions.Suggestion>): (r: seq<string>)
    ensures |r| == |list| && forall i :: 0 <= i < |list| ==> r[i] == list[i].sku
  {
    if list == [] then [] else [list[0].sku] + SkusIn(list[1..])
  }

  /** Every suggested sku is in `all_skus`, and nothing else. */
  lemma {:induction false} AllSkusSpec(lists: seq<seq<Suggestions.Suggestion>>)
    ensures forall s :: s in AllSkus(lists) <==> exists k, i :: 0 <= k < |lists| && 0 <= i < |lists[k]| && lists[k][i].sku == s
  {
    if lists != [] {
      AllSkusSpec(lists[1..]);
      var r := AllSkus(lists);
      forall s | s in r
        ensures exists k, i :: 0 <= k < |lists| && 0 <= i < |lists[k]| && lists[k][i].sku == s
      {
        if s in SkusIn(lists[0]) {
          var i :| 0 <= i < |lists[0]| && SkusIn(lists[0])[i] == s;
          assert lists[0][i].sku == s;
        } else {
          assert s in AllSkus(lists[1..]);
          var k, i :| 0 <= k < |lists[1..]| && 0 <= i < |lists[1..][k]| && lists[1..][k][i].sku == s;
          assert lists[k + 1][i].sku == s;
        }
      }
      forall s | exists k, i :: 0 <= k < |lists| && 0 <= i < |lists[k]| && lists[k][i].sku == s
        ensures s in r
      {
        var k, i :| 0 <= k < |lists| && 0 <= i < |lists[k]| && lists[k][i].sku == s;
        if k == 0 {
          assert SkusIn(lists[0])[i] == s;
        } else {
          assert 0 <= k - 1 < |lists[1..]| && 0 <= i < |lists[1..][k - 1]| && lists[1..][k - 1][i].sku == s;
          assert s in AllSkus(lists[1..]);
        }
      }
    }
  }

  /** The two bulk caches: both empty, without any query, when no sku was
      suggested; otherwise each from its query, either of which may raise.
      The flag says whether the database was asked. */
  function Caches(
    allSkus: seq<string>,
    itemsQuery: seq<string> -> Result<map<string, Row>, string>,
    quotesQuery: (seq<string>, int) -> Result<map<string, seq<Row>>, string>)
    : (r: (Result<(map<string, Row>, map<string, seq<Row>>), string>, bool))
    ensures allSkus == [] <==> !r.1
    ensures allSkus == [] ==> r.0 == Success((map[], map[]))
    ensures allSkus != [] ==>
      (r.0.Success? <==> itemsQuery(allSkus).Success? && quotesQuery(allSkus, QuotesPerSku).Success?)
    ensures allSkus != [] && r.0.Success? ==>
      r.0.value == (itemsQuery(allSkus).value, quotesQuery(allSkus, QuotesPerSku).value)
  {
    if allSkus == [] then (Success((map[], map[])), false)
    else
      match itemsQuery(allSkus)
      case Failure(e) => (Failure(e), true)
      case Success(items) =>
        match quotesQuery(allSkus, QuotesPerSku)
        case Failure(e) => (Failure(e), true)
        case Success(quotes) => (Success((items, quotes)), true)
  }

  /** `str(x)` of a nullable column value. */
  function Str(v: Option<string>): string {
    if v.Some? then v.value else "None"
  }

  /** `d.get(k, default)` */
  function Get(d: Row, k: string, default: Option<string>): Option<string> {
    if k in d then d[k] else default
  }

  /** One quote row as a `QuoteHistoryItem`, each field falling back to its
      alternative column name. */
  function QuoteItem(q: Row): (r: Models.QuoteHistoryItem)
    ensures "date" in q ==> r.date == Str(q["date"])
    ensures "date" !in q && "created_at" !in q ==> r.date == ""
    ensures "customer" in q ==> r.customer == q["customer"]
    ensures "price" !in q ==> r.price == Get(q, "unit_price", None)
  {
    Models.QuoteHistoryItem(
      Str(Get(q, "date", Get(q, "created_at", Some("")))),
      Get(q, "customer", Get(q, "customer_name", None)),
      Get(q, "quantity", None),
      Get(q, "price", Get(q, "unit_price", None)),
      Get(q, "id", None))
  }

  function QuoteItems(rows: seq<Row>): (r: seq<Models.QuoteHistoryItem>)
    ensures |r| == |rows| && forall i :: 0 <= i < |rows| ==> r[i] == QuoteItem(rows[i])
  {
    if rows == [] then [] else [QuoteItem(rows[0])] + QuoteItems(rows[1..])
  }

  /** `sugg.get("item_name") or "Unknown"` */
  function NameOr(name: Option<string>): string {
    if name.Some? && name.value != "" then name.value else "Unknown"
  }

  /** The item cache's row for the suggestion has a `name` column holding
      NULL, so `item.get("name", ...)` yields `None` for the `str` field. */
  predicate NullName(s: Suggestions.Suggestion, items: map<string, Row>) {
    s.sku in items && "name" in items[s.sku] && items[s.sku]["name"].None?
  }

  /** A suggestion the response record can be built from. */
  predicate Enrichable(s: Suggestions.Suggestion, items: map<string, Row>) {
    Models.InUnitRange(s.confidenceScore) && !NullName(s, items)
  }

  /** The response record for one suggestion: the item's name (falling
      back to the suggestion's, then "Unknown"), image and price from the
      item cache, the sku's quotes from the quote cache. Validation of the
      record rejects a NULL name and a confidence outside [0, 1]. */
  function Enrich(s: Suggestions.Suggestion, items: map<string, Row>, quotes: map<string, seq<Row>>)
    : (r: Result<Models.Suggestion, string>)
    ensures r.Success? <==> Enrichable(s, items)
    ensures r.Success? ==> r.value.sku == s.sku && r.value.confidenceScore == s.confidenceScore
    ensures r.Success? ==> r.value.last3Quotes == QuoteItems(if s.sku in quotes then quotes[s.sku] else [])
    ensures r.Success? && s.sku in items && "name" in items[s.sku] ==> Some(r.value.itemName) == items[s.sku]["name"]
    ensures r.Success? && (s.sku !in items || "name" !in items[s.sku]) ==> r.value.itemName == NameOr(s.itemName)
    ensures r.Success? && s.sku !in items ==> r.value.image.None? && r.value.price.None?
    ensures r.Success? && s.sku in items && "image" in items[s.sku] ==> r.value.image == items[s.sku]["image"]
  {
    var item: Row := if s.sku in items then items[s.sku] else map[];
    var quoteRows := if s.sku in quotes then quotes[s.sku] else [];
    match Get(item, "name", Some(NameOr(s.itemName)))
    case None => Failure("item_name: none is not an allowed value")
    case Some(name) =>
      Models.NewSuggestion(s.sku, name, s.confidenceScore,
        Some(s.historicalFrequency), Some(s.vectorSimilarity),
        Get(item, "image", None), Get(item, "amt", None), Some(QuoteItems(quoteRows)))
  }

  /** Apply a raising conversion to every element in order; the first
      failure ends the loop. */
  function MapAll<A, B>(f: A -> Result<B, string>, list: seq<A>): (r: Result<seq<B>, string>)
    ensures r.Success? ==> |r.value| == |list|
  {
    if list == [] then Success([])
    else
      match f(list[0])
      case Failure(e) => Failure(e)
      case Success(first) =>
        match MapAll(f, list[1..])
        case Failure(e) => Failure(e)
        case Success(rest) => Success([first] + rest)
  }

  /** The loop succeeds iff every element converts, and then element `i`
      of the result is the conversion of element `i`. */
  lemma {:induction false} MapAllSpec<A, B>(f: A -> Result<B, string>, list: seq<A>)
    ensures var r := MapAll(f, list);
      && (r.Success? <==> forall i :: 0 <= i < |list| ==> f(list[i]).Success?)
      && (r.Success? ==> forall i :: 0 <= i < |list| ==> f(list[i]) == Success(r.value[i]))
  {
    if list != [] {
      var tail := list[1..];
      MapAllSpec(f, tail);
      assert forall i :: 1 <= i < |list| ==> list[i] == tail[i - 1];
      var r := MapAll(f, list);
      var rt := MapAll(f, tail);
      if f(list[0]).Success? && rt.Success? {
        assert r == Success([f(list[0]).value] + rt.value);
        assert forall i :: 1 <= i < |list| ==> r.value[i] == rt.value[i - 1];
      }
    }
  }

  /** The records for one item's suggestions, in order; the first one whose
      validation raises ends the request. */
  function EnrichAll(list: seq<Suggestions.Suggestion>, items: map<string, Row>, quotes: map<string, seq<Row>>)
    : (r: Result<seq<Models.Suggestion>, string>)
    ensures r.Success? ==> |r.value| == |list|
  {
    MapAll(s => Enrich(s, items, quotes), list)
  }

  /** Every suggestion of the list can be enriched. */
  predicate AllEnrichable(list: seq<Suggestions.Suggestion>, items: map<string, Row>) {
    forall i :: 0 <= i < |list| ==> Enrichable(list[i], items)
  }

  /** The records are built iff every suggestion passes validation, and
      then record `i` is the one `Enrich` builds for suggestion `i`. */
  lemma EnrichAllSpec(list: seq<Suggestions.Suggestion>, items: map<string, Row>, quotes: map<string, seq<Row>>)
    ensures var r := EnrichAll(list, items, quotes);
      && (r.Success? <==> AllEnrichable(list, items))
      && (r.Success? ==> forall i :: 0 <= i < |list| ==> Enrich(list[i], items, quotes) == Success(r.value[i]))
  {
    MapAllSpec(s => Enrich(s, items, quotes), list);
  }

  /** Built records all passed the confidence check. */
  lemma EnrichAllInRange(list: seq<Suggestions.Suggestion>, items: map<string, Row>, quotes: map<string, seq<Row>>)
    requires EnrichAll(list, items, quotes).Success?
    ensures var out := EnrichAll(list, items, quotes).value;
      forall i :: 0 <= i < |out| ==> Models.InUnitRange(out[i].confidenceScore)
  {
    EnrichAllSpec(list, items, quotes);
    var out := EnrichAll(list, items, quotes).value;
    forall i | 0 <= i < |out|
      ensures Models.InUnitRange(out[i].confidenceScore)
    {
      assert Enrich(list[i], items, quotes) == Success(out[i]);
    }
  }

  /** `line_item.id if line_item.id else hash(line_item.description)`: a
      missing id and id 0 both fall back to the hash. */
  function ItemId(item: Models.LineItem, hash: string -> int): int {
    if item.id.Some? && item.id.value != 0 then item.id.value else hash(item.description)
  }

  type Ranked = seq<(Models.LineItem, seq<Suggestions.Suggestion>)>

  /** The response dict, filled item by item: a later item with the same id
      replaces an earlier one. */
  function Assemble(
    ranked: Ranked,
    items: map<string, Row>,
    quotes: map<string, seq<Row>>,
    hash: string -> int): (r: Result<map<int, seq<Models.Suggestion>>, string>)
    ensures r.Success? ==> forall k :: 0 <= k < |ranked| ==> ItemId(ranked[k].0, hash) in r.value
  {
    if ranked == [] then Success(map[])
    else
      var init := ranked[..|ranked| - 1];
      var (item, list) := ranked[|ranked| - 1];
      match Assemble(init, items, quotes, hash)
      case Failure(e) => Failure(e)
      case Success(m) =>
        match EnrichAll(list, items, quotes)
        case Failure(e) => Failure(e)
        case Success(out) =>
          assert forall k :: 0 <= k < |init| ==> ranked[k] == init[k];
          Success(m[ItemId(item, hash) := out])
  }

  /** `id` is the key of one of the ranked items. */
  predicate KeyOf(ranked: Ranked, hash: string -> int, id: int) {
    exists k :: 0 <= k < |ranked| && ItemId(ranked[k].0, hash) == id
  }

  /** No later ranked item has the same id as item `k`. */
  predicate LastOf(ranked: Ranked, hash: string -> int, k: nat)
    requires k < |ranked|
  {
    forall j :: k < j < |ranked| ==> ItemId(ranked[j].0, hash) != ItemId(ranked[k].0, hash)
  }

  /** Every suggestion of every ranked item can be enriched. */
  predicate RankedEnrichable(ranked: Ranked, items: map<string, Row>) {
    forall k :: 0 <= k < |ranked| ==> AllEnrichable(ranked[k].1, items)
  }

  /** The dict is built iff every suggestion passes validation. */
  lemma {:induction false} AssembleSucceeds(ranked: Ranked, items: map<string, Row>, quotes: map<string, seq<Row>>, hash: string -> int)
    ensures Assemble(ranked, items, quotes, hash).Success? <==> RankedEnrichable(ranked, items)
  {
    if ranked != [] {
      var init := ranked[..|ranked| - 1];
      var last := ranked[|ranked| - 1];
      AssembleSucceeds(init, items, quotes, hash);
      EnrichAllSpec(last.1, items, quotes);
      assert forall k :: 0 <= k < |init| ==> ranked[k] == init[k];
      assert RankedEnrichable(ranked, items) <==> RankedEnrichable(init, items) && AllEnrichable(last.1, items);
    }
  }

  /** The dict's keys are exactly the ranked items' ids. */
  lemma {:induction false} AssembleKeys(ranked: Ranked, items: map<string, Row>, quotes: map<string, seq<Row>>, hash: string -> int)
    requires Assemble(ranked, items, quotes, hash).Success?
    ensures forall id :: id in Assemble(ranked, items, quotes, hash).value <==> KeyOf(ranked, hash, id)
  {
    if ranked != [] {
      var init := ranked[..|ranked| - 1];
      var (item, list) := ranked[|ranked| - 1];
      AssembleKeys(init, items, quotes, hash);
      var r := Assemble(ranked, items, quotes, hash).value;
      var m := Assemble(init, items, quotes, hash).value;
      assert r == m[ItemId(item, hash) := EnrichAll(list, items, quotes).value];
      forall id | id in r
        ensures KeyOf(ranked, hash, id)
      {
        if id == ItemId(item, hash) {
          assert ItemId(ranked[|ranked| - 1].0, hash) == id;
        } else {
          var k :| 0 <= k < |init| && ItemId(init[k].0, hash) == id;
          assert ranked[k] == init[k];
        }
      }
    }
  }

  /** The entry under an item's id is that item's records when no later
      item shares the id: the last duplicate wins. */
  lemma {:induction false} AssembleLastWins(ranked: Ranked, items: map<string, Row>, quotes: map<string, seq<Row>>, hash: string -> int, k: nat)
    requires Assemble(ranked, items, quotes, hash).Success?
    requires k < |ranked| && LastOf(ranked, hash, k)
    ensures ItemId(ranked[k].0, hash) in Assemble(ranked, items, quotes, hash).value
    ensures EnrichAll(ranked[k].1, items, quotes) == Success(Assemble(ranked, items, quotes, hash).value[ItemId(ranked[k].0, hash)])
  {
    var init := ranked[..|ranked| - 1];
    var (item, list) := ranked[|ranked| - 1];
    var m := Assemble(init, items, quotes, hash).value;
    assert Assemble(ranked, items, quotes, hash).value == m[ItemId(item, hash) := EnrichAll(list, items, quotes).value];
    if k < |ranked| - 1 {
      assert ranked[k] == init[k];
      assert LastOf(init, hash, k) by {
        forall j | k < j < |init|
          ensures ItemId(init[j].0, hash) != ItemId(init[k].0, hash)
        {
          assert init[j] == ranked[j];
        }
      }
      AssembleLastWins(init, items, quotes, hash, k);
      assert ItemId(ranked[|ranked| - 1].0, hash) != ItemId(ranked[k].0, hash);
    }
  }

  /** Every record the dict holds passed the confidence check. */
  lemma {:induction false} AssembleValid(ranked: Ranked, items: map<string, Row>, quotes: map<string, seq<Row>>, hash: string -> int)
    requires Assemble(ranked, items, quotes, hash).Success?
    ensures Models.ValidResponse(Models.SuggestResponse(Assemble(ranked, items, quotes, hash).value))
  {
    if ranked != [] {
      var init := ranked[..|ranked| - 1];
      var (item, list) := ranked[|ranked| - 1];
      AssembleValid(init, items, quotes, hash);
      EnrichAllInRange(list, items, quotes);
    }
  }

  /** The ranking loop, `zip(items_to_process, vector_results_per_item)`:
      each collected item with its own vector results, stopping at the
      shorter of the two lists. */
  function RankAll(
    work: seq<(Models.LineItem, string)>,
    vectors: seq<seq<Hit>>,
    history: string -> Result<seq<(string, int)>, string>): (r: Ranked)
    ensures |r| == Min(|work|, |vectors|)
    ensures forall k :: 0 <= k < |r| ==> r[k] == (work[k].0, RankItem(history, work[k].1, vectors[k]))
  {
    seq(Min(|work|, |vectors|), k requires 0 <= k < Min(|work|, |vectors|) =>
      (work[k].0, RankItem(history, work[k].1, vectors[k])))
  }

  /** The route as a whole: any exception, a missing API key included,
      becomes the HTTP 500 answer, modelled as `Failure`. Besides the
      answer it returns the collected line items, the per-item vector
      results, the ranked items and the item and quote caches, so that the
      contract can say what each key holds. */
  method SuggestForItems(
    lineItems: seq<Models.LineItem>,
    embed: seq<string> -> Result<seq<Option<Vector>>, string>,
    searchBatch: (seq<Vector>, nat) -> Result<seq<seq<Hit>>, string>,
    history: string -> Result<seq<(string, int)>, string>,
    itemsQuery: seq<string> -> Result<map<string, Row>, string>,
    quotesQuery: (seq<string>, int) -> Result<map<string, seq<Row>>, string>,
    hash: string -> int)
    returns (r: Result<Models.SuggestResponse, string>,
             work: seq<(Models.LineItem, string)>, perItem: seq<seq<Hit>>, ranked: Ranked,
             items: map<string, Row>, quotes: map<string, seq<Row>>)
    ensures work == Collect(lineItems)
    ensures embed(Seconds(work)).Failure? ==> r.Failure?
    ensures r.Success? ==> embed(Seconds(work)).Success?
    ensures r.Success? && embed(Seconds(work)).Success? ==>
      ScatteredFrom(perItem, embed(Seconds(work)).value, searchBatch)
    ensures r.Success? ==> ranked == RankAll(work, perItem, history)
    ensures r.Success? ==> Models.ValidResponse(r.value)
    ensures r.Success? ==> forall id :: id in r.value.suggestions <==> KeyOf(ranked, hash, id)
    ensures r.Success? ==> Caches(AllSkus(Seconds(ranked)), itemsQuery, quotesQuery).0 == Success((items, quotes))
    ensures r.Success? ==> forall k :: 0 <= k < |ranked| && LastOf(ranked, hash, k) ==>
      ItemId(ranked[k].0, hash) in r.value.suggestions &&
      EnrichAll(ranked[k].1, items, quotes) == Success(r.value.suggestions[ItemId(ranked[k].0, hash)])
    ensures r.Success? && |embed(Seconds(work)).value| >= |work| ==>
      forall k :: 0 <= k < |work| ==> ItemId(work[k].0, hash) in r.value.suggestions
  {
    perItem, ranked, items, quotes := [], [], map[], map[];
    work := Collect(lineItems);
    var embs := embed(Seconds(work));
    if embs.Failure? {
      return Failure("Failed to get suggestions: " + embs.error), work, perItem, ranked, items, quotes;
    }
    var vectors, _ := VectorResults(embs.value, searchBatch);
    if vectors.Failure? {
      return Failure("Failed to get suggestions: " + vectors.error), work, perItem, ranked, items, quotes;
    }
    perItem := vectors.value;
    ranked := RankAll(work, perItem, history);
    var (caches, _) := Caches(AllSkus(Seconds(ranked)), itemsQuery, quotesQuery);
    if caches.Failure? {
      return Failure("Failed to get suggestions: " + caches.error), work, perItem, ranked, items, quotes;
    }
    items, quotes := caches.value.0, caches.value.1;
    var assembled := Assemble(ranked, items, quotes, hash);
    if assembled.Failure? {
      return Failure("Failed to get suggestions: " + assembled.error), work, perItem, ranked, items, quotes;
    }
    AssembleSucceeds(ranked, items, quotes, hash);
    AssembleKeys(ranked, items, quotes, hash);
    AssembleValid(ranked, items, quotes, hash);
    forall k | 0 <= k < |ranked| && LastOf(ranked, hash, k)
      ensures ItemId(ranked[k].0, hash) in assembled.value &&
        EnrichAll(ranked[k].1, items, quotes) == Success(assembled.value[ItemId(ranked[k].0, hash)])
    {
      AssembleLastWins(ranked, items, quotes, hash, k);
    }
    r := Success(Models.SuggestResponse(assembled.value));
  }
}
