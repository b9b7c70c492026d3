/**
 * The request and response records of api/models.py, with the field
 * constraints pydantic enforces when one is built: required fields,
 * defaults, and the numeric ranges of `confidence_score` and `limit`.
 *
 * A record under construction is given as its fields, `None` for a field
 * the caller left out; building it either succeeds or is a validation
 * error. Values read from the database stay strings (see README).
 */
module Models {
  import opened Wrappers

  /** `LineItem` (and `LineItemEdit`, which has the same fields). */
  datatype LineItem = LineItem(
    id: Option<int>,
    text: string,
    quantity: Option<real>,
    unit: Option<string>,
    description: string)

  /** The fields offered for a `LineItem`; `None` marks an absent field. */
  datatype LineItemFields = LineItemFields(
    id: Option<int>,
    text: Option<string>,
    quantity: Option<real>,
    unit: Option<string>,
    description: Option<string>)

  /** Building a `LineItem`: `text` and `description` are required, the
      other fields default to `None`. */
  function NewLineItem(f: LineItemFields): (r: Result<LineItem, string>)
    ensures r.Success? <==> f.text.Some? && f.description.Some?
    ensures r.Success? ==>
      && r.value.text == f.text.value && r.value.description == f.description.value
      && r.value.id == f.id && r.value.quantity == f.quantity && r.value.unit == f.unit
  {
    if f.text.None? then Failure("text: field required")
    else if f.description.None? then Failure("description: field required")
    else Success(LineItem(f.id, f.text.value, f.quantity, f.unit, f.description.value))
  }

  /** The fields of an existing line item. */
  function FieldsOf(item: LineItem): LineItemFields {
    LineItemFields(item.id, Some(item.text), item.quantity, item.unit, Some(item.description))
  }

  /** Every line item can be rebuilt from its own fields, and only the two
      required fields can make a build fail. */
  lemma LineItemRoundTrip(item: LineItem)
    ensures NewLineItem(FieldsOf(item)) == Success(item)
    ensures NewLineItem(FieldsOf(item).(id := None, quantity := None, unit := None)).Success?
    ensures NewLineItem(FieldsOf(item).(text := None)).Failure?
    ensures NewLineItem(FieldsOf(item).(description := None)).Failure?
  {
  }

  /** `QuoteHistoryItem`; price and quantity stay database strings. */
  datatype QuoteHistoryItem = QuoteHistoryItem(
    date: string,
    customer: Option<string>,
    quantity: Option<string>,
    price: Option<string>,
    quoteId: Option<string>)

  /** `Suggestion` (the response record, not the matcher's dict). */
  datatype Suggestion = Suggestion(
    sku: string,
    itemName: string,
    confidenceScore: real,
    historicalFrequency: Option<int>,
    vectorSimilarity: Option<real>,
    image: Option<string>,
    price: Option<string>,
    last3Quotes: seq<QuoteHistoryItem>)

  predicate InUnitRange(x: real) {
    0.0 <= x <= 1.0
  }

  /** Building a `Suggestion`: the confidence must lie in [0, 1]; the quote
      list defaults to empty. */
  function NewSuggestion(
    sku: string,
    itemName: string,
    confidenceScore: real,
    historicalFrequency: Option<int>,
    vectorSimilarity: Option<real>,
    image: Option<string>,
    price: Option<string>,
    last3Quotes: Option<seq<QuoteHistoryItem>>): (r: Result<Suggestion, string>)
    ensures r.Success? <==> InUnitRange(confidenceScore)
    ensures r.Success? ==> InUnitRange(r.value.confidenceScore) && r.value.sku == sku && r.value.itemName == itemName
    ensures r.Success? && last3Quotes.None? ==> r.value.last3Quotes == []
    ensures r.Success? && last3Quotes.Some? ==> r.value.last3Quotes == last3Quotes.value
  {
    if !(0.0 <= confidenceScore && confidenceScore <= 1.0) then
      Failure("confidence_score: value out of range")
    else
      Success(Suggestion(sku, itemName, confidenceScore, historicalFrequency, vectorSimilarity, image, price,
        last3Quotes.GetOr([])))
  }

  /** `SuggestResponse`: the suggestions under each integer line-item id. */
  datatype SuggestResponse = SuggestResponse(suggestions: map<int, seq<Suggestion>>)

  /** Every suggestion a response can hold passed the confidence check. */
  predicate ValidResponse(resp: SuggestResponse) {
    forall id :: id in resp.suggestions ==>
      forall i :: 0 <= i < |resp.suggestions[id]| ==> InUnitRange(resp.suggestions[id][i].confidenceScore)
  }

  /** `QuoteHistoryRequest` */
  datatype QuoteHistoryRequest = QuoteHistoryRequest(sku: string, limit: int)

  const DefaultQuoteLimit: int := 3

  /** Building a `QuoteHistoryRequest`: `limit` defaults to 3 and must lie
      in [1, 10]. */
  function NewQuoteHistoryRequest(sku: string, limit: Option<int>): (r: Result<QuoteHistoryRequest, string>)
    ensures r.Success? <==> limit.None? || 1 <= limit.value <= 10
    ensures r.Success? ==> r.value.sku == sku && 1 <= r.value.limit <= 10
    ensures r.Success? ==> r.value.limit == limit.GetOr(DefaultQuoteLimit)
  {
    var l := limit.GetOr(DefaultQuoteLimit);
    if l < 1 then Failure("limit: ensure this value is greater than or equal to 1")
    else if l > 10 then Failure("limit: ensure this value is less than or equal to 10")
    else Success(QuoteHistoryRequest(sku, l))
  }

  /** `SubmitRequest`: the edited line items and the sku chosen for each
      line-item id. */
  datatype SubmitRequest = SubmitRequest(lineItems: seq<LineItem>, selectedMappings: map<int, string>)
}
