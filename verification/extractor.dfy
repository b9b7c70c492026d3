/**
 * api/extractor.py: turning the language model's answer into line items
 * (`extract_line_items`) and tidying them (`clean_and_filter_line_items`).
 *
 * The chat completion is an input (its text, or the error it raised), and
 * so is `json.loads`: a function from text to a JSON value, `None` for a
 * JSONDecodeError.
 */
module Extractor {
  import opened Wrappers
  import opened Text
  import opened Models

  /** A JSON value as `json.loads` returns it. Object members keep their
      textual order; a repeated key is read as its last occurrence. */
  datatype Json =
    | JNull
    | JBool(b: bool)
    | JNumber(n: real)
    | JString(s: string)
    | JArray(elems: seq<Json>)
    | JObject(fields: seq<(string, Json)>)

  /** `d.get(key)`: the value of the last member named `key`. */
  function Lookup(fields: seq<(string, Json)>, key: string): (r: Option<Json>)
    ensures r.Some? ==> exists i :: 0 <= i < |fields| && fields[i] == (key, r.value)
    ensures r.None? ==> forall i :: 0 <= i < |fields| ==> fields[i].0 != key
  {
    if fields == [] then None
    else
      var n := |fields| - 1;
      if fields[n].0 == key then Some(fields[n].1)
      else
        var r := Lookup(fields[..n], key);
        assert r.Some? ==> exists i :: 0 <= i < n && fields[i] == (key, r.value) by {
          if r.Some? {
            var i :| 0 <= i < n && fields[..n][i] == (key, r.value);
            assert fields[i] == fields[..n][i];
          }
        }
        assert r.None? ==> forall i :: 0 <= i < n ==> fields[i].0 != key by {
          if r.None? {
            forall i | 0 <= i < n ensures fields[i].0 != key {
              assert fields[i] == fields[..n][i];
            }
          }
        }
        r
  }

  /** pydantic's check of a required `str` field. */
  function AsString(v: Json): Option<string> {
    if v.JString? then Some(v.s) else None
  }

  /** pydantic's check of an `Optional[float]` field: absent or null is
      `None`, a number is kept, anything else is a validation error. The
      outer `None` is the error. */
  function AsOptNumber(v: Option<Json>): Option<Option<real>> {
    if v.None? || v.value.JNull? then Some(None)
    else if v.value.JNumber? then Some(Some(v.value.n))
    else None
  }

  /** The same for an `Optional[str]` field. */
  function AsOptString(v: Option<Json>): Option<Option<string>> {
    if v.None? || v.value.JNull? then Some(None)
    else if v.value.JString? then Some(Some(v.value.s))
    else None
  }

  /** One element of `items_data` turned into a `LineItem` with the given
      id; `None` when it is not a dict or pydantic rejects a field. `text`
      defaults to the empty string, `description` to the value of `text`. */
  function ToLineItem(e: Json, id: int): (r: Option<LineItem>)
    ensures r.Some? ==> e.JObject? && r.value.id == Some(id)
  {
    match e
    case JObject(fields) =>
      var text := Lookup(fields, "text").GetOr(JString(""));
      var description := Lookup(fields, "description").GetOr(text);
      var quantity := AsOptNumber(Lookup(fields, "quantity"));
      var unit := AsOptString(Lookup(fields, "unit"));
      if AsString(text).Some? && AsString(description).Some? && quantity.Some? && unit.Some? then
        Some(LineItem(Some(id), AsString(text).value, quantity.value, unit.value, AsString(description).value))
      else None
    case _ => None
  }

  /** The defaults: a missing `text` is the empty string, a missing
      `description` is the text; an explicit description is kept; a bare
      object becomes an item with both fields empty. */
  lemma ToLineItemSpec(e: Json, id: int)
    requires e.JObject?
    ensures var r := ToLineItem(e, id);
      && (r.Some? && Lookup(e.fields, "text").None? ==> r.value.text == "")
      && (r.Some? && Lookup(e.fields, "description").None? ==> r.value.description == r.value.text)
      && (r.Some? && Lookup(e.fields, "description").Some? ==>
            Lookup(e.fields, "description") == Some(JString(r.value.description)))
      && (Lookup(e.fields, "description").None? && Lookup(e.fields, "text").None?
          && Lookup(e.fields, "quantity").None? && Lookup(e.fields, "unit").None? ==>
            r == Some(LineItem(Some(id), "", None, None, "")))
  {
  }

  /** The loop over `enumerate(items_data)` from position `start`: element
      `i` gets id `start + i + 1` and is skipped when it fails. */
  function Convert(es: seq<Json>, start: nat): (r: seq<LineItem>)
    ensures |r| <= |es|
  {
    if es == [] then []
    else
      var head := ToLineItem(es[0], start + 1);
      (if head.Some? then [head.value] else []) + Convert(es[1..], start + 1)
  }

  /** Item `j` was built from the element at its id's position. */
  predicate BuiltFrom(es: seq<Json>, start: nat, item: LineItem) {
    && item.id.Some? && start + 1 <= item.id.value <= start + |es|
    && ToLineItem(es[item.id.value - start - 1], item.id.value) == Some(item)
  }

  /** Each item kept carries the 1-based position of the element it was
      built from. */
  lemma {:induction false} ConvertSound(es: seq<Json>, start: nat)
    ensures forall j :: 0 <= j < |Convert(es, start)| ==> BuiltFrom(es, start, Convert(es, start)[j])
  {
    if es != [] {
      ConvertSound(es[1..], start + 1);
      var head := ToLineItem(es[0], start + 1);
      var h: seq<LineItem> := if head.Some? then [head.value] else [];
      var rest := Convert(es[1..], start + 1);
      var r := Convert(es, start);
      assert r == h + rest;
      forall j | 0 <= j < |r| ensures BuiltFrom(es, start, r[j]) {
        if j < |h| {
          assert r[j] == head.value;
        } else {
          var j' := j - |h|;
          assert r[j] == rest[j'];
          assert BuiltFrom(es[1..], start + 1, rest[j']);
          var t := r[j].id.value;
          assert es[t - start - 1] == es[1..][t - (start + 1) - 1];
        }
      }
    }
  }

  /** The ids of the items kept lie above `start` and strictly increase. */
  lemma {:induction false} ConvertOrdered(es: seq<Json>, start: nat)
    ensures forall j :: 0 <= j < |Convert(es, start)| ==>
      Convert(es, start)[j].id.Some? && Convert(es, start)[j].id.value > start
    ensures forall j, k :: 0 <= j < k < |Convert(es, start)| ==>
      Convert(es, start)[j].id.value < Convert(es, start)[k].id.value
  {
    if es != [] {
      ConvertOrdered(es[1..], start + 1);
      var head := ToLineItem(es[0], start + 1);
      var h: seq<LineItem> := if head.Some? then [head.value] else [];
      var rest := Convert(es[1..], start + 1);
      var r := Convert(es, start);
      assert r == h + rest;
      forall j | 0 <= j < |r| ensures r[j].id.Some? && r[j].id.value > start {
        if j >= |h| {
          assert r[j] == rest[j - |h|];
        }
      }
      forall j, k | 0 <= j < k < |r| ensures r[j].id.value < r[k].id.value {
        assert r[k] == rest[k - |h|];
        if j >= |h| {
          assert r[j] == rest[j - |h|];
        }
      }
    }
  }

  /** Some item carries the id. */
  predicate HasId(items: seq<LineItem>, id: int) {
    exists j :: 0 <= j < |items| && items[j].id == Some(id)
  }

  /** Every element that converts is kept, under its position's id. */
  lemma {:induction false} ConvertComplete(es: seq<Json>, start: nat)
    ensures forall i :: 0 <= i < |es| && ToLineItem(es[i], start + i + 1).Some? ==>
      HasId(Convert(es, start), start + i + 1)
  {
    if es != [] {
      ConvertComplete(es[1..], start + 1);
      var head := ToLineItem(es[0], start + 1);
      var h: seq<LineItem> := if head.Some? then [head.value] else [];
      var rest := Convert(es[1..], start + 1);
      var r := Convert(es, start);
      assert r == h + rest;
      forall i | 0 <= i < |es| && ToLineItem(es[i], start + i + 1).Some?
        ensures HasId(r, start + i + 1)
      {
        if i == 0 {
          assert r[0].id == Some(start + 1);
        } else {
          assert es[i] == es[1..][i - 1];
          assert ToLineItem(es[1..][i - 1], start + 1 + (i - 1) + 1).Some?;
          assert HasId(rest, start + 1 + (i - 1) + 1);
          var j :| 0 <= j < |rest| && rest[j].id == Some(start + 1 + (i - 1) + 1);
          assert r[j + |h|] == rest[j];
        }
      }
    }
  }

  /** Every item has an id, at least 1, and the ids strictly increase, so
      no two items share one. */
  predicate Ordered(items: seq<LineItem>) {
    && (forall j :: 0 <= j < |items| ==> items[j].id.Some? && items[j].id.value >= 1)
    && (forall j, k :: 0 <= j < k < |items| ==> items[j].id.value < items[k].id.value)
  }

  /** Iterating over `items_data`: a list yields its converted elements; a
      dict or a string iterates over text whose elements have no `.get`,
      so every one is skipped; anything else is not iterable (`None`). */
  function Iterate(data: Json): (r: Option<seq<LineItem>>)
    ensures data.JArray? ==> r.Some? && |r.value| <= |data.elems|
    ensures r.Some? ==> Ordered(r.value)
    ensures data.JObject? || data.JString? ==> r == Some([])
    ensures data.JNull? || data.JBool? || data.JNumber? ==> r.None?
  {
    match data
    case JArray(es) =>
      ConvertOrdered(es, 0);
      Some(Convert(es, 0))
    case JObject(_) => Some([])
    case JString(_) => Some([])
    case _ => None
  }

  /** What the code takes as `items_data` after a direct parse: the list,
      the `items` member of a dict, or nothing. */
  function ItemsData(parsed: Json): (r: Json)
    ensures parsed.JArray? ==> r == parsed
    ensures parsed.JObject? && Lookup(parsed.fields, "items").Some? ==> r == Lookup(parsed.fields, "items").value
    ensures !parsed.JArray? && !(parsed.JObject? && Lookup(parsed.fields, "items").Some?) ==> r == JArray([])
  {
    match parsed
    case JArray(_) => parsed
    case JObject(fields) => Lookup(fields, "items").GetOr(JArray([]))
    case _ => JArray([])
  }

  /** The first index of `c` in `s`. */
  function FirstIndex(s: string, c: char): (r: Option<nat>)
    ensures r.Some? ==> r.value < |s| && s[r.value] == c && c !in s[..r.value]
    ensures r.None? ==> c !in s
  {
    if s == [] then None
    else if s[0] == c then Some(0)
    else
      var r := FirstIndex(s[1..], c);
      assert s == [s[0]] + s[1..];
      if r.Some? then
        assert s[..r.value + 1] == [s[0]] + s[1..][..r.value];
        Some(r.value + 1)
      else None
  }

  /** The last index of `c` in `s`. */
  function LastIndex(s: string, c: char): (r: Option<nat>)
    ensures r.Some? ==> r.value < |s| && s[r.value] == c && c !in s[r.value + 1..]
    ensures r.None? ==> c !in s
  {
    if s == [] then None
    else
      var n := |s| - 1;
      if s[n] == c then Some(n)
      else
        var r := LastIndex(s[..n], c);
        assert s == s[..n] + [s[n]];
        if r.Some? then
          assert s[r.value + 1..] == s[..n][r.value + 1..] + [s[n]];
          r
        else None
  }

  /** `re.search(r'\[[\s\S]*\]', content)`: the greedy match runs from the
      first `[` to the last `]` after it. */
  function Bracketed(content: string): (r: Option<string>)
    ensures r.Some? ==> |r.value| >= 2 && r.value[0] == '[' && r.value[|r.value| - 1] == ']'
    ensures r.Some? ==> exists a :: (0 <= a && a + |r.value| <= |content| && content[a..a + |r.value|] == r.value
                                     && '[' !in content[..a] && ']' !in content[a + |r.value|..])
    ensures r.None? ==> '[' !in content || ']' !in content[FirstIndex(content, '[').value..]
  {
    match FirstIndex(content, '[')
    case None => None
    case Some(a) =>
      match LastIndex(content[a..], ']')
      case None => None
      case Some(b) =>
        assert content[a..][b + 1..] == content[a + b + 1..];
        assert content[a..a + b + 1] == content[a..][..b + 1];
        Some(content[a..a + b + 1])
  }

  /** The fallback when anything in the call or the parse raises: one item
      holding the first 200 characters of the text. */
  function Fallback(text: string): (r: seq<LineItem>)
    ensures |r| == 1 && r[0].id == Some(1) && r[0].quantity.None? && r[0].unit.None?
    ensures |r[0].text| == if |text| < 200 then |text| else 200
    ensures r[0].text == r[0].description && text[..|r[0].text|] == r[0].text
  {
    var t := if |text| < 200 then text else text[..200];
    [LineItem(Some(1), t, None, None, t)]
  }

  const MissingKeyError: string := "OPENAI_API_KEY not found"

  /** `extract_line_items`: a missing key raises; a failed call falls back
      to one item; a reply that parses gives its items, one that does not
      is searched for a bracketed array; an unusable reply gives no items;
      a parsed value that cannot be iterated falls back. */
  function ExtractLineItems(apiKey: Option<string>, text: string, reply: Result<string, string>,
                            parse: string -> Option<Json>): (r: Result<seq<LineItem>, string>)
    ensures apiKey.None? || apiKey == Some("") <==> r == Failure(MissingKeyError)
    ensures apiKey.Some? && apiKey != Some("") && reply.Failure? ==> r == Success(Fallback(text))
    ensures r.Success? ==> Ordered(r.value)
  {
    if apiKey.None? || apiKey.value == "" then Failure(MissingKeyError)
    else if reply.Failure? then Success(Fallback(text))
    else
      var content := Strip(reply.value);
      match parse(content)
      case Some(parsed) =>
        (match Iterate(ItemsData(parsed))
         case Some(items) => Success(items)
         case None => Success(Fallback(text)))
      case None =>
        match Bracketed(content)
        case None => Success([])
        case Some(m) =>
          match parse(m)
          case None => Success([])
          case Some(data) =>
            match Iterate(data)
            case Some(items) => Success(items)
            case None => Success(Fallback(text))
  }

  /** A reply that is a JSON array of complete objects yields one item per
      element, ids 1, 2, ... in order, fields copied. */
  lemma ExtractWellFormed(apiKey: string, text: string, reply: string, parse: string -> Option<Json>,
                          items: seq<LineItem>)
    requires apiKey != ""
    requires forall i :: 0 <= i < |items| ==> items[i].id == Some(i + 1)
    requires parse(Strip(reply)) == Some(JArray(seq(|items|, i requires 0 <= i < |items| => Encode(items[i]))))
    ensures ExtractLineItems(Some(apiKey), text, Success(reply), parse) == Success(items)
  {
    var es := seq(|items|, i requires 0 <= i < |items| => Encode(items[i]));
    ConvertEncoded(items, es, 0);
  }

  /** A line item as the model is asked to write it. */
  function Encode(item: LineItem): (j: Json)
    ensures j.JObject?
  {
    JObject([("text", JString(item.text)), ("description", JString(item.description)),
             ("quantity", if item.quantity.Some? then JNumber(item.quantity.value) else JNull),
             ("unit", if item.unit.Some? then JString(item.unit.value) else JNull)])
  }

  /** Encoding an item and converting it back with its own id is the
      identity. */
  lemma EncodeRoundTrip(item: LineItem, id: int)
    requires item.id == Some(id)
    ensures ToLineItem(Encode(item), id) == Some(item)
  {
    var f := Encode(item).fields;
    assert f[..3] == [f[0], f[1], f[2]];
    assert f[..3][..2] == [f[0], f[1]];
    assert f[..3][..2][..1] == [f[0]];
    assert Lookup(f, "text") == Some(JString(item.text));
    assert Lookup(f, "description") == Some(JString(item.description));
  }

  lemma {:induction false} ConvertEncoded(items: seq<LineItem>, es: seq<Json>, start: nat)
    requires |es| == |items|
    requires forall i :: 0 <= i < |items| ==> items[i].id == Some(start + i + 1) && es[i] == Encode(items[i])
    ensures Convert(es, start) == items
  {
    if es != [] {
      EncodeRoundTrip(items[0], start + 1);
      ConvertEncoded(items[1..], es[1..], start + 1);
    }
  }

  // ---------------------------------------------------------------------
  // clean_and_filter_line_items
  // ---------------------------------------------------------------------

  /** An item survives the filter when its description is not blank. */
  predicate Kept(item: LineItem) {
    !AllSpace(item.description)
  }

  /** Whitespace runs in both text fields become single spaces. */
  function Clean(item: LineItem): (r: LineItem)
    ensures r.id == item.id && r.quantity == item.quantity && r.unit == item.unit
    ensures r.text == JoinSpace(Words(item.text)) && r.description == JoinSpace(Words(item.description))
    ensures IsCollapsed(r.text) && IsCollapsed(r.description)
    ensures Visible(r.text) == Visible(item.text) && Visible(r.description) == Visible(item.description)
    ensures Kept(r) <==> Kept(item)
  {
    var r := item.(description := Collapse(item.description), text := Collapse(item.text));
    assert Kept(r) <==> Collapse(item.description) != [] by {
      if Collapse(item.description) != [] {
        assert !IsSpace(r.description[0]);
      }
    }
    r
  }

  /** `clean_and_filter_line_items` */
  function CleanAndFilter(items: seq<LineItem>): (r: seq<LineItem>)
    ensures |r| <= |items|
  {
    if items == [] then []
    else (if Kept(items[0]) then [Clean(items[0])] else []) + CleanAndFilter(items[1..])
  }

  /** `x` is the cleaned version of some kept item. */
  predicate CleanedFrom(items: seq<LineItem>, x: LineItem) {
    exists i :: 0 <= i < |items| && Kept(items[i]) && Clean(items[i]) == x
  }

  /** Every item of the result is a kept item, cleaned. */
  lemma {:induction false} CleanAndFilterSound(items: seq<LineItem>, x: LineItem)
    requires x in CleanAndFilter(items)
    ensures CleanedFrom(items, x)
  {
    var rest := CleanAndFilter(items[1..]);
    if Kept(items[0]) && x == Clean(items[0]) {
      assert 0 < |items| && Kept(items[0]) && Clean(items[0]) == x;
    } else {
      assert x in rest by {
        if Kept(items[0]) {
          assert CleanAndFilter(items) == [Clean(items[0])] + rest;
        } else {
          assert CleanAndFilter(items) == [] + rest;
        }
      }
      CleanAndFilterSound(items[1..], x);
      var i :| 0 <= i < |items[1..]| && Kept(items[1..][i]) && Clean(items[1..][i]) == x;
      assert items[i + 1] == items[1..][i];
    }
  }

  /** Every kept item is in the result, cleaned. */
  lemma {:induction false} CleanAndFilterComplete(items: seq<LineItem>, i: nat)
    requires i < |items| && Kept(items[i])
    ensures Clean(items[i]) in CleanAndFilter(items)
  {
    var rest := CleanAndFilter(items[1..]);
    if i == 0 {
      assert CleanAndFilter(items) == [Clean(items[0])] + rest;
    } else {
      assert items[1..][i - 1] == items[i];
      CleanAndFilterComplete(items[1..], i - 1);
      assert CleanAndFilter(items) == (if Kept(items[0]) then [Clean(items[0])] else []) + rest;
    }
  }

  /** The result is exactly the cleaned versions of the kept items: each
      has a non-blank, normalised description, and each kept item is
      there. */
  lemma CleanAndFilterSpec(items: seq<LineItem>)
    ensures forall x :: x in CleanAndFilter(items) ==>
      Kept(x) && IsCollapsed(x.description) && IsCollapsed(x.text)
    ensures forall x :: x in CleanAndFilter(items) <==> CleanedFrom(items, x)
  {
    forall x | x in CleanAndFilter(items)
      ensures CleanedFrom(items, x) && Kept(x) && IsCollapsed(x.description) && IsCollapsed(x.text)
    {
      CleanAndFilterSound(items, x);
    }
    forall x | CleanedFrom(items, x)
      ensures x in CleanAndFilter(items)
    {
      var i :| 0 <= i < |items| && Kept(items[i]) && Clean(items[i]) == x;
      CleanAndFilterComplete(items, i);
    }
  }

  /** Cleaning twice changes nothing. */
  lemma {:induction false} CleanAndFilterIdempotent(items: seq<LineItem>)
    ensures CleanAndFilter(CleanAndFilter(items)) == CleanAndFilter(items)
  {
    if items != [] {
      CleanAndFilterIdempotent(items[1..]);
      var rest := CleanAndFilter(items[1..]);
      if Kept(items[0]) {
        var c := Clean(items[0]);
        assert CleanAndFilter(items) == [c] + rest;
        assert Kept(c);
        assert CleanAndFilter([c] + rest) == [Clean(c)] + CleanAndFilter(rest);
        CollapseIdempotent(items[0].description);
        CollapseIdempotent(items[0].text);
        assert Clean(c).description == c.description && Clean(c).text == c.text;
        assert Clean(c) == c;
        assert ([c] + rest)[0] == c && ([c] + rest)[1..] == rest;
      } else {
        assert CleanAndFilter(items) == [] + rest == rest;
      }
    }
  }

  /** Filtering commutes with concatenation, so order is kept. */
  lemma {:induction false} CleanAndFilterAppend(a: seq<LineItem>, b: seq<LineItem>)
    ensures CleanAndFilter(a + b) == CleanAndFilter(a) + CleanAndFilter(b)
  {
    if a != [] {
      assert (a + b)[1..] == a[1..] + b;
      CleanAndFilterAppend(a[1..], b);
    } else {
      assert a + b == b;
    }
  }
}
