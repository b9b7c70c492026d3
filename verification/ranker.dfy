/**
 * The hybrid ranker of api/matcher.py: frequency normalisation, the
 * per-sku score records built from the history and vector signals, the
 * stable descending sort, the `top_k` cut, and the formatting done by
 * `get_suggestions`.
 *
 * A Python dict is modelled as a sequence of (key, value) pairs with
 * distinct keys, in insertion order, because that order decides how the
 * stable sort breaks ties.
 */
module Ranker {
  import opened Wrappers

  type Sku = string

  /** `HISTORY_WEIGHT` and `VECTOR_WEIGHT` */
  const HistoryWeight: real := 0.7
  const VectorWeight: real := 0.3

  /** One `(sku, similarity)` pair of a vector search. */
  type Hit = (Sku, real)

  function SkusOf<V>(h: seq<(Sku, V)>): (r: seq<Sku>)
    ensures |r| == |h|
    ensures forall i :: 0 <= i < |h| ==> r[i] == h[i].0
  {
    seq(|h|, i requires 0 <= i < |h| => h[i].0)
  }

  predicate Distinct<T(==)>(s: seq<T>) {
    forall i, j :: 0 <= i < j < |s| ==> s[i] != s[j]
  }

  /** `d.get(key)` on a dict modelled as a pair sequence. */
  function Lookup<V>(h: seq<(Sku, V)>, key: Sku): (r: Option<V>)
    ensures r.None? <==> key !in SkusOf(h)
  {
    if h == [] then None
    else if h[0].0 == key then Some(h[0].1)
    else
      assert SkusOf(h[1..]) == SkusOf(h)[1..];
      Lookup(h[1..], key)
  }

  /** A found value is the value of some entry with that key. */
  lemma {:induction false} LookupIn<V>(h: seq<(Sku, V)>, key: Sku)
    requires Lookup(h, key).Some?
    ensures exists i :: 0 <= i < |h| && h[i] == (key, Lookup(h, key).value)
  {
    if h[0].0 != key {
      LookupIn(h[1..], key);
      var i :| 0 <= i < |h[1..]| && h[1..][i] == (key, Lookup(h, key).value);
      assert h[i + 1] == h[1..][i];
    }
  }

  /** With distinct keys, looking up entry `i`'s key finds entry `i`. */
  lemma {:induction false} DistinctLookup<V>(h: seq<(Sku, V)>, i: nat)
    requires Distinct(SkusOf(h)) && i < |h|
    ensures Lookup(h, h[i].0) == Some(h[i].1)
  {
    if i > 0 {
      var t := h[1..];
      assert SkusOf(t) == SkusOf(h)[1..];
      assert Distinct(SkusOf(t));
      assert SkusOf(h)[0] != SkusOf(h)[i];
      assert t[i - 1] == h[i];
      DistinctLookup(t, i - 1);
    }
  }

  // ---------------------------------------------------------------------
  // normalize_frequencies
  // ---------------------------------------------------------------------

  /** `max(frequencies.values())` */
  function MaxFreq(h: seq<(Sku, int)>): (m: int)
    requires |h| > 0
    ensures forall i :: 0 <= i < |h| ==> h[i].1 <= m
    ensures exists i :: 0 <= i < |h| && h[i].1 == m
  {
    if |h| == 1 then h[0].1
    else
      var m' := MaxFreq(h[1..]);
      assert forall i :: 1 <= i < |h| ==> h[i] == h[1..][i - 1];
      if h[0].1 >= m' then h[0].1 else m'
  }

  /** One normalised value: the count over the maximum, or 0.0 when the
      maximum is 0. */
  function Ratio(f: int, m: int): (q: real)
    ensures m == 0 ==> q == 0.0
    ensures m != 0 ==> q * m as real == f as real
  {
    if m == 0 then 0.0 else DivCancel(f as real, m as real); f as real / m as real
  }

  /** `normalize_frequencies`: each count divided by the largest one, with
      the empty dict and an all-zero maximum handled without dividing. */
  function NormalizeFrequencies(h: seq<(Sku, int)>): (r: seq<(Sku, real)>)
    ensures |r| == |h|
    ensures forall i :: 0 <= i < |h| ==> r[i].0 == h[i].0
    ensures forall i :: 0 <= i < |h| ==> r[i].1 == Ratio(h[i].1, MaxFreq(h))
  {
    if h == [] then []
    else
      var m := MaxFreq(h);
      seq(|h|, i requires 0 <= i < |h| => (h[i].0, Ratio(h[i].1, m)))
  }

  lemma DivCancel(a: real, m: real)
    requires m != 0.0
    ensures (a / m) * m == a
  {
  }

  lemma UnitRatio(q: real, m: real)
    requires m != 0.0 && q * m == m
    ensures q == 1.0
  {
  }

  lemma RatioBounds(q: real, a: real, m: real)
    requires m > 0.0 && q * m == a && 0.0 <= a <= m
    ensures 0.0 <= q <= 1.0
  {
  }

  /** With non-negative counts every normalised value lies in [0, 1]. */
  lemma NormalizeInUnit(h: seq<(Sku, int)>)
    requires forall i :: 0 <= i < |h| ==> h[i].1 >= 0
    ensures var r := NormalizeFrequencies(h);
      forall i :: 0 <= i < |r| ==> 0.0 <= r[i].1 <= 1.0
  {
    var r := NormalizeFrequencies(h);
    forall i | 0 <= i < |r|
      ensures 0.0 <= r[i].1 <= 1.0
    {
      RatioInUnit(h[i].1, MaxFreq(h));
    }
  }

  lemma RatioInUnit(f: int, m: int)
    requires 0 <= f <= m
    ensures 0.0 <= Ratio(f, m) <= 1.0
  {
    if m != 0 {
      RatioBounds(Ratio(f, m), f as real, m as real);
    }
  }

  /** Unless every count is 0, the most frequent sku gets exactly 1.0. */
  lemma NormalizeTop(h: seq<(Sku, int)>)
    requires h != [] && MaxFreq(h) > 0
    ensures var r := NormalizeFrequencies(h);
      exists i :: 0 <= i < |r| && r[i].1 == 1.0
  {
    var r := NormalizeFrequencies(h);
    var m := MaxFreq(h);
    var k :| 0 <= k < |h| && h[k].1 == m;
    RatioSelf(m);
    assert r[k].1 == Ratio(m, m);
  }

  lemma RatioSelf(m: int)
    requires m != 0
    ensures Ratio(m, m) == 1.0
  {
    UnitRatio(Ratio(m, m), m as real);
  }

  /** The normalised dict has the same keys in the same order; with
      non-negative counts every value lies in [0, 1], and unless every
      count is 0 the most frequent sku gets exactly 1.0. */
  lemma NormalizeBounds(h: seq<(Sku, int)>)
    requires forall i :: 0 <= i < |h| ==> h[i].1 >= 0
    ensures var r := NormalizeFrequencies(h);
      && SkusOf(r) == SkusOf(h)
      && (forall i :: 0 <= i < |r| ==> 0.0 <= r[i].1 <= 1.0)
      && (h != [] && MaxFreq(h) > 0 ==> exists i :: 0 <= i < |r| && r[i].1 == 1.0)
      && (h != [] && MaxFreq(h) == 0 ==> forall i :: 0 <= i < |r| ==> r[i].1 == 0.0)
  {
    var r := NormalizeFrequencies(h);
    assert SkusOf(r) == SkusOf(h);
    NormalizeInUnit(h);
    if h != [] && MaxFreq(h) > 0 {
      NormalizeTop(h);
    }
  }

  // ---------------------------------------------------------------------
  // The score records of calculate_hybrid_score
  // ---------------------------------------------------------------------

  /** The per-sku dict of `combined_scores`. */
  datatype Candidate = Candidate(
    sku: Sku,
    historicalScore: real,
    vectorScore: real,
    historicalFrequency: int,
    vectorSimilarity: real,
    finalScore: real)

  /** The record a history entry starts with. */
  function FromHistory(sku: Sku, normalized: real, frequency: int): (c: Candidate)
    ensures c.sku == sku && c.historicalFrequency == frequency
    ensures c.historicalScore == HistoryWeight * normalized
    ensures c.vectorScore == 0.0 && c.vectorSimilarity == 0.0
    ensures c.finalScore == c.historicalScore
  {
    Candidate(sku, normalized * HistoryWeight, 0.0, frequency, 0.0, normalized * HistoryWeight)
  }

  /** The record a sku first seen in the vector results starts from, before
      its similarity is applied. */
  function Blank(sku: Sku): Candidate {
    Candidate(sku, 0.0, 0.0, 0, 0.0, 0.0)
  }

  /** Recording similarity `x` on a record: the vector part is overwritten,
      the historical part kept, and the final score recomputed. */
  function WithSimilarity(c: Candidate, x: real): (r: Candidate)
    ensures r.sku == c.sku && r.historicalScore == c.historicalScore
    ensures r.historicalFrequency == c.historicalFrequency
    ensures r.vectorSimilarity == x && r.vectorScore == x * VectorWeight
    ensures r.finalScore == r.historicalScore + r.vectorScore
  {
    c.(vectorScore := x * VectorWeight, vectorSimilarity := x,
       finalScore := c.historicalScore + x * VectorWeight)
  }

  /** A later similarity for the same sku replaces an earlier one; nothing
      accumulates. */
  lemma SimilarityOverwrites(c: Candidate, x: real, y: real)
    ensures WithSimilarity(WithSimilarity(c, x), y) == WithSimilarity(c, y)
  {
  }

  /** Step 1 of the combine: one record per history entry, in dict order. */
  function HistoryRecords(norm: seq<(Sku, real)>, freqs: seq<(Sku, int)>): (r: seq<Candidate>)
    ensures |r| == |norm| && CandidateSkus(r) == SkusOf(norm)
    ensures forall i :: 0 <= i < |r| ==>
      && r[i].historicalScore == HistoryWeight * norm[i].1
      && r[i].historicalFrequency == Lookup(freqs, norm[i].0).GetOr(0)
      && r[i].vectorScore == 0.0 && r[i].vectorSimilarity == 0.0
      && r[i].finalScore == r[i].historicalScore
  {
    seq(|norm|, i requires 0 <= i < |norm| =>
      FromHistory(norm[i].0, norm[i].1, Lookup(freqs, norm[i].0).GetOr(0)))
  }

  function CandidateSkus(recs: seq<Candidate>): (r: seq<Sku>)
    ensures |r| == |recs|
    ensures forall i :: 0 <= i < |recs| ==> r[i] == recs[i].sku
  {
    seq(|recs|, i requires 0 <= i < |recs| => recs[i].sku)
  }

  /** Position of the record for `sku`, if any. */
  function Find(recs: seq<Candidate>, sku: Sku): (r: Option<nat>)
    ensures r.None? <==> sku !in CandidateSkus(recs)
    ensures r.Some? ==> r.value < |recs| && recs[r.value].sku == sku
  {
    if recs == [] then None
    else if recs[|recs| - 1].sku == sku then Some(|recs| - 1)
    else
      assert CandidateSkus(recs[..|recs| - 1]) == CandidateSkus(recs)[..|recs| - 1];
      Find(recs[..|recs| - 1], sku)
  }

  /** One iteration of the vector loop. */
  function Upsert(recs: seq<Candidate>, hit: Hit): seq<Candidate> {
    match Find(recs, hit.0)
    case Some(i) => recs[i := WithSimilarity(recs[i], hit.1)]
    case None => recs + [WithSimilarity(Blank(hit.0), hit.1)]
  }

  /** Step 2 of the combine: the vector loop, in result order. */
  function AddVectorScores(recs: seq<Candidate>, hits: seq<Hit>): seq<Candidate>
    decreases |hits|
  {
    if hits == [] then recs else AddVectorScores(Upsert(recs, hits[0]), hits[1..])
  }

  /** The `combined_scores` dict after both loops. */
  function Combine(history: seq<(Sku, int)>, hits: seq<Hit>): seq<Candidate> {
    AddVectorScores(HistoryRecords(NormalizeFrequencies(history), history), hits)
  }

  // ----- an independent, per-sku description of the combined records ------

  /** The similarity a sku ends with: the last one reported for it. */
  function LastSimilarity(hits: seq<Hit>, sku: Sku): (r: Option<real>)
    ensures r.None? <==> sku !in SkusOf(hits)
    decreases |hits|
  {
    if hits == [] then None
    else
      assert SkusOf(hits[1..]) == SkusOf(hits)[1..];
      var later := LastSimilarity(hits[1..], sku);
      if later.Some? then later
      else if hits[0].0 == sku then Some(hits[0].1)
      else None
  }

  /** Skus of `hits` not in `seen`, in order of first appearance. */
  function NewSkus(hits: seq<Hit>, seen: seq<Sku>): seq<Sku>
    decreases |hits|
  {
    if hits == [] then []
    else if hits[0].0 in seen then NewSkus(hits[1..], seen)
    else [hits[0].0] + NewSkus(hits[1..], seen + [hits[0].0])
  }

  /** What the vector loop leaves for a record that already existed. */
  function Updated(c: Candidate, hits: seq<Hit>): Candidate {
    match LastSimilarity(hits, c.sku)
    case None => c
    case Some(x) => WithSimilarity(c, x)
  }


  lemma {:induction false} NewSkusFacts(hits: seq<Hit>, seen: seq<Sku>)
    ensures Distinct(seen) ==> Distinct(seen + NewSkus(hits, seen))
    ensures forall s :: s in NewSkus(hits, seen) ==> s !in seen && s in SkusOf(hits)
    decreases |hits|
  {
    if hits != [] {
      var s0 := hits[0].0;
      assert SkusOf(hits[1..]) == SkusOf(hits)[1..];
      if s0 in seen {
        NewSkusFacts(hits[1..], seen);
      } else {
        NewSkusFacts(hits[1..], seen + [s0]);
        assert seen + NewSkus(hits, seen) == (seen + [s0]) + NewSkus(hits[1..], seen + [s0]);
        if Distinct(seen) {
          assert Distinct(seen + [s0]);
        }
      }
    }
  }

  /** What one hit does to one existing record. */
  function Step(c: Candidate, hit: Hit): Candidate {
    if c.sku == hit.0 then WithSimilarity(c, hit.1) else c
  }

  lemma UpdatedStep(c: Candidate, hits: seq<Hit>)
    requires hits != []
    ensures Updated(c, hits) == Updated(Step(c, hits[0]), hits[1..])
  {
    match LastSimilarity(hits[1..], c.sku)
    case Some(y) => {
      if c.sku == hits[0].0 {
        SimilarityOverwrites(c, hits[0].1, y);
      }
    }
    case None => {}
  }

  lemma UpsertSkus(recs: seq<Candidate>, hit: Hit)
    ensures CandidateSkus(Upsert(recs, hit)) ==
      CandidateSkus(recs) + (if hit.0 in CandidateSkus(recs) then [] else [hit.0])
  {
    var u := Upsert(recs, hit);
    if hit.0 in CandidateSkus(recs) {
      assert forall i :: 0 <= i < |recs| ==> u[i].sku == recs[i].sku;
    }
  }

  lemma UpsertValues(recs: seq<Candidate>, hit: Hit)
    requires Distinct(CandidateSkus(recs))
    ensures |Upsert(recs, hit)| >= |recs|
    ensures forall i :: 0 <= i < |recs| ==> Upsert(recs, hit)[i] == Step(recs[i], hit)
    ensures hit.0 !in CandidateSkus(recs) ==>
      Upsert(recs, hit)[|recs|] == WithSimilarity(Blank(hit.0), hit.1)
  {
    var u := Upsert(recs, hit);
    match Find(recs, hit.0)
    case None => {}
    case Some(p) => {
      forall i | 0 <= i < |recs|
        ensures u[i] == Step(recs[i], hit)
      {
        if i != p {
          assert CandidateSkus(recs)[i] != CandidateSkus(recs)[p];
        }
      }
    }
  }

  lemma {:induction false} AddVectorScoresSkus(recs: seq<Candidate>, hits: seq<Hit>)
    ensures CandidateSkus(AddVectorScores(recs, hits)) ==
      CandidateSkus(recs) + NewSkus(hits, CandidateSkus(recs))
    decreases |hits|
  {
    if hits != [] {
      var u := Upsert(recs, hits[0]);
      var seen := CandidateSkus(recs);
      var s0 := hits[0].0;
      UpsertSkus(recs, hits[0]);
      AddVectorScoresSkus(u, hits[1..]);
      var tail := NewSkus(hits[1..], CandidateSkus(u));
      assert CandidateSkus(AddVectorScores(recs, hits)) == CandidateSkus(u) + tail;
      if s0 !in seen {
        assert CandidateSkus(u) == seen + [s0];
        assert NewSkus(hits, seen) == [s0] + tail;
        AppendAssoc(seen, [s0], tail);
      } else {
        assert CandidateSkus(u) == seen + [];
        assert seen + [] == seen;
        assert NewSkus(hits, seen) == tail;
      }
    }
  }

  lemma AppendAssoc<T>(a: seq<T>, b: seq<T>, c: seq<T>)
    ensures (a + b) + c == a + (b + c)
  {
  }

  lemma UpsertDistinct(recs: seq<Candidate>, hit: Hit)
    requires Distinct(CandidateSkus(recs))
    ensures Distinct(CandidateSkus(Upsert(recs, hit)))
  {
    UpsertSkus(recs, hit);
  }

  lemma {:induction false} AddVectorScoresOld(recs: seq<Candidate>, hits: seq<Hit>)
    requires Distinct(CandidateSkus(recs))
    ensures |AddVectorScores(recs, hits)| >= |recs|
    ensures forall i :: 0 <= i < |recs| ==> AddVectorScores(recs, hits)[i] == Updated(recs[i], hits)
    decreases |hits|
  {
    if hits != [] {
      var u := Upsert(recs, hits[0]);
      UpsertValues(recs, hits[0]);
      UpsertDistinct(recs, hits[0]);
      AddVectorScoresOld(u, hits[1..]);
      forall i | 0 <= i < |recs|
        ensures AddVectorScores(recs, hits)[i] == Updated(recs[i], hits)
      {
        UpdatedStep(recs[i], hits);
      }
    }
  }

  lemma {:induction false} AddVectorScoresNew(recs: seq<Candidate>, hits: seq<Hit>)
    requires Distinct(CandidateSkus(recs))
    ensures var r := AddVectorScores(recs, hits);
      forall i :: |recs| <= i < |r| ==>
        LastSimilarity(hits, r[i].sku).Some? &&
        r[i] == WithSimilarity(Blank(r[i].sku), LastSimilarity(hits, r[i].sku).value)
    decreases |hits|
  {
    if hits != [] {
      var (s0, x0) := hits[0];
      var rest := hits[1..];
      var u := Upsert(recs, hits[0]);
      var r := AddVectorScores(recs, hits);
      assert r == AddVectorScores(u, rest);
      UpsertValues(recs, hits[0]);
      UpsertSkus(recs, hits[0]);
      UpsertDistinct(recs, hits[0]);
      AddVectorScoresNew(u, rest);
      AddVectorScoresOld(u, rest);
      if s0 !in CandidateSkus(recs) {
        UpdatedStep(Blank(s0), hits);
        assert SkusOf(hits)[0] == s0;
        assert r[|recs|] == Updated(u[|recs|], rest);
        assert CandidateSkus(u)[|recs|] == s0;
      }
    }
  }

  /** The vector loop, described record by record: existing records keep
      their place and take the last similarity reported for them; every
      unseen sku is appended once, in order of first appearance, carrying
      no historical part and its last similarity. */
  lemma AddVectorScoresSpec(recs: seq<Candidate>, hits: seq<Hit>)
    requires Distinct(CandidateSkus(recs))
    ensures var r := AddVectorScores(recs, hits);
      && CandidateSkus(r) == CandidateSkus(recs) + NewSkus(hits, CandidateSkus(recs))
      && Distinct(CandidateSkus(r))
      && |r| >= |recs|
      && (forall i :: 0 <= i < |recs| ==> r[i] == Updated(recs[i], hits))
      && (forall i :: |recs| <= i < |r| ==>
            LastSimilarity(hits, r[i].sku).Some? &&
            r[i] == WithSimilarity(Blank(r[i].sku), LastSimilarity(hits, r[i].sku).value))
  {
    AddVectorScoresSkus(recs, hits);
    NewSkusFacts(hits, CandidateSkus(recs));
    AddVectorScoresOld(recs, hits);
    AddVectorScoresNew(recs, hits);
  }

  /** The record `combined_scores` holds for a sku, described directly from
      the two inputs. */
  function ExpectedRecord(history: seq<(Sku, int)>, hits: seq<Hit>, sku: Sku): Candidate
  {
    var base := match Lookup(NormalizeFrequencies(history), sku)
      case Some(n) => FromHistory(sku, n, Lookup(history, sku).GetOr(0))
      case None => Blank(sku);
    Updated(base, hits)
  }

  /** The combine step of `calculate_hybrid_score`: history skus first in
      dict order, then skus new to the vector results in first-appearance
      order, each exactly once, each holding the record `ExpectedRecord`
      describes, and every final score the sum of its two parts. */
  lemma CombineSpec(history: seq<(Sku, int)>, hits: seq<Hit>)
    requires Distinct(SkusOf(history))
    ensures var r := Combine(history, hits);
      && CandidateSkus(r) == SkusOf(history) + NewSkus(hits, SkusOf(history))
      && Distinct(CandidateSkus(r))
      && (forall i :: 0 <= i < |r| ==> r[i] == ExpectedRecord(history, hits, r[i].sku))
      && (forall i :: 0 <= i < |r| ==> r[i].finalScore == r[i].historicalScore + r[i].vectorScore)
  {
    var norm := NormalizeFrequencies(history);
    var recs := HistoryRecords(norm, history);
    assert SkusOf(norm) == SkusOf(history);
    assert CandidateSkus(recs) == SkusOf(history);
    AddVectorScoresSpec(recs, hits);
    NewSkusFacts(hits, SkusOf(history));
    var r := Combine(history, hits);
    forall i | 0 <= i < |r|
      ensures r[i] == ExpectedRecord(history, hits, r[i].sku)
      ensures r[i].finalScore == r[i].historicalScore + r[i].vectorScore
    {
      assert CandidateSkus(r)[i] == r[i].sku;
      if i < |recs| {
        DistinctLookup(norm, i);
      } else {
        assert r[i].sku !in SkusOf(norm) by {
          assert CandidateSkus(r)[i] == NewSkus(hits, SkusOf(history))[i - |recs|];
        }
      }
    }
  }

  // ---------------------------------------------------------------------
  // sorted(..., key=final_score, reverse=True)[:top_k]
  // ---------------------------------------------------------------------

  predicate SortedDesc(s: seq<Candidate>) {
    forall i, j :: 0 <= i < j < |s| ==> s[i].finalScore >= s[j].finalScore
  }

  /** The records whose final score is `v`, in order. */
  function WithScore(s: seq<Candidate>, v: real): seq<Candidate> {
    if s == [] then []
    else (if s[0].finalScore == v then [s[0]] else []) + WithScore(s[1..], v)
  }

  /** Insert `x` before the first record it does not score below, so that
      among equal scores the earlier record stays first. */
  function InsertDesc(x: Candidate, t: seq<Candidate>): seq<Candidate> {
    if t == [] then [x]
    else if x.finalScore >= t[0].finalScore then [x] + t
    else [t[0]] + InsertDesc(x, t[1..])
  }

  /** Python's stable `sorted(..., reverse=True)` on the final score. */
  function SortByScore(s: seq<Candidate>): seq<Candidate> {
    if s == [] then [] else InsertDesc(s[0], SortByScore(s[1..]))
  }

  lemma {:induction false} InsertPerm(x: Candidate, t: seq<Candidate>)
    ensures |InsertDesc(x, t)| == |t| + 1
    ensures multiset(InsertDesc(x, t)) == multiset(t) + multiset{x}
  {
    if t != [] && x.finalScore < t[0].finalScore {
      InsertPerm(x, t[1..]);
      assert t == [t[0]] + t[1..];
    }
  }

  /** No record of `s` scores above `b`. */
  predicate AtMost(s: seq<Candidate>, b: real) {
    forall i :: 0 <= i < |s| ==> s[i].finalScore <= b
  }

  lemma {:induction false} InsertAtMost(x: Candidate, t: seq<Candidate>, b: real)
    requires x.finalScore <= b && AtMost(t, b)
    ensures AtMost(InsertDesc(x, t), b)
  {
    if t != [] && x.finalScore < t[0].finalScore {
      InsertAtMost(x, t[1..], b);
      var r := InsertDesc(x, t);
      assert r == [t[0]] + InsertDesc(x, t[1..]);
    }
  }

  lemma {:induction false} InsertSorted(x: Candidate, t: seq<Candidate>)
    requires SortedDesc(t)
    ensures SortedDesc(InsertDesc(x, t))
  {
    if t != [] && x.finalScore < t[0].finalScore {
      var tail := t[1..];
      var ins := InsertDesc(x, tail);
      InsertSorted(x, tail);
      assert AtMost(tail, t[0].finalScore);
      InsertAtMost(x, tail, t[0].finalScore);
      var r := InsertDesc(x, t);
      assert r == [t[0]] + ins;
      forall i, j | 0 <= i < j < |r|
        ensures r[i].finalScore >= r[j].finalScore
      {
        assert r[j] == ins[j - 1];
        if i > 0 {
          assert r[i] == ins[i - 1];
        }
      }
    }
  }

  lemma {:induction false} InsertWithScore(x: Candidate, t: seq<Candidate>, v: real)
    ensures WithScore(InsertDesc(x, t), v) ==
      (if x.finalScore == v then [x] else []) + WithScore(t, v)
  {
    if t != [] {
      var r := InsertDesc(x, t);
      if x.finalScore >= t[0].finalScore {
        assert r[1..] == t;
      } else {
        InsertWithScore(x, t[1..], v);
        assert r[1..] == InsertDesc(x, t[1..]);
      }
    }
  }

  lemma {:induction false} SortPerm(s: seq<Candidate>)
    ensures |SortByScore(s)| == |s|
    ensures multiset(SortByScore(s)) == multiset(s)
  {
    if s != [] {
      SortPerm(s[1..]);
      InsertPerm(s[0], SortByScore(s[1..]));
      assert s == [s[0]] + s[1..];
    }
  }

  lemma {:induction false} SortSorted(s: seq<Candidate>)
    ensures SortedDesc(SortByScore(s))
  {
    if s != [] {
      SortSorted(s[1..]);
      InsertSorted(s[0], SortByScore(s[1..]));
    }
  }

  lemma {:induction false} SortStable(s: seq<Candidate>, v: real)
    ensures WithScore(SortByScore(s), v) == WithScore(s, v)
  {
    if s != [] {
      SortStable(s[1..], v);
      InsertWithScore(s[0], SortByScore(s[1..]), v);
    }
  }

  /** The sort is a permutation, is non-increasing in final score, and is
      stable: for every score, the records holding it keep their order. */
  lemma SortByScoreSpec(s: seq<Candidate>)
    ensures var r := SortByScore(s);
      && SortedDesc(r)
      && multiset(r) == multiset(s)
      && |r| == |s|
      && (forall v :: WithScore(r, v) == WithScore(s, v))
  {
    SortPerm(s);
    SortSorted(s);
    forall v
      ensures WithScore(SortByScore(s), v) == WithScore(s, v)
    {
      SortStable(s, v);
    }
  }

  function Take<T>(s: seq<T>, k: nat): (r: seq<T>)
    ensures |r| == if k <= |s| then k else |s|
    ensures r == s[..|r|]
  {
    if k <= |s| then s[..k] else s
  }

  /** `calculate_hybrid_score` once the history dict and the vector results
      are known. */
  function RankCandidates(history: seq<(Sku, int)>, hits: seq<Hit>, topK: nat): seq<Candidate> {
    Take(SortByScore(Combine(history, hits)), topK)
  }

  lemma PrefixIndex<T>(s: seq<T>, k: nat, p: nat)
    requires k <= |s| && p < |s|
    ensures p < k ==> s[p] in s[..k]
  {
    if p < k {
      assert s[..k][p] == s[p];
    }
  }

  /** The ranked list holds at most `top_k` records, non-increasing in final
      score, each a combined record for a sku of the history or the vector
      results; no record left out scores above one kept; ties keep the
      combined dict's insertion order. */
  /** The first `k` of the stable descending sort are drawn from `s` and
      beat every record they leave out. */
  lemma TopKBeats(s: seq<Candidate>, k: nat)
    ensures var r := Take(SortByScore(s), k);
      && (forall i :: 0 <= i < |r| ==> r[i] in s)
      && (forall x, i :: x in s && x !in r && 0 <= i < |r| ==> x.finalScore <= r[i].finalScore)
  {
    var sorted := SortByScore(s);
    var r := Take(sorted, k);
    SortPerm(s);
    SortSorted(s);
    forall i | 0 <= i < |r|
      ensures r[i] in s
    {
      assert sorted[i] in multiset(s);
    }
    forall x, i | x in s && x !in r && 0 <= i < |r|
      ensures x.finalScore <= r[i].finalScore
    {
      assert x in multiset(sorted);
      var p :| 0 <= p < |sorted| && sorted[p] == x;
      PrefixIndex(sorted, |r|, p);
    }
  }

  /** Records tied on a score keep their original order in the first `k`. */
  lemma TopKStable(s: seq<Candidate>, k: nat)
    ensures var r := Take(SortByScore(s), k);
      forall v :: WithScore(r, v) == Take(WithScore(s, v), |WithScore(r, v)|)
  {
    var sorted := SortByScore(s);
    var r := Take(sorted, k);
    forall v
      ensures WithScore(r, v) == Take(WithScore(s, v), |WithScore(r, v)|)
    {
      SortStable(s, v);
      WithScorePrefix(sorted, |r|, v);
    }
  }

  /** Taking the first `k` of the stable descending sort: the result is
      sorted, drawn from `s`, beats every record it leaves out, and keeps
      tied records in their original order. */
  lemma TopKSpec(s: seq<Candidate>, k: nat)
    ensures var r := Take(SortByScore(s), k);
      && |r| == (if k <= |s| then k else |s|)
      && SortedDesc(r)
      && (forall i :: 0 <= i < |r| ==> r[i] in s)
      && (forall x, i :: x in s && x !in r && 0 <= i < |r| ==> x.finalScore <= r[i].finalScore)
      && (forall v :: WithScore(r, v) == Take(WithScore(s, v), |WithScore(r, v)|))
  {
    var sorted := SortByScore(s);
    SortPerm(s);
    SortSorted(s);
    TopKBeats(s, k);
    TopKStable(s, k);
  }

  /** Every record of the combine is about a sku from the history or from
      the vector results. */
  lemma CombineOrigin(history: seq<(Sku, int)>, hits: seq<Hit>)
    requires Distinct(SkusOf(history))
    ensures var c := Combine(history, hits);
      forall x :: x in c ==> x.sku in SkusOf(history) || x.sku in SkusOf(hits)
  {
    var c := Combine(history, hits);
    CombineSpec(history, hits);
    NewSkusFacts(hits, SkusOf(history));
    forall x | x in c
      ensures x.sku in SkusOf(history) || x.sku in SkusOf(hits)
    {
      var j :| 0 <= j < |c| && c[j] == x;
      assert CandidateSkus(c)[j] == x.sku;
    }
  }

  lemma RankSpec(history: seq<(Sku, int)>, hits: seq<Hit>, topK: nat)
    requires Distinct(SkusOf(history))
    ensures var c := Combine(history, hits);
      var r := RankCandidates(history, hits, topK);
      && |r| == (if topK <= |c| then topK else |c|)
      && SortedDesc(r)
      && (forall i :: 0 <= i < |r| ==> r[i] in c)
      && (forall i :: 0 <= i < |r| ==> r[i].sku in SkusOf(history) || r[i].sku in SkusOf(hits))
      && (forall x, i :: x in c && x !in r && 0 <= i < |r| ==> x.finalScore <= r[i].finalScore)
      && (forall v :: WithScore(r, v) == Take(WithScore(c, v), |WithScore(r, v)|))
  {
    TopKSpec(Combine(history, hits), topK);
    CombineOrigin(history, hits);
  }

  lemma {:induction false} WithScorePrefix(s: seq<Candidate>, k: nat, v: real)
    requires k <= |s|
    ensures WithScore(s[..k], v) == Take(WithScore(s, v), |WithScore(s[..k], v)|)
  {
    if k > 0 {
      WithScorePrefix(s[1..], k - 1, v);
      assert s[..k][1..] == s[1..][..k - 1];
    }
  }

  lemma {:induction false} LastSimilarityIn(hits: seq<Hit>, sku: Sku)
    requires LastSimilarity(hits, sku).Some?
    ensures exists i :: 0 <= i < |hits| && hits[i] == (sku, LastSimilarity(hits, sku).value)
    decreases |hits|
  {
    if LastSimilarity(hits[1..], sku).Some? {
      LastSimilarityIn(hits[1..], sku);
      var i :| 0 <= i < |hits[1..]| && hits[1..][i] == (sku, LastSimilarity(hits[1..], sku).value);
      assert hits[i + 1] == hits[1..][i];
    } else {
      assert hits[0] == (sku, LastSimilarity(hits, sku).value);
    }
  }

  lemma ExpectedBounds(history: seq<(Sku, int)>, hits: seq<Hit>, sku: Sku)
    requires forall i :: 0 <= i < |history| ==> history[i].1 >= 0
    requires forall i :: 0 <= i < |hits| ==> 0.0 <= hits[i].1 <= 1.0
    ensures 0.0 <= ExpectedRecord(history, hits, sku).finalScore <= HistoryWeight + VectorWeight
  {
    var norm := NormalizeFrequencies(history);
    var base := match Lookup(norm, sku)
      case Some(n) => FromHistory(sku, n, Lookup(history, sku).GetOr(0))
      case None => Blank(sku);
    assert 0.0 <= base.historicalScore <= HistoryWeight && base.finalScore == base.historicalScore by {
      if Lookup(norm, sku).Some? {
        NormalizeBounds(history);
        LookupIn(norm, sku);
      }
    }
    if LastSimilarity(hits, sku).Some? {
      LastSimilarityIn(hits, sku);
    }
    assert ExpectedRecord(history, hits, sku) == Updated(base, hits);
  }

  /** With counts >= 0 and similarities in [0, 1], every final score lies in
      [0, HISTORY_WEIGHT + VECTOR_WEIGHT] = [0, 1]. */
  lemma ScoreBounds(history: seq<(Sku, int)>, hits: seq<Hit>)
    requires Distinct(SkusOf(history))
    requires forall i :: 0 <= i < |history| ==> history[i].1 >= 0
    requires forall i :: 0 <= i < |hits| ==> 0.0 <= hits[i].1 <= 1.0
    ensures var r := Combine(history, hits);
      forall i :: 0 <= i < |r| ==> 0.0 <= r[i].finalScore <= HistoryWeight + VectorWeight
  {
    CombineSpec(history, hits);
    var r := Combine(history, hits);
    forall i | 0 <= i < |r|
      ensures 0.0 <= r[i].finalScore <= HistoryWeight + VectorWeight
    {
      ExpectedBounds(history, hits, r[i].sku);
    }
  }
}
