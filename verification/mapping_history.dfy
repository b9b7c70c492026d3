/**
 * scripts/create_sku_mapping_history.py: the historical quotation rows
 * are reduced to (requirement, sku) pairs, counted per requirement and
 * sku, and written to `sku_mapping_history` under its
 * UNIQUE(requirement_string, sku) constraint.
 *
 * The nested `defaultdict` is an association list per level, kept in
 * first-seen order as Python dicts are.
 */
module MappingHistory {
  import opened Wrappers
  import opened Text

  /** A `tables_data` row: requirement and sku, `None` for SQL NULL. */
  type SourceRow = (Option<string>, Option<string>)

  /** The SQL filter: both columns present and non-empty. */
  predicate Selected(row: SourceRow) {
    row.0.Some? && row.0.value != "" && row.1.Some? && row.1.value != ""
  }

  /** A selected row counts when both columns are non-blank once stripped. */
  predicate Accepted(row: SourceRow) {
    Selected(row) && Strip(row.0.value) != "" && Strip(row.1.value) != ""
  }

  /** The stripped pair of a selected row. */
  function PairOf(row: SourceRow): (string, string)
    requires Selected(row)
  {
    (Strip(row.0.value), Strip(row.1.value))
  }

  /** The pair a row contributes to the aggregation, if it is accepted. */
  function Contribution(row: SourceRow): Option<(string, string)> {
    if Accepted(row) then Some(PairOf(row)) else None
  }

  /** The values `f` yields on `s`, in order, skipping `None`. */
  function Gather<T, U>(s: seq<T>, f: T -> Option<U>): (r: seq<U>)
    ensures |r| <= |s|
  {
    if s == [] then []
    else (if f(s[0]).Some? then [f(s[0]).value] else []) + Gather(s[1..], f)
  }

  lemma {:induction false} GatherSound<T, U>(s: seq<T>, f: T -> Option<U>, u: U)
    requires u in Gather(s, f)
    ensures exists i :: 0 <= i < |s| && f(s[i]) == Some(u)
  {
    if !(f(s[0]) == Some(u)) {
      GatherSound(s[1..], f, u);
      var i :| 0 <= i < |s[1..]| && f(s[1..][i]) == Some(u);
      assert s[i + 1] == s[1..][i];
    }
  }

  lemma {:induction false} GatherComplete<T, U>(s: seq<T>, f: T -> Option<U>, i: nat)
    requires i < |s| && f(s[i]).Some?
    ensures f(s[i]).value in Gather(s, f)
  {
    if i > 0 {
      assert s[1..][i - 1] == s[i];
      GatherComplete(s[1..], f, i - 1);
    }
  }

  /** The pairs the aggregation loop counts, in row order. */
  function Pairs(rows: seq<SourceRow>): (r: seq<(string, string)>)
    ensures |r| <= |rows|
  {
    Gather(rows, Contribution)
  }

  /** `p` is the stripped pair of some accepted row. */
  predicate FromAccepted(rows: seq<SourceRow>, p: (string, string)) {
    exists i :: 0 <= i < |rows| && Accepted(rows[i]) && PairOf(rows[i]) == p
  }

  /** Every pair counted is the stripped pair of an accepted row, and
      every accepted row is counted. */
  lemma PairsSpec(rows: seq<SourceRow>)
    ensures forall p :: p in Pairs(rows) ==> p.0 != "" && p.1 != ""
    ensures forall p :: p in Pairs(rows) <==> FromAccepted(rows, p)
  {
    forall p | p in Pairs(rows)
      ensures FromAccepted(rows, p) && p.0 != "" && p.1 != ""
    {
      GatherSound(rows, Contribution, p);
      var i :| 0 <= i < |rows| && Contribution(rows[i]) == Some(p);
      assert Accepted(rows[i]) && PairOf(rows[i]) == p;
    }
    forall p | FromAccepted(rows, p)
      ensures p in Pairs(rows)
    {
      var i :| 0 <= i < |rows| && Accepted(rows[i]) && PairOf(rows[i]) == p;
      GatherComplete(rows, Contribution, i);
    }
  }

  // ---------------------------------------------------------------------
  // Counting
  // ---------------------------------------------------------------------

  /** sku -> frequency, in first-seen order. */
  type SkuCounts = seq<(string, nat)>

  /** requirement -> (sku -> frequency), in first-seen order. */
  type Mappings = seq<(string, SkuCounts)>

  /** The keys of an association list. */
  function Keys<V>(m: seq<(string, V)>): set<string> {
    if m == [] then {} else {m[0].0} + Keys(m[1..])
  }

  /** No key occurs twice. */
  predicate Unique<V>(m: seq<(string, V)>) {
    m == [] || (m[0].0 !in Keys(m[1..]) && Unique(m[1..]))
  }

  /** `counts[sku] += 1`: the entry in place, or a new one at the end. */
  function BumpSku(s: SkuCounts, sku: string): SkuCounts {
    if s == [] then [(sku, 1)]
    else if s[0].0 == sku then [(sku, s[0].1 + 1)] + s[1..]
    else [s[0]] + BumpSku(s[1..], sku)
  }

  /** `mappings[requirement][sku] += 1` */
  function Bump(m: Mappings, requirement: string, sku: string): Mappings {
    if m == [] then [(requirement, BumpSku([], sku))]
    else if m[0].0 == requirement then [(requirement, BumpSku(m[0].1, sku))] + m[1..]
    else [m[0]] + Bump(m[1..], requirement, sku)
  }

  /** The loop of `extract_mappings_from_tables_data` over the pairs. */
  function Aggregate(pairs: seq<(string, string)>): Mappings {
    if pairs == [] then []
    else
      var n := |pairs| - 1;
      Bump(Aggregate(pairs[..n]), pairs[n].0, pairs[n].1)
  }

  /** The frequency stored for a sku; 0 when absent. */
  function SkuFreq(s: SkuCounts, sku: string): nat {
    if s == [] then 0 else if s[0].0 == sku then s[0].1 else SkuFreq(s[1..], sku)
  }

  /** The frequency stored for a pair; 0 when absent. */
  function Freq(m: Mappings, requirement: string, sku: string): nat {
    if m == [] then 0
    else if m[0].0 == requirement then SkuFreq(m[0].1, sku)
    else Freq(m[1..], requirement, sku)
  }

  /** How often a pair occurs in the input. */
  function Occurrences(pairs: seq<(string, string)>, p: (string, string)): nat {
    if pairs == [] then 0
    else
      var n := |pairs| - 1;
      Occurrences(pairs[..n], p) + (if pairs[n] == p then 1 else 0)
  }

  /** The sum of the frequencies of one requirement. */
  function SkuTotal(s: SkuCounts): nat {
    if s == [] then 0 else s[0].1 + SkuTotal(s[1..])
  }

  /** `total_mappings`: the sum over all requirements. */
  function Total(m: Mappings): nat {
    if m == [] then 0 else SkuTotal(m[0].1) + Total(m[1..])
  }

  /** Every stored frequency is at least 1. */
  predicate Positive(s: SkuCounts) {
    forall i :: 0 <= i < |s| ==> s[i].1 >= 1
  }

  /** Unique keys at both levels, positive frequencies. */
  predicate WellFormed(m: Mappings) {
    && Unique(m)
    && forall i :: 0 <= i < |m| ==> Unique(m[i].1) && Positive(m[i].1)
  }

  lemma {:induction false} BumpSkuSpec(s: SkuCounts, sku: string)
    ensures Keys(BumpSku(s, sku)) == Keys(s) + {sku}
    ensures Unique(s) ==> Unique(BumpSku(s, sku))
    ensures Positive(s) ==> Positive(BumpSku(s, sku))
    ensures SkuTotal(BumpSku(s, sku)) == SkuTotal(s) + 1
    ensures forall k :: SkuFreq(BumpSku(s, sku), k) == SkuFreq(s, k) + (if k == sku then 1 else 0)
  {
    if s != [] && s[0].0 != sku {
      BumpSkuSpec(s[1..], sku);
      var b := BumpSku(s, sku);
      assert b[1..] == BumpSku(s[1..], sku);
      if Positive(s) {
        assert Positive(s[1..]) by {
          forall i | 0 <= i < |s[1..]| ensures s[1..][i].1 >= 1 {
            assert s[1..][i] == s[i + 1];
          }
        }
        forall i | 0 <= i < |b| ensures b[i].1 >= 1 {
          if i > 0 {
            assert b[i] == b[1..][i - 1];
          }
        }
      }
    } else if s != [] {
      var b := BumpSku(s, sku);
      assert b[1..] == s[1..];
      if Positive(s) {
        forall i | 0 <= i < |b| ensures b[i].1 >= 1 {
          if i > 0 {
            assert b[i] == s[i];
          }
        }
      }
    }
  }

  lemma {:induction false} BumpSpec(m: Mappings, requirement: string, sku: string)
    ensures Keys(Bump(m, requirement, sku)) == Keys(m) + {requirement}
    ensures WellFormed(m) ==> WellFormed(Bump(m, requirement, sku))
    ensures Total(Bump(m, requirement, sku)) == Total(m) + 1
    ensures forall r, k ::
      Freq(Bump(m, requirement, sku), r, k) == Freq(m, r, k) + (if r == requirement && k == sku then 1 else 0)
  {
    var b := Bump(m, requirement, sku);
    if m == [] {
      BumpSkuSpec([], sku);
      assert b[1..] == [];
    } else if m[0].0 == requirement {
      BumpSkuSpec(m[0].1, sku);
      assert b[1..] == m[1..];
      if WellFormed(m) {
        forall i | 0 <= i < |b| ensures Unique(b[i].1) && Positive(b[i].1) {
          if i > 0 {
            assert b[i] == m[i];
          }
        }
      }
    } else {
      BumpSpec(m[1..], requirement, sku);
      assert b[1..] == Bump(m[1..], requirement, sku);
      if WellFormed(m) {
        assert WellFormed(m[1..]) by {
          forall i | 0 <= i < |m[1..]| ensures Unique(m[1..][i].1) && Positive(m[1..][i].1) {
            assert m[1..][i] == m[i + 1];
          }
        }
        forall i | 0 <= i < |b| ensures Unique(b[i].1) && Positive(b[i].1) {
          if i > 0 {
            assert b[i] == b[1..][i - 1];
          }
        }
      }
    }
  }

  /** The aggregation counts every pair: the frequency of a pair is the
      number of times it occurs, every stored frequency is at least 1, the
      keys are unique at both levels, and `total_mappings` is the number of
      pairs counted. */
  lemma {:induction false} AggregateSpec(pairs: seq<(string, string)>)
    ensures WellFormed(Aggregate(pairs))
    ensures Total(Aggregate(pairs)) == |pairs|
    ensures forall r, k :: Freq(Aggregate(pairs), r, k) == Occurrences(pairs, (r, k))
  {
    if pairs != [] {
      var n := |pairs| - 1;
      AggregateSpec(pairs[..n]);
      BumpSpec(Aggregate(pairs[..n]), pairs[n].0, pairs[n].1);
    }
  }

  /** The requirements counted are exactly those of the pairs. */
  lemma {:induction false} AggregateKeys(pairs: seq<(string, string)>)
    ensures forall r :: r in Keys(Aggregate(pairs)) <==> exists i :: 0 <= i < |pairs| && pairs[i].0 == r
  {
    if pairs != [] {
      var n := |pairs| - 1;
      AggregateKeys(pairs[..n]);
      BumpSpec(Aggregate(pairs[..n]), pairs[n].0, pairs[n].1);
      forall r | r in Keys(Aggregate(pairs))
        ensures exists i :: 0 <= i < |pairs| && pairs[i].0 == r
      {
        if r != pairs[n].0 {
          var i :| 0 <= i < n && pairs[..n][i].0 == r;
          assert pairs[i].0 == r;
        }
      }
      forall r | exists i :: 0 <= i < |pairs| && pairs[i].0 == r
        ensures r in Keys(Aggregate(pairs))
      {
        var i :| 0 <= i < |pairs| && pairs[i].0 == r;
        if i < n {
          assert pairs[..n][i].0 == r;
        }
      }
    }
  }

  // ---------------------------------------------------------------------
  // Writing the table
  // ---------------------------------------------------------------------

  /** A `sku_mapping_history` row: requirement, sku, frequency. */
  type HistoryRow = (string, string, nat)

  /** The rows of one requirement, in sku order. */
  function EntryRows(requirement: string, s: SkuCounts): (r: seq<HistoryRow>)
    ensures |r| == |s|
    ensures forall i :: 0 <= i < |s| ==> r[i] == (requirement, s[i].0, s[i].1)
  {
    seq(|s|, i requires 0 <= i < |s| => (requirement, s[i].0, s[i].1))
  }

  /** The rows `insert_mappings` executes, in dict order. */
  function InsertRows(m: Mappings): seq<HistoryRow> {
    if m == [] then [] else EntryRows(m[0].0, m[0].1) + InsertRows(m[1..])
  }

  /** Two rows clash under UNIQUE(requirement_string, sku). */
  predicate Clash(a: HistoryRow, b: HistoryRow) {
    a.0 == b.0 && a.1 == b.1
  }

  /** No two rows clash. */
  predicate Distinct(rows: seq<HistoryRow>) {
    forall i, j :: 0 <= i < j < |rows| ==> !Clash(rows[i], rows[j])
  }

  /** One INSERT after another into `table`; the first that clashes with a
      row already there raises IntegrityError. */
  function InsertAll(table: seq<HistoryRow>, rows: seq<HistoryRow>): Result<seq<HistoryRow>, string>
    decreases |rows|
  {
    if rows == [] then Success(table)
    else if exists i :: 0 <= i < |table| && Clash(table[i], rows[0]) then
      Failure("UNIQUE constraint failed: sku_mapping_history.requirement_string, sku_mapping_history.sku")
    else InsertAll(table + [rows[0]], rows[1..])
  }

  /** `insert_mappings`: the old contents are deleted, then every row is
      inserted. Returns the table and `total_inserted`. */
  function InsertMappings(previous: seq<HistoryRow>, m: Mappings): Result<(seq<HistoryRow>, nat), string> {
    match InsertAll([], InsertRows(m))
    case Failure(e) => Failure(e)
    case Success(t) => Success((t, |InsertRows(m)|))
  }

  /** Appending a row that clashes with none already there keeps the rows
      free of clashes. */
  lemma SnocDistinct(table: seq<HistoryRow>, x: HistoryRow)
    requires Distinct(table)
    requires forall i :: 0 <= i < |table| ==> !Clash(table[i], x)
    ensures Distinct(table + [x])
  {
    var t := table + [x];
    forall i, j | 0 <= i < j < |t| ensures !Clash(t[i], t[j]) {
      assert t[i] == table[i];
      if j < |table| {
        assert t[j] == table[j];
      }
    }
  }

  /** Rows are free of clashes only if their prefix is. */
  lemma PrefixDistinct(table: seq<HistoryRow>, x: HistoryRow, rest: seq<HistoryRow>)
    requires Distinct(table + [x] + rest)
    ensures Distinct(table + [x])
    ensures forall i :: 0 <= i < |table| ==> !Clash(table[i], x)
  {
    var all := table + [x] + rest;
    forall i | 0 <= i < |table| ensures !Clash(table[i], x) {
      assert all[i] == table[i] && all[|table|] == x;
    }
    var t := table + [x];
    forall i, j | 0 <= i < j < |t| ensures !Clash(t[i], t[j]) {
      assert t[i] == all[i] && t[j] == all[j];
    }
  }

  /** Inserting succeeds exactly when the rows, after those already in the
      table, are free of clashes; the table then gains them in order. */
  lemma {:induction false} InsertAllSpec(table: seq<HistoryRow>, rows: seq<HistoryRow>)
    requires Distinct(table)
    ensures InsertAll(table, rows).Success? <==> Distinct(table + rows)
    ensures InsertAll(table, rows).Success? ==> InsertAll(table, rows).value == table + rows
    decreases |rows|
  {
    if rows == [] {
      assert table + rows == table;
    } else {
      var t := table + [rows[0]];
      assert t + rows[1..] == table + rows;
      if Distinct(table + rows) {
        PrefixDistinct(table, rows[0], rows[1..]);
      }
      if !exists i :: 0 <= i < |table| && Clash(table[i], rows[0]) {
        SnocDistinct(table, rows[0]);
        InsertAllSpec(t, rows[1..]);
      }
    }
  }

  /** Every row of a requirement carries that requirement and a sku of it. */
  lemma {:induction false} InsertRowsKeys(m: Mappings)
    ensures forall i :: 0 <= i < |InsertRows(m)| ==> InsertRows(m)[i].0 in Keys(m)
  {
    if m != [] {
      InsertRowsKeys(m[1..]);
      var e := EntryRows(m[0].0, m[0].1);
      var rest := InsertRows(m[1..]);
      forall i | 0 <= i < |InsertRows(m)| ensures InsertRows(m)[i].0 in Keys(m) {
        if i >= |e| {
          assert InsertRows(m)[i] == rest[i - |e|];
        }
      }
    }
  }

  /** Unique sku keys give rows that do not clash. */
  lemma {:induction false} UniqueIndex(s: SkuCounts)
    requires Unique(s)
    ensures forall i, j :: 0 <= i < j < |s| ==> s[i].0 != s[j].0
    ensures forall i :: 0 <= i < |s| ==> s[i].0 in Keys(s)
  {
    if s != [] {
      UniqueIndex(s[1..]);
      forall i, j | 0 <= i < j < |s| ensures s[i].0 != s[j].0 {
        assert s[j] == s[1..][j - 1];
        if i > 0 {
          assert s[i] == s[1..][i - 1];
        }
      }
      forall i | 1 <= i < |s| ensures s[i].0 in Keys(s) {
        assert s[i] == s[1..][i - 1];
      }
    }
  }

  /** The rows of well-formed mappings never clash, and each carries the
      frequency stored for its pair, at least 1. */
  lemma {:induction false} InsertRowsSpec(m: Mappings)
    requires WellFormed(m)
    ensures Distinct(InsertRows(m))
    ensures forall i :: 0 <= i < |InsertRows(m)| ==>
      InsertRows(m)[i].2 >= 1 && InsertRows(m)[i].2 == Freq(m, InsertRows(m)[i].0, InsertRows(m)[i].1)
  {
    if m != [] {
      var e := EntryRows(m[0].0, m[0].1);
      var rest := InsertRows(m[1..]);
      var rows := InsertRows(m);
      assert WellFormed(m[1..]) by {
        forall i | 0 <= i < |m[1..]| ensures Unique(m[1..][i].1) && Positive(m[1..][i].1) {
          assert m[1..][i] == m[i + 1];
        }
      }
      InsertRowsSpec(m[1..]);
      InsertRowsKeys(m[1..]);
      UniqueIndex(m[0].1);
      SkuFreqIndex(m[0].1);
      forall i, j | 0 <= i < j < |rows| ensures !Clash(rows[i], rows[j]) {
        if j < |e| {
          assert rows[i] == e[i] && rows[j] == e[j];
        } else if i < |e| {
          assert rows[j] == rest[j - |e|];
          assert rows[j].0 in Keys(m[1..]);
        } else {
          assert rows[i] == rest[i - |e|] && rows[j] == rest[j - |e|];
        }
      }
      forall i | 0 <= i < |rows|
        ensures rows[i].2 >= 1 && rows[i].2 == Freq(m, rows[i].0, rows[i].1)
      {
        if i < |e| {
          assert rows[i] == e[i];
        } else {
          assert rows[i] == rest[i - |e|];
          assert rows[i].0 in Keys(m[1..]);
        }
      }
    }
  }

  /** In a list with unique keys, the frequency of a key is that of its
      entry. */
  lemma {:induction false} SkuFreqIndex(s: SkuCounts)
    requires Unique(s)
    ensures forall i :: 0 <= i < |s| ==> SkuFreq(s, s[i].0) == s[i].1
  {
    if s != [] {
      SkuFreqIndex(s[1..]);
      UniqueIndex(s);
      forall i | 1 <= i < |s| ensures SkuFreq(s, s[i].0) == s[i].1 {
        assert s[i] == s[1..][i - 1];
      }
    }
  }

  /** `extract_mappings_from_tables_data` followed by `insert_mappings`:
      whatever the table held before, it ends with one row per distinct
      pair, none violating the UNIQUE constraint, each with the number of
      times its pair occurs among the accepted rows. */
  lemma BuildHistory(previous: seq<HistoryRow>, rows: seq<SourceRow>)
    ensures var m := Aggregate(Pairs(rows));
      var res := InsertMappings(previous, m);
      && res.Success?
      && res.value.0 == InsertRows(m)
      && res.value.1 == |res.value.0|
      && Distinct(res.value.0)
      && forall i :: 0 <= i < |res.value.0| ==>
           var row := res.value.0[i];
           row.2 >= 1 && row.2 == Occurrences(Pairs(rows), (row.0, row.1))
  {
    var pairs := Pairs(rows);
    var m := Aggregate(pairs);
    var rs := InsertRows(m);
    AggregateSpec(pairs);
    InsertRowsSpec(m);
    InsertAllSpec([], rs);
    assert [] + rs == rs;
    assert InsertAll([], rs) == Success(rs);
    assert InsertMappings(previous, m) == Success((rs, |rs|));
    forall i | 0 <= i < |rs|
      ensures rs[i].2 >= 1 && rs[i].2 == Occurrences(pairs, (rs[i].0, rs[i].1))
    {
      assert rs[i].2 == Freq(m, rs[i].0, rs[i].1);
    }
  }
}
