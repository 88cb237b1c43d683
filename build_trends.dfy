/**
 * Stage 2 of the pipeline (scripts/build_trends.py): from the long table of
 * mutation events, count distinct samples per day and per (day, label),
 * join the two counts, derive the frequency, drop rare labels and sort.
 *
 * Both counts are taken over the long table itself, so a sample appears in
 * a day's denominator only if it has at least one mutation row that day.
 */
module BuildTrends {
  import opened Wrappers
  import opened Tables
  import opened CallMutations

  /** One row of `mutation_freq_by_day.csv`. */
  datatype FreqRow = FreqRow(date: Day, mutationLabel: string, nWithMut: nat, nSequences: Option<nat>, freq: Option<real>)

  /** A group key of the per-(date, label) count. */
  type GroupKey = (Day, string)

  predicate IsDated(r: Row) { r.collectionDate.Some? }

  predicate AllDated(rows: seq<Row>) { forall k :: 0 <= k < |rows| ==> IsDated(rows[k]) }

  /** `df.dropna(subset=["collection_date"])`. */
  function DropUndated(rows: seq<Row>): (r: seq<Row>)
    ensures AllDated(r)
    ensures forall x :: x in r <==> x in rows && IsDated(x)
  {
    Filter(rows, IsDated)
  }

  /** Distinct keys among the rows dated `d`. */
  function KeysOn(rows: seq<Row>, d: Day): set<string>
  {
    set r | r in rows && r.collectionDate == Some(d) :: r.key
  }

  /** Distinct keys among the rows dated `d` that carry label `l`. */
  function KeysWith(rows: seq<Row>, d: Day, l: string): set<string>
  {
    set r | r in rows && r.collectionDate == Some(d) && r.mutationLabel == l :: r.key
  }

  /** The days that occur in the table. */
  function Dates(rows: seq<Row>): set<Day>
  {
    set r | r in rows && r.collectionDate.Some? :: r.collectionDate.value
  }

  /** Every day that occurs has at least one key. */
  lemma DatesHaveKeys(rows: seq<Row>)
    ensures forall d :: d in Dates(rows) ==> |KeysOn(rows, d)| >= 1
  {
    forall d | d in Dates(rows) ensures |KeysOn(rows, d)| >= 1 {
      var r :| r in rows && r.collectionDate == Some(d);
      assert r.key in KeysOn(rows, d);
    }
  }

  /** `day_totals`: `groupby(date)["key"].nunique()`. */
  function DayTotals(rows: seq<Row>): (totals: map<Day, nat>)
    ensures totals.Keys == Dates(rows)
    ensures forall d :: d in totals ==> totals[d] >= 1
  {
    DatesHaveKeys(rows);
    map d | d in Dates(rows) :: |KeysOn(rows, d)|
  }

  /** The (date, label) group key of every row, in row order. */
  function GroupKeys(rows: seq<Row>): seq<GroupKey>
    requires AllDated(rows)
  {
    seq(|rows|, k requires 0 <= k < |rows| => (rows[k].collectionDate.value, rows[k].mutationLabel))
  }

  /** `n_with_mut / n_sequences`, missing when the denominator is missing or zero. */
  function Frequency(nWithMut: nat, nSequences: Option<nat>): (f: Option<real>)
    ensures f.Some? <==> nSequences.Some? && nSequences.value != 0
    ensures f.Some? ==> f.value * nSequences.value as real == nWithMut as real
    ensures f.Some? && 1 <= nWithMut <= nSequences.value ==> 0.0 < f.value <= 1.0
  {
    if nSequences.Some? && nSequences.value != 0 then Some(nWithMut as real / nSequences.value as real) else None
  }

  /** One row of `day_mut` left-joined with `day_totals`, with its frequency. */
  function JoinRow(rows: seq<Row>, totals: map<Day, nat>, g: GroupKey): (r: FreqRow)
    ensures r.date == g.0 && r.mutationLabel == g.1 && r.nWithMut == |KeysWith(rows, g.0, g.1)|
    ensures g.0 in totals ==> r.nSequences == Some(totals[g.0])
    ensures g.0 !in totals ==> r.nSequences.None? && r.freq.None?
    ensures r.freq.Some? <==> r.nSequences.Some? && r.nSequences.value != 0
    ensures r.freq.Some? ==> r.freq.value * r.nSequences.value as real == r.nWithMut as real
  {
    var nWithMut := |KeysWith(rows, g.0, g.1)|;
    var nSequences := if g.0 in totals then Some(totals[g.0]) else None;
    FreqRow(g.0, g.1, nWithMut, nSequences, Frequency(nWithMut, nSequences))
  }

  /** `merged`: one row per (date, label) group of the dated rows. */
  function Merged(rows: seq<Row>): (merged: seq<FreqRow>)
    requires AllDated(rows)
    ensures |merged| <= |rows|
    ensures forall k :: 0 <= k < |merged| ==> (merged[k].date, merged[k].mutationLabel) in GroupKeys(rows)
  {
    var groups := Distinct(GroupKeys(rows));
    var totals := DayTotals(rows);
    seq(|groups|, k requires 0 <= k < |groups| => JoinRow(rows, totals, groups[k]))
  }

  /** `merged.groupby("label")["n_with_mut"].sum()` for one label. */
  function LabelTotal(rows: seq<FreqRow>, l: string): (total: nat)
    ensures (forall k :: 0 <= k < |rows| ==> rows[k].mutationLabel != l) ==> total == 0
    ensures forall k :: 0 <= k < |rows| && rows[k].mutationLabel == l ==> rows[k].nWithMut <= total
  {
    if rows == [] then 0
    else
      assert forall k :: 1 <= k < |rows| ==> rows[1..][k - 1] == rows[k];
      (if rows[0].mutationLabel == l then rows[0].nWithMut else 0) + LabelTotal(rows[1..], l)
  }

  /** `merged[merged["label"].isin(keep)]`: the rows whose label totals at least `minCount`. */
  function KeepFrequent(merged: seq<FreqRow>, minCount: int): (kept: seq<FreqRow>)
    ensures |kept| <= |merged|
    ensures forall x :: x in kept <==> x in merged && LabelTotal(merged, x.mutationLabel) >= minCount
  {
    Filter(merged, (r: FreqRow) => LabelTotal(merged, r.mutationLabel) >= minCount)
  }

  /** The order of `sort_values(["label", "date"])`. */
  predicate RowLe(x: FreqRow, y: FreqRow)
  {
    (StrLe(x.mutationLabel, y.mutationLabel) && x.mutationLabel != y.mutationLabel)
    || (x.mutationLabel == y.mutationLabel && x.date <= y.date)
  }

  predicate RowLt(x: FreqRow, y: FreqRow)
  {
    (StrLe(x.mutationLabel, y.mutationLabel) && x.mutationLabel != y.mutationLabel)
    || (x.mutationLabel == y.mutationLabel && x.date < y.date)
  }

  predicate Sorted(s: seq<FreqRow>)
  {
    forall i, j :: 0 <= i < j < |s| ==> RowLe(s[i], s[j])
  }

  function Insert(x: FreqRow, s: seq<FreqRow>): (r: seq<FreqRow>)
    ensures multiset(r) == multiset(s) + multiset{x}
  {
    if s == [] || RowLe(x, s[0]) then [x] + s
    else
      assert s == [s[0]] + s[1..];
      [s[0]] + Insert(x, s[1..])
  }

  /** `sort_values(["label", "date"])`. */
  function SortRows(s: seq<FreqRow>): (r: seq<FreqRow>)
    ensures multiset(r) == multiset(s)
    ensures Sorted(r)
  {
    if s == [] then []
    else
      assert s == [s[0]] + s[1..];
      InsertSorted(s[0], SortRows(s[1..]));
      Insert(s[0], SortRows(s[1..]))
  }

  /** What stage 2 writes to `mutation_freq_by_day.csv`. */
  function Trends(longTable: seq<Row>, minCount: int): (out: seq<FreqRow>)
    ensures |out| <= |longTable|
    ensures Sorted(out)
    ensures forall x :: x in out ==> x in Merged(DropUndated(longTable))
  {
    var merged := Merged(DropUndated(longTable));
    var kept := KeepFrequent(merged, minCount);
    var out := SortRows(kept);
    assert |out| == |multiset(out)| == |multiset(kept)| == |kept|;
    assert forall x :: x in out ==> x in multiset(kept);
    out
  }

  // ---------------------------------------------------------------------------
  // The sort

  lemma RowLeTotal(x: FreqRow, y: FreqRow)
    ensures RowLe(x, y) || RowLe(y, x)
  {
    StrLeTotal(x.mutationLabel, y.mutationLabel);
  }

  lemma RowLeTransitive(x: FreqRow, y: FreqRow, z: FreqRow)
    requires RowLe(x, y) && RowLe(y, z)
    ensures RowLe(x, z)
  {
    StrLeTransitive(x.mutationLabel, y.mutationLabel, z.mutationLabel);
    StrLeAntisymmetric(x.mutationLabel, z.mutationLabel);
    StrLeAntisymmetric(x.mutationLabel, y.mutationLabel);
  }

  lemma {:induction false} InsertSorted(x: FreqRow, s: seq<FreqRow>)
    requires Sorted(s)
    ensures Sorted(Insert(x, s))
  {
    if s == [] || RowLe(x, s[0]) {
      var r := Insert(x, s);
      forall i, j | 0 <= i < j < |r| ensures RowLe(r[i], r[j]) {
        if i == 0 {
          RowLeTransitive(x, s[0], s[j - 1]);
        } else {
          assert r[i] == s[i - 1] && r[j] == s[j - 1];
        }
      }
    } else {
      RowLeTotal(x, s[0]);
      InsertSorted(x, s[1..]);
      var t := Insert(x, s[1..]);
      forall k | 0 <= k < |t| ensures RowLe(s[0], t[k]) {
        assert t[k] in multiset(t);
        assert t[k] == x || t[k] in s[1..];
      }
    }
  }

  lemma {:induction false} InsertNoDuplicates(x: FreqRow, s: seq<FreqRow>)
    requires NoDuplicates(s) && x !in s
    ensures NoDuplicates(Insert(x, s))
  {
    if !(s == [] || RowLe(x, s[0])) {
      InsertNoDuplicates(x, s[1..]);
      var t := Insert(x, s[1..]);
      assert s[0] !in s[1..];
      assert s[0] !in multiset(t);
    }
  }

  lemma {:induction false} SortRowsNoDuplicates(s: seq<FreqRow>)
    requires NoDuplicates(s)
    ensures NoDuplicates(SortRows(s))
  {
    if s != [] {
      SortRowsNoDuplicates(s[1..]);
      assert s[0] !in s[1..];
      assert s[0] !in multiset(SortRows(s[1..]));
      InsertNoDuplicates(s[0], SortRows(s[1..]));
    }
  }

  // ---------------------------------------------------------------------------
  // The counts and the join

  /** Some dated row has date `d` and label `l`. */
  predicate Occurs(rows: seq<Row>, d: Day, l: string)
  {
    exists r :: r in rows && r.collectionDate == Some(d) && r.mutationLabel == l
  }

  /** The row the pipeline produces for the group (d, l). */
  function ExpectedRow(rows: seq<Row>, d: Day, l: string): FreqRow
  {
    var nWithMut := |KeysWith(rows, d, l)|;
    var nSequences := |KeysOn(rows, d)|;
    FreqRow(d, l, nWithMut, Some(nSequences), Frequency(nWithMut, Some(nSequences)))
  }

  /** An occurring group counts at least one sample, and no more than its day's total. */
  lemma CountBounds(rows: seq<Row>, d: Day, l: string)
    requires Occurs(rows, d, l)
    ensures 1 <= |KeysWith(rows, d, l)| <= |KeysOn(rows, d)|
  {
    var r :| r in rows && r.collectionDate == Some(d) && r.mutationLabel == l;
    assert r.key in KeysWith(rows, d, l);
    SubsetCardinality(KeysWith(rows, d, l), KeysOn(rows, d));
  }

  lemma GroupKeysOccur(rows: seq<Row>, g: GroupKey)
    requires AllDated(rows)
    ensures g in GroupKeys(rows) <==> Occurs(rows, g.0, g.1)
  {
    if Occurs(rows, g.0, g.1) {
      var r :| r in rows && r.collectionDate == Some(g.0) && r.mutationLabel == g.1;
      var k :| 0 <= k < |rows| && rows[k] == r;
      assert GroupKeys(rows)[k] == g;
    }
  }

  /**
   * `merged` holds exactly one row per (date, label) occurring among the
   * dated rows, with the distinct-key counts and a defined frequency.
   */
  lemma MergedRows(rows: seq<Row>, x: FreqRow)
    requires AllDated(rows)
    ensures x in Merged(rows) <==> Occurs(rows, x.date, x.mutationLabel) && x == ExpectedRow(rows, x.date, x.mutationLabel)
    ensures NoDuplicates(Merged(rows))
  {
    var groups := Distinct(GroupKeys(rows));
    var merged := Merged(rows);
    forall k | 0 <= k < |groups|
      ensures Occurs(rows, groups[k].0, groups[k].1)
      ensures merged[k] == ExpectedRow(rows, groups[k].0, groups[k].1)
    {
      var g := groups[k];
      GroupKeysOccur(rows, g);
      var r :| r in rows && r.collectionDate == Some(g.0) && r.mutationLabel == g.1;
      assert g.0 in Dates(rows);
    }
    if Occurs(rows, x.date, x.mutationLabel) && x == ExpectedRow(rows, x.date, x.mutationLabel) {
      GroupKeysOccur(rows, (x.date, x.mutationLabel));
      var k :| 0 <= k < |groups| && groups[k] == (x.date, x.mutationLabel);
      assert merged[k] == x;
    }
  }

  // ---------------------------------------------------------------------------
  // The label filter

  lemma {:induction false} LabelTotalPositive(rows: seq<FreqRow>, k: nat)
    requires k < |rows| && rows[k].nWithMut >= 1
    ensures LabelTotal(rows, rows[k].mutationLabel) >= 1
  {
    if k > 0 {
      LabelTotalPositive(rows[1..], k - 1);
    }
  }

  // ---------------------------------------------------------------------------
  // Properties of the output

  /**
   * A row is in the output exactly when its (date, label) occurs among the
   * dated rows, its label's total is at least `minCount`, and it carries the
   * distinct-key counts of that group and day with their ratio.
   */
  lemma TrendsRows(longTable: seq<Row>, minCount: int, x: FreqRow)
    ensures var dated := DropUndated(longTable);
      x in Trends(longTable, minCount) <==>
        && Occurs(dated, x.date, x.mutationLabel)
        && LabelTotal(Merged(dated), x.mutationLabel) >= minCount
        && x == ExpectedRow(dated, x.date, x.mutationLabel)
  {
    var dated := DropUndated(longTable);
    var kept := KeepFrequent(Merged(dated), minCount);
    MergedRows(dated, x);
    assert x in Trends(longTable, minCount) <==> x in multiset(kept);
  }

  /** Every output row has `1 <= n_with_mut <= n_sequences` and a frequency in (0, 1]. */
  lemma TrendsFrequencies(longTable: seq<Row>, minCount: int)
    ensures forall x :: x in Trends(longTable, minCount) ==>
      && x.nSequences.Some? && 1 <= x.nWithMut <= x.nSequences.value
      && x.freq.Some? && 0.0 < x.freq.value <= 1.0
  {
    var dated := DropUndated(longTable);
    forall x | x in Trends(longTable, minCount)
      ensures x.nSequences.Some? && 1 <= x.nWithMut <= x.nSequences.value
      ensures x.freq.Some? && 0.0 < x.freq.value <= 1.0
    {
      TrendsRows(longTable, minCount, x);
      CountBounds(dated, x.date, x.mutationLabel);
    }
  }

  /** The output is strictly ascending by (label, date): sorted, one row per pair. */
  lemma TrendsSorted(longTable: seq<Row>, minCount: int)
    ensures var out := Trends(longTable, minCount);
      forall i, j :: 0 <= i < j < |out| ==> RowLt(out[i], out[j])
  {
    var dated := DropUndated(longTable);
    var merged := Merged(dated);
    var kept := KeepFrequent(merged, minCount);
    var out := Trends(longTable, minCount);
    MergedRows(dated, FreqRow(0, [], 0, None, None));
    FilterNoDuplicates(merged, (r: FreqRow) => LabelTotal(merged, r.mutationLabel) >= minCount);
    SortRowsNoDuplicates(kept);
    forall i, j | 0 <= i < j < |out| ensures RowLt(out[i], out[j]) {
      TrendsRows(longTable, minCount, out[i]);
      TrendsRows(longTable, minCount, out[j]);
    }
  }

  /**
   * A label that occurs keeps all its rows when its total over all dates
   * reaches `minCount` (inclusive) and loses all of them otherwise.
   */
  lemma LabelKeptIff(longTable: seq<Row>, minCount: int, d: Day, l: string)
    requires Occurs(DropUndated(longTable), d, l)
    ensures var dated := DropUndated(longTable);
      ExpectedRow(dated, d, l) in Trends(longTable, minCount) <==> LabelTotal(Merged(dated), l) >= minCount
    ensures var dated := DropUndated(longTable);
      (exists x :: x in Trends(longTable, minCount) && x.mutationLabel == l) <==> LabelTotal(Merged(dated), l) >= minCount
  {
    var dated := DropUndated(longTable);
    TrendsRows(longTable, minCount, ExpectedRow(dated, d, l));
    if exists x :: x in Trends(longTable, minCount) && x.mutationLabel == l {
      var x :| x in Trends(longTable, minCount) && x.mutationLabel == l;
      TrendsRows(longTable, minCount, x);
    }
  }

  /** With `minCount <= 1` the filter drops nothing: every label totals at least 1. */
  lemma SmallMinCountKeepsAll(longTable: seq<Row>, minCount: int)
    requires minCount <= 1
    ensures var merged := Merged(DropUndated(longTable));
      KeepFrequent(merged, minCount) == merged && Trends(longTable, minCount) == SortRows(merged)
  {
    var dated := DropUndated(longTable);
    var merged := Merged(dated);
    var p := (r: FreqRow) => LabelTotal(merged, r.mutationLabel) >= minCount;
    forall k | 0 <= k < |merged| ensures p(merged[k]) {
      MergedRows(dated, merged[k]);
      CountBounds(dated, merged[k].date, merged[k].mutationLabel);
      LabelTotalPositive(merged, k);
    }
    FilterKeepsAll(merged, p);
  }

  /** Rows without a collection date are dropped before anything is counted. */
  lemma UndatedRowsChangeNothing(before: seq<Row>, undated: seq<Row>, after: seq<Row>, minCount: int)
    requires forall k :: 0 <= k < |undated| ==> !IsDated(undated[k])
    ensures Trends(before + undated + after, minCount) == Trends(before + after, minCount)
  {
    FilterSkips(before, undated, after, IsDated);
  }

  /**
   * The denominator is taken from the long table: a sample in which no
   * substitution is found is invisible to stage 2, whatever its date.
   */
  lemma MutationFreeSampleNotCounted(reference: string, before: seq<SeqRecord>, rec: SeqRecord, after: seq<SeqRecord>,
                                     view: seq<MetaRow>, align: Aligner, minCount: int)
    requires AlignedEvents(align, reference, rec.sequence) == Ok([])
    ensures Trends(LongRows(reference, before + [rec] + after, view, align), minCount)
         == Trends(LongRows(reference, before + after, view, align), minCount)
  {
    MutationFreeSampleAddsNothing(reference, before, rec, after, view, align);
  }
}
