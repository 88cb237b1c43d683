/**
 * Stage 1 of the pipeline (scripts/call_mutations.py): walk each sample's
 * alignment against the reference, emit single-base substitutions in
 * reference coordinates, and assemble the long table of mutation events,
 * one row per event, tagged with the sample's key and collection date.
 */
module CallMutations {
  import opened Wrappers
  import Decimal
  import Tables

  /** The gap symbol the aligner writes into either aligned string. */
  const Gap: char := '-'

  /** A calendar day, abstracted to a number that orders days chronologically. */
  type Day = int

  /** One substitution: 1-based reference position, reference base, query base. */
  datatype Mutation = Mutation(pos: nat, refBase: char, altBase: char)

  /** The two aligned strings of the aligner's first alignment (its score and span are unused). */
  datatype Alignment = Alignment(alnRef: string, alnQry: string)

  /**
   * The global aligner, `pairwise2.align.globalms(ref, query, 2, -1, -2, -0.5,
   * one_alignment_only=True)`, taken as given: the list of alignments it
   * returns, which is empty when it finds none (an empty sequence, say).
   */
  type Aligner = (string, string) -> seq<Alignment>

  // ---------------------------------------------------------------------------
  // The column walk

  /** Number of non-gap characters in `s`. */
  function NonGaps(s: string): (n: nat)
    ensures n <= |s|
  {
    if s == [] then 0 else (if s[0] != Gap then 1 else 0) + NonGaps(s[1..])
  }

  /** A column is reported when neither side is a gap and the two bases differ. */
  predicate Emits(r: char, q: char)
  {
    r != Gap && q != Gap && r != q
  }

  /**
   * The events of the columns of `r` and `q` (zipped, so the shorter string
   * ends the walk), when `start` reference bases precede the first column.
   */
  function Walk(r: string, q: string, start: nat): (w: seq<Mutation>)
    ensures |w| <= Columns(r, q)
    ensures forall m :: m in w ==> Emits(m.refBase, m.altBase) && start < m.pos
    decreases |r|
  {
    if r == [] || q == [] then []
    else
      var p := start + (if r[0] != Gap then 1 else 0);
      (if Emits(r[0], q[0]) then [Mutation(p, r[0], q[0])] else []) + Walk(r[1..], q[1..], p)
  }

  /** Number of columns `zip` walks: the length of the shorter string. */
  function Columns(r: string, q: string): nat
  {
    if |r| < |q| then |r| else |q|
  }

  /** The substitutions of one alignment, in column order. */
  function Extract(aln: Alignment): (muts: seq<Mutation>)
    ensures |muts| <= Columns(aln.alnRef, aln.alnQry)
    ensures forall m :: m in muts ==> Emits(m.refBase, m.altBase) && m.pos >= 1
  {
    Walk(aln.alnRef, aln.alnQry, 0)
  }

  lemma {:induction false} NonGapsAppend(a: string, b: string)
    ensures NonGaps(a + b) == NonGaps(a) + NonGaps(b)
  {
    if a != [] {
      assert (a + b)[0] == a[0];
      assert (a + b)[1..] == a[1..] + b;
      NonGapsAppend(a[1..], b);
    } else {
      assert a + b == b;
    }
  }

  lemma {:induction false} NonGapsOfGaps(g: string)
    requires forall k :: 0 <= k < |g| ==> g[k] == Gap
    ensures NonGaps(g) == 0
  {
    if g != [] {
      NonGapsOfGaps(g[1..]);
    }
  }

  lemma {:induction false} NonGapsOfGapFree(s: string)
    requires forall k :: 0 <= k < |s| ==> s[k] != Gap
    ensures NonGaps(s) == |s|
  {
    if s != [] {
      NonGapsOfGapFree(s[1..]);
    }
  }

  /** Walking two stretches of columns one after the other. */
  lemma {:induction false} WalkAppend(a1: string, a2: string, b1: string, b2: string, start: nat)
    requires |a1| == |b1|
    ensures Walk(a1 + a2, b1 + b2, start) == Walk(a1, b1, start) + Walk(a2, b2, start + NonGaps(a1))
  {
    if a1 != [] {
      assert (a1 + a2)[0] == a1[0] && (b1 + b2)[0] == b1[0];
      assert (a1 + a2)[1..] == a1[1..] + a2;
      assert (b1 + b2)[1..] == b1[1..] + b2;
      var p := start + (if a1[0] != Gap then 1 else 0);
      WalkAppend(a1[1..], a2, b1[1..], b2, p);
    } else {
      assert a1 + a2 == a2 && b1 + b2 == b2;
    }
  }

  /** `zip` stops at the shorter string: columns past it contribute nothing. */
  lemma WalkTruncates(r: string, q: string, start: nat)
    ensures Walk(r, q, start) == Walk(r[..Columns(r, q)], q[..Columns(r, q)], start)
  {
    var n := Columns(r, q);
    assert r == r[..n] + r[n..];
    assert q == q[..n] + q[n..];
    WalkAppend(r[..n], r[n..], q[..n], q[n..], start);
  }

  /** Extending the walk by one column. */
  lemma WalkStep(r: string, q: string, i: nat)
    requires i < |r| && i < |q|
    ensures NonGaps(r[..i + 1]) == NonGaps(r[..i]) + (if r[i] != Gap then 1 else 0)
    ensures Walk(r[..i + 1], q[..i + 1], 0) == Walk(r[..i], q[..i], 0)
      + (if Emits(r[i], q[i]) then [Mutation(NonGaps(r[..i + 1]), r[i], q[i])] else [])
  {
    assert r[..i + 1] == r[..i] + [r[i]];
    assert q[..i + 1] == q[..i] + [q[i]];
    NonGapsAppend(r[..i], [r[i]]);
    WalkAppend(r[..i], [r[i]], q[..i], [q[i]], 0);
  }

  /**
   * The events of the first alignment of `query` against `reference`; taking
   * `alns[0]` of an empty list raises `IndexError`.
   */
  function AlignedEvents(align: Aligner, reference: string, query: string): (r: Result<seq<Mutation>, Error>)
    ensures r.Err? <==> align(reference, query) == []
    ensures r.Err? ==> r.error == NoAlignment
    ensures r.Ok? ==> r.value == Extract(align(reference, query)[0])
  {
    var alns := align(reference, query);
    if alns == [] then Err(NoAlignment) else Ok(Extract(alns[0]))
  }

  /** `align_and_mutations`: align, then walk the columns of the first alignment keeping the reference coordinate. */
  method AlignAndMutations(align: Aligner, refSeq: string, querySeq: string) returns (r: Result<seq<Mutation>, Error>)
    ensures r == AlignedEvents(align, refSeq, querySeq)
  {
    var alns := align(refSeq, querySeq);
    if |alns| == 0 {
      return Err(NoAlignment);
    }
    var aln := alns[0];
    var alnRef, alnQry := aln.alnRef, aln.alnQry;
    var mutations := [];
    var refPos: nat := 0;
    var n := Columns(alnRef, alnQry);
    for i := 0 to n
      invariant refPos == NonGaps(alnRef[..i])
      invariant mutations == Walk(alnRef[..i], alnQry[..i], 0)
    {
      WalkStep(alnRef, alnQry, i);
      var r, q := alnRef[i], alnQry[i];
      if r != Gap {
        refPos := refPos + 1;
      }
      if r == Gap || q == Gap {
        continue;
      }
      if r != q {
        mutations := mutations + [Mutation(refPos, r, q)];
      }
    }
    WalkTruncates(alnRef, alnQry, 0);
    r := Ok(mutations);
  }

  // ---------------------------------------------------------------------------
  // Properties of the walk

  /** Counting the reference bases of a prefix starting from its first column. */
  lemma NonGapsPrefix(r: string, n: nat)
    requires 1 <= n <= |r|
    ensures NonGaps(r[..n]) == (if r[0] != Gap then 1 else 0) + NonGaps(r[1..][..n - 1])
  {
    assert r[..n][1..] == r[1..][..n - 1];
  }

  /** The walk on non-empty strings: the first column's event, then the rest. */
  lemma WalkUnfold(r: string, q: string, start: nat)
    requires r != [] && q != []
    ensures var p := start + (if r[0] != Gap then 1 else 0);
      Walk(r, q, start) == (if Emits(r[0], q[0]) then [Mutation(p, r[0], q[0])] else []) + Walk(r[1..], q[1..], p)
  {
  }

  /** Every emitting column yields its event. */
  lemma {:induction false} WalkEmitsColumn(r: string, q: string, start: nat, i: nat)
    requires i < |r| && i < |q| && Emits(r[i], q[i])
    ensures Mutation(start + NonGaps(r[..i + 1]), r[i], q[i]) in Walk(r, q, start)
  {
    var p := start + (if r[0] != Gap then 1 else 0);
    WalkUnfold(r, q, start);
    NonGapsPrefix(r, i + 1);
    if i > 0 {
      WalkEmitsColumn(r[1..], q[1..], p, i - 1);
    }
  }

  /** Every event comes from an emitting column. */
  lemma {:induction false} WalkEventColumn(r: string, q: string, start: nat, m: Mutation)
    requires m in Walk(r, q, start)
    ensures exists i :: (0 <= i < |r| && i < |q| && Emits(r[i], q[i])
      && m == Mutation(start + NonGaps(r[..i + 1]), r[i], q[i]))
  {
    var p := start + (if r[0] != Gap then 1 else 0);
    WalkUnfold(r, q, start);
    NonGapsPrefix(r, 1);
    if !(Emits(r[0], q[0]) && m == Mutation(p, r[0], q[0])) {
      WalkEventColumn(r[1..], q[1..], p, m);
      var i :| 0 <= i < |r[1..]| && i < |q[1..]| && Emits(r[1..][i], q[1..][i])
        && m == Mutation(p + NonGaps(r[1..][..i + 1]), r[1..][i], q[1..][i]);
      NonGapsPrefix(r, i + 2);
      assert Emits(r[i + 1], q[i + 1]) && m == Mutation(start + NonGaps(r[..i + 2]), r[i + 1], q[i + 1]);
    }
  }

  /**
   * An event is emitted exactly for each column where both sides are bases
   * and differ; its position is the number of reference bases up to and
   * including that column.
   */
  lemma {:induction false} WalkColumns(r: string, q: string, start: nat, m: Mutation)
    ensures m in Walk(r, q, start) <==>
      exists i :: 0 <= i < |r| && i < |q| && Emits(r[i], q[i])
        && m == Mutation(start + NonGaps(r[..i + 1]), r[i], q[i])
  {
    if m in Walk(r, q, start) {
      WalkEventColumn(r, q, start, m);
    }
    if exists i :: (0 <= i < |r| && i < |q| && Emits(r[i], q[i])
      && m == Mutation(start + NonGaps(r[..i + 1]), r[i], q[i]))
    {
      var i :| 0 <= i < |r| && i < |q| && Emits(r[i], q[i])
        && m == Mutation(start + NonGaps(r[..i + 1]), r[i], q[i]);
      WalkEmitsColumn(r, q, start, i);
    }
  }

  /** Emitted positions lie in `start + 1 .. start + (reference bases walked)`. */
  lemma {:induction false} WalkBounds(r: string, q: string, start: nat)
    ensures forall k :: 0 <= k < |Walk(r, q, start)| ==>
      start < Walk(r, q, start)[k].pos <= start + NonGaps(r[..Columns(r, q)])
  {
    if r != [] && q != [] {
      var p := start + (if r[0] != Gap then 1 else 0);
      var n := Columns(r, q);
      assert Columns(r[1..], q[1..]) == n - 1;
      WalkBounds(r[1..], q[1..], p);
      NonGapsPrefix(r, n);
      WalkUnfold(r, q, start);
      var head := if Emits(r[0], q[0]) then [Mutation(p, r[0], q[0])] else [];
      var tail := Walk(r[1..], q[1..], p);
      var w := Walk(r, q, start);
      forall k | 0 <= k < |w|
        ensures start < w[k].pos <= start + NonGaps(r[..n])
      {
        if k >= |head| { assert w[k] == tail[k - |head|]; }
      }
    }
  }

  /** Positions strictly increase along `w`. */
  predicate Increasing(w: seq<Mutation>)
  {
    forall j, k :: 0 <= j < k < |w| ==> w[j].pos < w[k].pos
  }

  lemma IncreasingPrepend(m: Mutation, t: seq<Mutation>)
    requires Increasing(t)
    requires forall k :: 0 <= k < |t| ==> m.pos < t[k].pos
    ensures Increasing([m] + t)
  {
    var w := [m] + t;
    forall j, k | 0 <= j < k < |w| ensures w[j].pos < w[k].pos {
      assert w[k] == t[k - 1];
      if j > 0 { assert w[j] == t[j - 1]; }
    }
  }

  /** Emitted positions are strictly increasing. */
  lemma {:induction false} WalkIncreasing(r: string, q: string, start: nat)
    ensures Increasing(Walk(r, q, start))
  {
    if r != [] && q != [] {
      var p := start + (if r[0] != Gap then 1 else 0);
      var tail := Walk(r[1..], q[1..], p);
      WalkIncreasing(r[1..], q[1..], p);
      WalkBounds(r[1..], q[1..], p);
      WalkUnfold(r, q, start);
      if Emits(r[0], q[0]) {
        IncreasingPrepend(Mutation(p, r[0], q[0]), tail);
      } else {
        assert Walk(r, q, start) == tail;
      }
    }
  }

  /** Every event of an alignment has a position in `1 .. (reference bases in the walked columns)`. */
  lemma ExtractPositions(aln: Alignment)
    ensures forall j, k :: 0 <= j < k < |Extract(aln)| ==> Extract(aln)[j].pos < Extract(aln)[k].pos
    ensures forall k :: 0 <= k < |Extract(aln)| ==>
      1 <= Extract(aln)[k].pos <= NonGaps(aln.alnRef[..Columns(aln.alnRef, aln.alnQry)])
  {
    WalkBounds(aln.alnRef, aln.alnQry, 0);
    WalkIncreasing(aln.alnRef, aln.alnQry, 0);
    assert Increasing(Extract(aln));
  }

  /**
   * For a gap-free alignment of two equal-length strings, the events are
   * exactly the 1-based positions where the strings differ.
   */
  lemma GapFreeMismatches(r: string, q: string, m: Mutation)
    requires |r| == |q|
    requires forall k :: 0 <= k < |r| ==> r[k] != Gap && q[k] != Gap
    ensures m in Extract(Alignment(r, q)) <==>
      exists i :: 0 <= i < |r| && r[i] != q[i] && m == Mutation(i + 1, r[i], q[i])
  {
    WalkColumns(r, q, 0, m);
    forall k | 1 <= k <= |r|
      ensures NonGaps(r[..k]) == k
    {
      NonGapsOfGapFree(r[..k]);
    }
  }

  /**
   * Columns that are a gap in the reference (an insertion in the query) do
   * not shift the positions reported for any other column.
   */
  lemma {:induction false} InsertionShiftsNothing(r1: string, r2: string, q1: string, q2: string, g: string, ins: string)
    requires |r1| == |q1| && |g| == |ins|
    requires forall k :: 0 <= k < |g| ==> g[k] == Gap
    ensures Extract(Alignment(r1 + g + r2, q1 + ins + q2)) == Extract(Alignment(r1 + r2, q1 + q2))
  {
    var n := NonGaps(r1);
    WalkAppend(r1 + g, r2, q1 + ins, q2, 0);
    WalkAppend(r1, g, q1, ins, 0);
    WalkAppend(r1, r2, q1, q2, 0);
    NonGapsAppend(r1, g);
    NonGapsOfGaps(g);
    WalkOfGaps(g, ins, n);
    assert Walk(r1 + g, q1 + ins, 0) == Walk(r1, q1, 0);
    assert NonGaps(r1 + g) == n;
  }

  lemma {:induction false} WalkOfGaps(g: string, ins: string, start: nat)
    requires forall k :: 0 <= k < |g| ==> g[k] == Gap
    ensures Walk(g, ins, start) == []
  {
    if g != [] && ins != [] {
      WalkOfGaps(g[1..], ins[1..], start);
    }
  }

  // ---------------------------------------------------------------------------
  // Labels

  /** The label `f"{ref_base}{pos}{alt_base}"`. */
  function Label(m: Mutation): (s: string)
    ensures |s| >= 3 && s[0] == m.refBase && s[|s| - 1] == m.altBase
    ensures Decimal.IsCanonical(s[1..|s| - 1]) && Decimal.Value(s[1..|s| - 1]) == m.pos
  {
    Decimal.ValueOfShow(m.pos);
    assert ([m.refBase] + Decimal.Show(m.pos) + [m.altBase])[1..|Decimal.Show(m.pos)| + 1] == Decimal.Show(m.pos);
    [m.refBase] + Decimal.Show(m.pos) + [m.altBase]
  }

  /** Reads a label back: first character, canonical decimal middle, last character. */
  function ParseLabel(s: string): Option<Mutation>
  {
    if |s| >= 3 && Decimal.IsCanonical(s[1..|s| - 1]) then
      Some(Mutation(Decimal.Value(s[1..|s| - 1]), s[0], s[|s| - 1]))
    else
      None
  }

  /** A label determines its event and the event its label. */
  lemma LabelRoundTrip(m: Mutation, s: string)
    ensures ParseLabel(s) == Some(m) <==> Label(m) == s
  {
    var digits := Decimal.Show(m.pos);
    Decimal.ShowIsBijective(m.pos, digits);
    if Label(m) == s {
      assert s[1..|s| - 1] == digits;
    }
    if ParseLabel(s) == Some(m) {
      Decimal.ShowIsBijective(m.pos, s[1..|s| - 1]);
      assert s == [s[0]] + s[1..|s| - 1] + [s[|s| - 1]];
    }
  }

  lemma LabelInjective(m1: Mutation, m2: Mutation)
    ensures Label(m1) == Label(m2) ==> m1 == m2
  {
    LabelRoundTrip(m1, Label(m1));
    LabelRoundTrip(m2, Label(m1));
  }

  // ---------------------------------------------------------------------------
  // Metadata (`load_metadata`)

  /** A CSV table as read: a header and rows of cells. */
  datatype Table = Table(header: seq<string>, rows: seq<seq<string>>)

  /** Every row has one cell per header column, as the CSV reader produces. */
  predicate WellFormed(t: Table)
  {
    forall i :: 0 <= i < |t.rows| ==> |t.rows[i]| == |t.header|
  }

  /** The outcome of `dtparse` followed by `pd.to_datetime(errors="coerce")` on one cell. */
  datatype DateCell =
    | Unparseable                 // dtparse raised
    | Parsed(day: Option<Day>)    // None: coerced to NaT

  /** The date parser, taken as given. */
  type DateParser = string -> DateCell

  /** The normalized metadata view `meta[["key", "collection_date"]]`. */
  datatype MetaRow = MetaRow(key: string, collectionDate: Option<Day>)

  datatype Error =
    | NoSequences        // "No sequences found in FASTA."
    | NoDateColumn       // "Metadata must include a collection date column."
    | UnparseableDate    // dtparse raised on a date cell
    | NoAlignment        // `alns[0]` of an empty alignment list

  const DateCandidates: seq<string> := ["collection_date", "date", "Collection_Date", "sample_date"]
  const KeyCandidates: seq<string> := ["accession", "Accession", "id", "ID", "strain"]

  /** The first candidate that names a column of `header`, if any. */
  function FirstPresentSpec(candidates: seq<string>, header: seq<string>): (r: Option<string>)
    ensures r.Some? ==> r.value in header
  {
    if candidates == [] then None
    else if candidates[0] in header then Some(candidates[0])
    else FirstPresentSpec(candidates[1..], header)
  }

  /** The chosen column is the earliest candidate present; there is none only if no candidate is present. */
  lemma {:induction false} FirstPresentIsFirst(candidates: seq<string>, header: seq<string>)
    ensures FirstPresentSpec(candidates, header).None? <==>
      forall k :: 0 <= k < |candidates| ==> candidates[k] !in header
    ensures FirstPresentSpec(candidates, header).Some? ==>
      exists k :: 0 <= k < |candidates| && candidates[k] == FirstPresentSpec(candidates, header).value
        && forall j :: 0 <= j < k ==> candidates[j] !in header
  {
    if candidates != [] && candidates[0] !in header {
      var rest := candidates[1..];
      FirstPresentIsFirst(rest, header);
      assert FirstPresentSpec(candidates, header) == FirstPresentSpec(rest, header);
      if FirstPresentSpec(rest, header).Some? {
        var v := FirstPresentSpec(rest, header).value;
        var k :| 0 <= k < |rest| && rest[k] == v && forall j :: 0 <= j < k ==> rest[j] !in header;
        assert candidates[k + 1] == v;
        assert forall j :: 0 <= j < k + 1 ==> candidates[j] !in header by {
          forall j | 0 <= j < k + 1 ensures candidates[j] !in header {
            if j > 0 { assert candidates[j] == rest[j - 1]; }
          }
        }
      } else {
        forall k | 0 <= k < |candidates| ensures candidates[k] !in header {
          if k > 0 { assert candidates[k] == candidates[1..][k - 1]; }
        }
      }
    }
  }

  /** The candidate scan with `break`. */
  method FirstPresent(candidates: seq<string>, header: seq<string>) returns (found: Option<string>)
    ensures found == FirstPresentSpec(candidates, header)
  {
    found := None;
    for k := 0 to |candidates|
      invariant FirstPresentSpec(candidates, header) == FirstPresentSpec(candidates[k..], header)
    {
      assert candidates[k..][1..] == candidates[k + 1..];
      if candidates[k] in header {
        found := Some(candidates[k]);
        break;
      }
    }
  }

  /** Position of the column called `name` (the first one if the name repeats). */
  function ColumnIndex(header: seq<string>, name: string): (i: nat)
    requires name in header
    ensures i < |header| && header[i] == name
    ensures forall j :: 0 <= j < i ==> header[j] != name
  {
    if header[0] == name then 0 else 1 + ColumnIndex(header[1..], name)
  }

  /**
   * The column that supplies the key: the first key candidate present, else
   * a column already called "key"; None means the row index is used.
   */
  function KeyColumn(header: seq<string>): (c: Option<string>)
    ensures c.Some? ==> c.value in header
    ensures c.None? <==> "key" !in header && forall k :: 0 <= k < |KeyCandidates| ==> KeyCandidates[k] !in header
    ensures (exists k :: 0 <= k < |KeyCandidates| && KeyCandidates[k] in header) ==> c.Some? && c.value in KeyCandidates
    ensures (exists k :: 0 <= k < |KeyCandidates| && KeyCandidates[k] in header) ==> c == FirstPresentSpec(KeyCandidates, header)
    ensures c == Some("key") <==> "key" in header && forall k :: 0 <= k < |KeyCandidates| ==> KeyCandidates[k] !in header
  {
    FirstPresentIsFirst(KeyCandidates, header);
    match FirstPresentSpec(KeyCandidates, header)
    case Some(col) => Some(col)
    case None => if "key" in header then Some("key") else None
  }

  /** The key of row `i`: its key-column cell, or `str(i)` when the index stands in. */
  function KeyOf(t: Table, i: nat): (key: string)
    requires WellFormed(t) && i < |t.rows|
    ensures KeyColumn(t.header).Some? ==>
      exists c :: 0 <= c < |t.header| && t.header[c] == KeyColumn(t.header).value && key == t.rows[i][c]
    ensures KeyColumn(t.header).None? ==> Decimal.IsCanonical(key) && Decimal.Value(key) == i
  {
    Decimal.ValueOfShow(i);
    match KeyColumn(t.header)
    case Some(col) => t.rows[i][ColumnIndex(t.header, col)]
    case None => Decimal.Show(i)
  }

  /** What `load_metadata` returns or raises. */
  function MetadataView(t: Table, parse: DateParser): (r: Result<seq<MetaRow>, Error>)
    requires WellFormed(t)
    ensures r == Err(NoDateColumn) <==> FirstPresentSpec(DateCandidates, t.header).None?
    ensures r.Err? ==> r.error == NoDateColumn || r.error == UnparseableDate
    ensures r.Ok? ==> |r.value| == |t.rows| && forall i :: 0 <= i < |r.value| ==> r.value[i].key == KeyOf(t, i)
  {
    match FirstPresentSpec(DateCandidates, t.header)
    case None => Err(NoDateColumn)
    case Some(dateCol) =>
      var di := ColumnIndex(t.header, dateCol);
      if exists i :: 0 <= i < |t.rows| && parse(t.rows[i][di]).Unparseable? then Err(UnparseableDate)
      else Ok(seq(|t.rows|, i requires 0 <= i < |t.rows| => MetaRow(KeyOf(t, i), parse(t.rows[i][di]).day)))
  }

  /** `load_metadata`: pick the date and key columns, then project the two-column view. */
  method LoadMetadata(t: Table, parse: DateParser) returns (r: Result<seq<MetaRow>, Error>)
    requires WellFormed(t)
    ensures r == MetadataView(t, parse)
  {
    var dateCol := FirstPresent(DateCandidates, t.header);
    if dateCol.None? {
      return Err(NoDateColumn);
    }
    var di := ColumnIndex(t.header, dateCol.value);
    if exists i :: 0 <= i < |t.rows| && parse(t.rows[i][di]).Unparseable? {
      assert MetadataView(t, parse) == Err(UnparseableDate);
      return Err(UnparseableDate);
    }
    var dates := seq(|t.rows|, i requires 0 <= i < |t.rows| => parse(t.rows[i][di]).day);
    var keyCol := FirstPresent(KeyCandidates, t.header);
    if keyCol.None? && "key" in t.header {
      keyCol := Some("key");
    }
    var keys: seq<string>;
    if keyCol.Some? {
      var ki := ColumnIndex(t.header, keyCol.value);
      keys := seq(|t.rows|, i requires 0 <= i < |t.rows| => t.rows[i][ki]);
    } else {
      keys := seq(|t.rows|, i requires 0 <= i < |t.rows| => Decimal.Show(i));
    }
    r := Ok(seq(|t.rows|, i requires 0 <= i < |t.rows| => MetaRow(keys[i], dates[i])));
    assert keyCol == KeyColumn(t.header);
    assert forall i :: 0 <= i < |t.rows| ==> keys[i] == KeyOf(t, i);
    assert dateCol == FirstPresentSpec(DateCandidates, t.header);
    var expected := seq(|t.rows|, i requires 0 <= i < |t.rows| => MetaRow(KeyOf(t, i), parse(t.rows[i][di]).day));
    assert MetadataView(t, parse) == Ok(expected);
    assert r.value == expected;
  }

  /**
   * `load_metadata` fails exactly when no date candidate is a column or a date
   * cell cannot be parsed; otherwise it keeps one row per metadata row, dated
   * from the first date candidate present and keyed by the first key
   * candidate present, an existing "key" column, or the row index.
   */
  lemma MetadataViewCases(t: Table, parse: DateParser)
    requires WellFormed(t)
    ensures MetadataView(t, parse) == Err(NoDateColumn) <==>
      forall k :: 0 <= k < |DateCandidates| ==> DateCandidates[k] !in t.header
    ensures FirstPresentSpec(DateCandidates, t.header).Some? ==>
      var di := ColumnIndex(t.header, FirstPresentSpec(DateCandidates, t.header).value);
      && (MetadataView(t, parse) == Err(UnparseableDate) <==>
            exists i :: 0 <= i < |t.rows| && parse(t.rows[i][di]).Unparseable?)
      && (MetadataView(t, parse).Ok? ==>
            var view := MetadataView(t, parse).value;
            |view| == |t.rows| && forall i :: 0 <= i < |view| ==> parse(t.rows[i][di]) == Parsed(view[i].collectionDate))
    ensures MetadataView(t, parse).Ok? ==>
      var view := MetadataView(t, parse).value;
      forall i :: 0 <= i < |view| ==>
        view[i].key == (if KeyColumn(t.header).Some? then t.rows[i][ColumnIndex(t.header, KeyColumn(t.header).value)]
                        else Decimal.Show(i))
  {
    FirstPresentIsFirst(DateCandidates, t.header);
  }

  // ---------------------------------------------------------------------------
  // Row assembly (`main`)

  /** A FASTA record: identifier and sequence. */
  datatype SeqRecord = SeqRecord(id: string, sequence: string)

  /** One row of the long table. */
  datatype Row = Row(key: string, collectionDate: Option<Day>, pos: nat, refBase: char, altBase: char, mutationLabel: string)

  /** `meta.loc[meta["key"] == key]` then the first hit's date, NaT when there is no hit. */
  function LookupDate(view: seq<MetaRow>, key: string): (d: Option<Day>)
    ensures NoKeyBefore(view, key, |view|) ==> d == None
    ensures forall i :: 0 <= i < |view| && view[i].key == key && NoKeyBefore(view, key, i) ==> d == view[i].collectionDate
  {
    if view == [] then None
    else if view[0].key == key then view[0].collectionDate
    else
      NoKeyBeforeTail(view, key);
      LookupDate(view[1..], key)
  }

  /** No row before index `i` has key `key`. */
  predicate NoKeyBefore(view: seq<MetaRow>, key: string, i: nat)
    requires i <= |view|
  {
    forall j :: 0 <= j < i ==> view[j].key != key
  }

  lemma NoKeyBeforeTail(view: seq<MetaRow>, key: string)
    requires view != [] && view[0].key != key
    ensures forall i :: 1 <= i <= |view| ==> (NoKeyBefore(view, key, i) <==> NoKeyBefore(view[1..], key, i - 1))
  {
    forall i | 1 <= i <= |view| ensures NoKeyBefore(view, key, i) <==> NoKeyBefore(view[1..], key, i - 1) {
      assert forall j :: 1 <= j < i ==> view[1..][j - 1] == view[j];
    }
  }

  function RowOf(key: string, date: Option<Day>, m: Mutation): Row
  {
    Row(key, date, m.pos, m.refBase, m.altBase, Label(m))
  }

  /** The rows of one sample: one per event, in event order. */
  function SampleRows(key: string, date: Option<Day>, muts: seq<Mutation>): seq<Row>
  {
    seq(|muts|, j requires 0 <= j < |muts| => RowOf(key, date, muts[j]))
  }

  /** The rows of one record: its events, keyed and dated (none when it cannot be aligned, which aborts the run). */
  function RecordRows(reference: string, rec: SeqRecord, view: seq<MetaRow>, align: Aligner): seq<Row>
  {
    match AlignedEvents(align, reference, rec.sequence)
    case Ok(muts) => SampleRows(rec.id, LookupDate(view, rec.id), muts)
    case Err(_) => []
  }

  /** Every record's sequence has an alignment against the reference. */
  predicate AllAligned(reference: string, records: seq<SeqRecord>, align: Aligner)
  {
    forall k :: 0 <= k < |records| ==> AlignedEvents(align, reference, records[k].sequence).Ok?
  }

  /** The rows of the given records, in record order. */
  function LongRows(reference: string, records: seq<SeqRecord>, view: seq<MetaRow>, align: Aligner): (rows: seq<Row>)
    ensures forall row :: row in rows <==>
      exists k :: 0 <= k < |records| && row in RecordRows(reference, records[k], view, align)
  {
    Tables.FlatMap(records, (rec: SeqRecord) => RecordRows(reference, rec, view, align))
  }

  /** What stage 1 writes to `mutations_long.csv`, or the error it raises. */
  function Catalog(records: seq<SeqRecord>, meta: Table, parse: DateParser, align: Aligner): (r: Result<seq<Row>, Error>)
    requires WellFormed(meta)
    ensures r == Err(NoSequences) <==> records == []
    ensures r.Ok? ==> MetadataView(meta, parse).Ok? && AllAligned(records[0].sequence, records, align)
  {
    if records == [] then Err(NoSequences)
    else
      match MetadataView(meta, parse)
      case Err(e) => Err(e)
      case Ok(view) =>
        if !AllAligned(records[0].sequence, records, align) then Err(NoAlignment)
        else Ok(LongRows(records[0].sequence, records, view, align))
  }

  /** The inner loop of `main`: one row per event of a sample, appended in event order. */
  method AppendSampleRows(rows: seq<Row>, key: string, date: Option<Day>, muts: seq<Mutation>) returns (out: seq<Row>)
    ensures out == rows + SampleRows(key, date, muts)
  {
    out := rows;
    for j := 0 to |muts|
      invariant out == rows + SampleRows(key, date, muts[..j])
    {
      assert SampleRows(key, date, muts[..j + 1]) == SampleRows(key, date, muts[..j]) + [RowOf(key, date, muts[j])];
      out := out + [RowOf(key, date, muts[j])];
    }
    assert muts[..|muts|] == muts;
  }

  /**
   * The record loop of `main`: the rows of every record aligned against
   * `reference`, or the error of the first record that cannot be aligned.
   */
  method CollectRows(reference: string, records: seq<SeqRecord>, view: seq<MetaRow>, align: Aligner)
    returns (r: Result<seq<Row>, Error>)
    ensures AllAligned(reference, records, align) ==> r == Ok(LongRows(reference, records, view, align))
    ensures !AllAligned(reference, records, align) ==> r == Err(NoAlignment)
  {
    var rows: seq<Row> := [];
    for i := 0 to |records|
      invariant forall k :: 0 <= k < i ==> AlignedEvents(align, reference, records[k].sequence).Ok?
      invariant rows == LongRows(reference, records[..i], view, align)
    {
      var rec := records[i];
      var aligned := AlignAndMutations(align, reference, rec.sequence);
      if aligned.Err? {
        assert AlignedEvents(align, reference, records[i].sequence).Err?;
        return Err(NoAlignment);
      }
      var muts := aligned.value;
      var date := LookupDate(view, rec.id);
      rows := AppendSampleRows(rows, rec.id, date, muts);
      assert records[..i + 1][..i] == records[..i];
      assert RecordRows(reference, rec, view, align) == SampleRows(rec.id, date, muts);
    }
    assert records[..|records|] == records;
    return Ok(rows);
  }

  /** `main` of stage 1: every record (the reference included) is aligned against record 0. */
  method CallMutations(records: seq<SeqRecord>, meta: Table, parse: DateParser, align: Aligner)
    returns (r: Result<seq<Row>, Error>)
    requires WellFormed(meta)
    ensures r == Catalog(records, meta, parse, align)
  {
    if |records| == 0 {
      return Err(NoSequences);
    }
    var loaded := LoadMetadata(meta, parse);
    if loaded.Err? {
      return Err(loaded.error);
    }
    r := CollectRows(records[0].sequence, records, loaded.value, align);
  }

  // ---------------------------------------------------------------------------
  // Properties of the long table

  lemma LongRowsAppend(reference: string, a: seq<SeqRecord>, b: seq<SeqRecord>, view: seq<MetaRow>, align: Aligner)
    ensures LongRows(reference, a + b, view, align) == LongRows(reference, a, view, align) + LongRows(reference, b, view, align)
  {
    Tables.FlatMapAppend(a, b, (rec: SeqRecord) => RecordRows(reference, rec, view, align));
  }

  /**
   * Each sample contributes, in its place, exactly one row per event of its
   * alignment, all carrying its key and the date of its first metadata match.
   */
  lemma SampleContributes(reference: string, before: seq<SeqRecord>, rec: SeqRecord, after: seq<SeqRecord>,
                          view: seq<MetaRow>, align: Aligner)
    ensures AlignedEvents(align, reference, rec.sequence).Ok? ==>
      LongRows(reference, before + [rec] + after, view, align)
        == LongRows(reference, before, view, align)
           + SampleRows(rec.id, LookupDate(view, rec.id), AlignedEvents(align, reference, rec.sequence).value)
           + LongRows(reference, after, view, align)
    ensures AlignedEvents(align, reference, rec.sequence).Err? ==>
      LongRows(reference, before + [rec] + after, view, align)
        == LongRows(reference, before, view, align) + LongRows(reference, after, view, align)
  {
    LongRowsAppend(reference, before + [rec], after, view, align);
    assert (before + [rec])[..|before + [rec]| - 1] == before;
  }

  /** A sample in which no substitution is found adds no row at all. */
  lemma MutationFreeSampleAddsNothing(reference: string, before: seq<SeqRecord>, rec: SeqRecord, after: seq<SeqRecord>,
                                      view: seq<MetaRow>, align: Aligner)
    requires AlignedEvents(align, reference, rec.sequence) == Ok([])
    ensures LongRows(reference, before + [rec] + after, view, align) == LongRows(reference, before + after, view, align)
  {
    SampleContributes(reference, before, rec, after, view, align);
    LongRowsAppend(reference, before, after, view, align);
  }

  /**
   * Every long-table row belongs to some record, is dated by that record's
   * first metadata match, comes from a substitution column (distinct non-gap
   * bases, position at least 1), and its label reads back to its fields.
   */
  lemma RecordRowsAreWellFormed(reference: string, rec: SeqRecord, view: seq<MetaRow>, align: Aligner, row: Row)
    requires row in RecordRows(reference, rec, view, align)
    ensures row.key == rec.id && row.collectionDate == LookupDate(view, row.key)
    ensures row.pos >= 1 && Emits(row.refBase, row.altBase)
    ensures ParseLabel(row.mutationLabel) == Some(Mutation(row.pos, row.refBase, row.altBase))
  {
    var muts := AlignedEvents(align, reference, rec.sequence).value;
    var j :| 0 <= j < |muts| && row == RowOf(rec.id, LookupDate(view, rec.id), muts[j]);
    assert muts[j] in muts;
  }

  lemma {:induction false} RowsAreWellFormed(reference: string, records: seq<SeqRecord>, view: seq<MetaRow>, align: Aligner)
    ensures forall row :: row in LongRows(reference, records, view, align) ==>
      && (exists k :: 0 <= k < |records| && records[k].id == row.key)
      && row.collectionDate == LookupDate(view, row.key)
      && row.pos >= 1 && Emits(row.refBase, row.altBase)
      && ParseLabel(row.mutationLabel) == Some(Mutation(row.pos, row.refBase, row.altBase))
  {
    forall row | row in LongRows(reference, records, view, align)
      ensures && (exists k :: 0 <= k < |records| && records[k].id == row.key)
        && row.collectionDate == LookupDate(view, row.key)
        && row.pos >= 1 && Emits(row.refBase, row.altBase)
        && ParseLabel(row.mutationLabel) == Some(Mutation(row.pos, row.refBase, row.altBase))
    {
      var k :| 0 <= k < |records| && row in RecordRows(reference, records[k], view, align);
      RecordRowsAreWellFormed(reference, records[k], view, align, row);
    }
  }

  /**
   * Stage 1 fails on an empty FASTA, then on unusable metadata, then on a
   * record the aligner returns nothing for, and otherwise aligns every record
   * against record 0.
   */
  lemma CatalogCases(records: seq<SeqRecord>, meta: Table, parse: DateParser, align: Aligner)
    requires WellFormed(meta)
    ensures Catalog(records, meta, parse, align) == Err(NoSequences) <==> records == []
    ensures records != [] && MetadataView(meta, parse).Err? ==>
      Catalog(records, meta, parse, align) == Err(MetadataView(meta, parse).error)
    ensures Catalog(records, meta, parse, align) == Err(NoAlignment) <==>
      records != [] && MetadataView(meta, parse).Ok? && !AllAligned(records[0].sequence, records, align)
    ensures Catalog(records, meta, parse, align).Ok? <==>
      records != [] && MetadataView(meta, parse).Ok? && AllAligned(records[0].sequence, records, align)
    ensures Catalog(records, meta, parse, align).Ok? ==>
      Catalog(records, meta, parse, align).value
        == LongRows(records[0].sequence, records, MetadataView(meta, parse).value, align)
  {
  }
}
