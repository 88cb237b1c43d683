# COVID-19 mutation trend tracker: a verified model of the two pipeline stages

The tracker turns a FASTA file of genomes into a daily prevalence table, one row per mutation per day. It has two offline stages, and this project models both in Dafny.

**Stage 1 (`scripts/call_mutations.py`, module `CallMutations`).**
- The first FASTA record is the reference. An empty FASTA is an error.
- Every record, the reference included, is aligned against it, and the first alignment returned is walked. When the aligner returns no alignment, `alns[0]` raises `IndexError` and the run stops; the model returns `Err(NoAlignment)`.
- The walk goes over the aligned columns and keeps a reference-coordinate counter. The counter advances on every column whose reference character is not `-`.
- A column with a gap on either side is skipped. Any other column whose two bases differ emits `(pos, ref, alt)`.
- Each event becomes one long-table row. The row carries the sample id, the date of the first metadata row with that key, and the label `ref + str(pos) + alt`.
- `load_metadata` picks the date column as the first present of `collection_date, date, Collection_Date, sample_date`. If none is present, it raises.
- It picks the key column as the first present of `accession, Accession, id, ID, strain`. If none is present, it uses an existing `key` column, and otherwise the row index.
- The walk (`AlignAndMutations`), the candidate scan with `break` (`FirstPresent`), `load_metadata` (`LoadMetadata`) and `main`'s nested loops (`CallMutations`, `CollectRows`, `AppendSampleRows`) are methods. Each is proved equal to a specification function (`AlignedEvents`, `FirstPresentSpec`, `MetadataView`, `Catalog`, `LongRows`, `SampleRows`). The lemmas state what the source promises about those functions.

**Stage 2 (`scripts/build_trends.py`, module `BuildTrends`).** This stage is a chain of whole-table expressions, modelled as functions:
- rows without a date are dropped;
- `n_sequences` is the number of distinct keys per day;
- `n_with_mut` is the number of distinct keys per (day, label);
- the two are left-joined on day and `freq = n_with_mut / n_sequences`;
- labels whose `n_with_mut` summed over all days is below `min_count` are dropped;
- the rest is sorted by (label, date).

Both counts are taken over the long table. So a sample with no mutation is not in any denominator, and every output row has `1 <= n_with_mut <= n_sequences`.

Supporting modules:
- `Decimal`: Python's `str(n)` for naturals, and reading it back.
- `Tables`: row masks, distinct group keys, and Python's code-point order on strings.
- `Wrappers`: `Option` and `Result`.

Points of the code the model keeps, some of which a reader might not expect:
- The denominator `n_sequences` is counted over the mutation long table, not over all samples in the FASTA (`scripts/build_trends.py:20`).
- `dateutil.parser.parse` is applied to every date cell before `pd.to_datetime(errors="coerce")`, so an unparseable cell raises instead of becoming a missing date (`scripts/call_mutations.py:21`). The model returns `Err(UnparseableDate)`. A date that parses but that `to_datetime` coerces to NaT is a missing date.
- Before it falls back to the row index, the code keeps an existing `key` column (`scripts/call_mutations.py:27`).

## Model

| member | source | states |
|---|---|---|
| `CallMutations.AlignAndMutations` | scripts/call_mutations.py:32-46 | the loop with its `ref_pos` counter returns exactly `AlignedEvents`: the events of the first alignment, or the error when the aligner returns none |
| `CallMutations.AlignedEvents` | scripts/call_mutations.py:34-35 | an error exactly when the aligner returns an empty list, otherwise the events of its first alignment |
| `CallMutations.Walk` | scripts/call_mutations.py:36-46 | at most one event per zipped column, and every event has distinct non-gap bases and a position past the bases already counted |
| `CallMutations.Extract` | scripts/call_mutations.py:36-46 | at most one event per zipped column, each with distinct non-gap bases and a 1-based position |
| `CallMutations.WalkColumns` | scripts/call_mutations.py:38-45 | an event is emitted exactly for each column where both sides are non-gap and differ; its position is the number of non-gap reference characters up to and including that column, and its bases are that column's |
| `CallMutations.ExtractPositions` | scripts/call_mutations.py:37-45 | emitted positions are strictly increasing and lie in `1 .. ref_pos`, where `ref_pos` is the number of non-gap reference characters in the walked columns |
| `CallMutations.GapFreeMismatches` | scripts/call_mutations.py:38-45 | for equal-length gap-free strings the events are exactly `(i+1, ref[i], qry[i])` for each `i` where the strings differ |
| `CallMutations.InsertionShiftsNothing` | scripts/call_mutations.py:39-43 | inserting columns that are gaps in the reference leaves every event, and its position, unchanged |
| `CallMutations.WalkTruncates` | scripts/call_mutations.py:38 | `zip` stops at the shorter aligned string: the columns past it contribute nothing |
| `CallMutations.Label` | scripts/call_mutations.py:80 | the label is the reference base, then a canonical decimal whose value is the position, then the alternative base |
| `CallMutations.LabelRoundTrip` | scripts/call_mutations.py:80 | a string parses as first char, canonical decimal, last char into an event exactly when it is that event's label |
| `CallMutations.LabelInjective` | scripts/call_mutations.py:80 | distinct events have distinct labels |
| `Decimal.ShowIsBijective` | scripts/call_mutations.py:80 | `str(n)` is exactly the canonical digit string whose value is `n` |
| `CallMutations.FirstPresent` | scripts/call_mutations.py:15-18 | the candidate scan with `break` returns the first candidate that is a column, or none |
| `CallMutations.FirstPresentIsFirst` | scripts/call_mutations.py:15-20 | the chosen column is a present candidate preceded by no present candidate; nothing is chosen exactly when no candidate is present |
| `CallMutations.KeyColumn` | scripts/call_mutations.py:23-29 | the key column is a header column: the first key candidate present (`FirstPresentSpec`) whenever one is present; `key` exactly when no candidate is present and `key` is a column; the row index is used exactly when neither exists |
| `CallMutations.KeyOf` | scripts/call_mutations.py:23-30 | a row's key is its cell in the key column, or the decimal string of its row index when there is no key column |
| `CallMutations.MetadataView` | scripts/call_mutations.py:11-30 | fails with the missing-date-column error exactly when no date candidate is present, fails with no other error than that or an unparseable date, and otherwise keeps one row per metadata row, keyed by `KeyOf` |
| `CallMutations.LoadMetadata` | scripts/call_mutations.py:11-30 | the method computes `MetadataView`: the error or the `(key, collection_date)` view |
| `CallMutations.MetadataViewCases` | scripts/call_mutations.py:14-30 | error exactly when no date candidate is present, or when a cell of the chosen date column does not parse; otherwise one view row per metadata row, dated from the first date candidate present, and keyed by the first key candidate present, else an existing `key` column, else `str(row index)` |
| `CallMutations.LookupDate` | scripts/call_mutations.py:71-72 | the date of the first metadata row whose key matches, and missing when no row matches |
| `CallMutations.LongRows` | scripts/call_mutations.py:66-81 | a row is in the long table exactly when it is among the rows of one of the records |
| `CallMutations.AppendSampleRows` | scripts/call_mutations.py:73-81 | the inner loop appends one row per event, in event order, after the rows already collected |
| `CallMutations.CollectRows` | scripts/call_mutations.py:66-81 | the record loop returns the long table when every record aligns, and the alignment error otherwise |
| `CallMutations.Catalog` | scripts/call_mutations.py:58-81 | fails with the empty-FASTA error exactly when there are no records; succeeds only when the metadata loads and every record aligns |
| `CallMutations.CallMutations` | scripts/call_mutations.py:58-81 | the nested loops return exactly `Catalog`: the error raised, or the long table |
| `CallMutations.CatalogCases` | scripts/call_mutations.py:58-81 | no records raises, and only then; a metadata error propagates; then a record with no alignment raises, and only then; otherwise the result is the long table of every record aligned against record 0 |
| `CallMutations.SampleContributes` | scripts/call_mutations.py:66-81 | each aligned sample contributes, in its place, one row per event in event order, with its key and its first-match date (also when that date is missing); a sample without an alignment contributes none |
| `CallMutations.MutationFreeSampleAddsNothing` | scripts/call_mutations.py:73-81 | a sample with no event adds no row |
| `CallMutations.RowsAreWellFormed` | scripts/call_mutations.py:66-81 | every row has a record's key and that key's first-match date, a position of at least 1, distinct non-gap bases, and a label that parses back to its fields |
| `BuildTrends.DropUndated` | scripts/build_trends.py:17 | after `dropna` every row has a date |
| `BuildTrends.DayTotals` | scripts/build_trends.py:19-21 | one entry per date that occurs, each counting at least one sample |
| `BuildTrends.Frequency` | scripts/build_trends.py:29 | defined exactly when the denominator is present and non-zero; then it times the denominator gives `n_with_mut`, and it lies in (0, 1] when `1 <= n_with_mut <= n_sequences` |
| `BuildTrends.JoinRow` | scripts/build_trends.py:19-29 | the left join keeps the group's date, label and distinct-key count; takes the day's total when the day is in `day_totals` and leaves it and `freq` missing otherwise; `freq` is defined exactly when the total is non-zero, and is then the ratio |
| `BuildTrends.Merged` | scripts/build_trends.py:19-28 | no more rows than the dated table, each for a (date, label) group of that table |
| `BuildTrends.LabelTotal` | scripts/build_trends.py:31-32 | zero for a label that does not occur, and at least the `n_with_mut` of each of its rows |
| `BuildTrends.KeepFrequent` | scripts/build_trends.py:31-33 | keeps exactly the rows whose label's total is at least `min_count`, and no more rows than it is given |
| `BuildTrends.Insert` | scripts/build_trends.py:35 | inserting adds exactly the one row to the multiset of rows |
| `BuildTrends.SortRows` | scripts/build_trends.py:35 | the sort is a permutation of its input, ordered by label, then date |
| `BuildTrends.Trends` | scripts/build_trends.py:16-35 | the output is sorted, no longer than the long table, and every output row is a row of the joined table |
| `BuildTrends.UndatedRowsChangeNothing` | scripts/build_trends.py:17 | inserting rows without a date anywhere in the long table changes no output |
| `BuildTrends.CountBounds` | scripts/build_trends.py:20-24 | a (date, label) group that occurs has `1 <= n_with_mut <= n_sequences` |
| `BuildTrends.MergedRows` | scripts/build_trends.py:19-29 | the joined table holds exactly one row per (date, label) that occurs, with the distinct-key counts, a defined `n_sequences`, and their ratio |
| `BuildTrends.TrendsRows` | scripts/build_trends.py:16-35 | a row is output exactly when its (date, label) occurs among the dated rows, its label's total is at least `min_count`, and it carries that group's counts and ratio |
| `BuildTrends.TrendsFrequencies` | scripts/build_trends.py:20-29 | every output row has a defined denominator, `1 <= n_with_mut <= n_sequences` and `freq` in (0, 1], so the zero-denominator branch is never taken |
| `BuildTrends.LabelKeptIff` | scripts/build_trends.py:31-33 | an occurring label keeps all its rows when its total over all dates is at least `min_count` (boundary inclusive), and loses all of them otherwise |
| `BuildTrends.SmallMinCountKeepsAll` | scripts/build_trends.py:24-33 | with `min_count <= 1` the filter drops nothing |
| `BuildTrends.TrendsSorted` | scripts/build_trends.py:35 | the output is strictly ascending by (label, date), so no (date, label) pair appears twice |
| `BuildTrends.MutationFreeSampleNotCounted` | scripts/build_trends.py:20 | the denominator comes from the long table: a sample with no event changes no count |

## Left out

- The alignment itself (`pairwise2.align.globalms`) is a foreign library, so it is a parameter `align` returning the list of alignments. Its scoring, its tie-breaking and its score and span outputs are not modelled.
- Date parsing (`dateutil`, `pd.to_datetime`, `.dt.date`) is foreign and locale-dependent, so it is a parameter `parse`. A day is an integer day number. Time of day is not modelled.
- All I/O is left out: FASTA reading, CSV reading and writing, `argparse`, `mkdir` and `print`. Cells are taken as the strings they hold.
- Because CSV I/O is left out, pandas' type inference is not modelled. For example, a numeric key read back as an integer, or an empty cell that becomes `"nan"` under `astype(str)`, is not captured.
- An empty long table is written as a CSV with no columns, and stage 2 raises on reading it. The model passes the empty table through and yields an empty result.
- The long table is assumed to be read back by stage 2 exactly as stage 1 produced it.
- `freq` is a Dafny `real`, not an IEEE double.
- pandas' group-by orders its groups by (date, label). The model keeps them in first-occurrence order. The final sort has unique (label, date) keys, so the output is the same.
- For the same reason, the stability of `sort_values` does not matter.
- Record ids are not required to be unique. Repeated ids each contribute their own rows, as in the code.
- `app/streamlit_app.py` (the Streamlit viewer and its plots) is not part of this model.
