# biocat core in Dafny

This project models the computational core of biocat, a Gradio front end over an
Ensembl-style MySQL genome database. It covers:

- **Sequence analysis** (`DNAVisualizer` in `src/dna_visualization.py`):
  - nucleotide composition, GC content and the composition pie filter;
  - the sliding-window GC signal;
  - the position-weight matrix of the sequence logo;
  - the Kyte & Doolittle hydropathy profile, and the mean hydropathy of the
    protein-properties analysis;
  - the counting fallback of the amino-acid chart;
  - the cleaning, base pairing and trace layout of the 3D double helix.
- **Sequence-source discovery and query building** (`BiocatDatabase` in
  `src/database.py`):
  - the two-pass `check_dna_sequence_availability` scan;
  - the query templates of `get_dna_sequences` and `search_sequences_by_pattern`,
    chosen by exact table name;
  - the row filter of `get_random_dna_sequences`;
  - the fetch-one wrapping of `execute_query`.
- **The interface handlers** (`src/app.py`):
  - the connection and source gates;
  - the `table.column` split;
  - the `LIMIT` rewrite of free SQL;
  - the A/T/C/G validation, dispatch and result text of `test_custom_function`;
  - `check_dna_availability`, `update_sequence_sources` and `analyze_dna_sequence`.
- **The predefined query catalogue** (`src/sql_queries.py`) and its four lookups.

The database is an oracle value, `Connection.Database`. It holds:

- a connected flag;
- one function per kind of query the code issues:
  - `run`: any query text, returning rows or a failure;
  - `stats`: the first-pass statistics probe;
  - `describe`: `DESCRIBE table`;
  - `nonEmptyCount`: the second-pass count.

Each probe's outcome is `Rows`, `NoResult` or `Raises`. That covers every path
of the probes' `try`/`except`.

Python dicts whose order matters are sequences of (key, value) pairs in
insertion order. Percentages and means are exact reals.

Modules:

| Module | Models |
|---|---|
| `Wrappers`, `Text`, `Ratios` | Helpers: Python string built-ins and percentages |
| `NucleotideComposition`, `GcWindow`, `SequenceLogo`, `Hydropathy`, `DoubleHelix` | `src/dna_visualization.py` |
| `Connection`, `SequenceSources`, `DnaQueries` | `src/database.py` |
| `App` | `src/app.py` |
| `SqlQueries` | `src/sql_queries.py` |

The source's loops become methods, each proved against a specification
function:

| Method | Builds |
|---|---|
| `AnalyzeNucleotideComposition` | the composition dict |
| `GcContentWindow` | the GC windows |
| `PositionCounts`, `FrequencyRow`, `PositionWeightMatrix` | the logo matrix |
| `HydrophobicityProfile`, `ProteinHydrophobicity` | the hydropathy values |
| `HelixTraces` | the helix traces |
| `FirstPass`, `ScanTable`, `CheckDnaSequenceAvailability` | the two scans |
| `FormatResults`, `FormatRow` | the result text |
| `ListQueryNames` | the query labels |

## Model

| member | source | states |
|---|---|---|
| NucleotideComposition.AnalyzeNucleotideComposition | src/dna_visualization.py:65-94 | The loop fills the dict exactly as `CompositionOf` describes: `{}` for empty input, else A, T, G, C, N then GC_content. |
| NucleotideComposition.CompositionOf | src/dna_visualization.py:65-94 | The composition dict; its contract is carried by `AnalyzeNucleotideComposition`, `CompositionKeys`, `PercentagesInRange` and `BaseSumAtMost100`. |
| NucleotideComposition.CompositionKeys | src/dna_visualization.py:75-92 | The dict is empty exactly when the input is empty; otherwise it has exactly the six keys A, T, G, C, N, GC_content in that order. |
| NucleotideComposition.OnlySpacesGivesZeros | src/dna_visualization.py:75-86 | Input made only of spaces is not empty, so it yields the six keys all at 0 rather than `{}`. |
| NucleotideComposition.PercentagesInRange | src/dna_visualization.py:78-92 | Every value of the composition lies in [0, 100]. |
| NucleotideComposition.GcIsGPlusC | src/dna_visualization.py:88-92 | The GC_content lookup gives the G percentage plus the C percentage. |
| NucleotideComposition.BaseSumAtMost100 | src/dna_visualization.py:78-86 | The five base percentages sum to at most 100, and to exactly 100 iff every character left after upper-casing and removing spaces is one of A, T, G, C, N. |
| NucleotideComposition.NucleotideCounts | src/dna_visualization.py:82-86 | The counts of A, T, G, C, N add up to at most the length, with equality iff no other character occurs. |
| NucleotideComposition.CountGcBound | src/dna_visualization.py:89-92 | G and C together occur at most length times, so GC_content is a percentage. |
| NucleotideComposition.GetSkips | src/dna_visualization.py:89-92 | `dict.get` returns the value of the first entry carrying the key. |
| NucleotideComposition.Slices | src/dna_visualization.py:111-116 | The filtered dict holds exactly the entries with a positive value whose key is neither GC_content nor N. |
| NucleotideComposition.PieSlicesExact | src/dna_visualization.py:108-129 | The pie shows "No valid nucleotide data" iff none of A, T, G, C occurs after upper-casing; otherwise its slices are the positive A, T, G, C entries in order and it carries GC_content. |
| NucleotideComposition.NucleotidePie | src/dna_visualization.py:96-129 | The pie's data; its contract is carried by `PieSlicesExact` and `SliceKeyIffPresent`. |
| NucleotideComposition.SliceKeyIffPresent | src/dna_visualization.py:111-116 | A base other than N gets a slice iff it occurs in the normalised sequence. |
| NucleotideComposition.SlicesDropTail | src/dna_visualization.py:111-116 | The N and GC_content entries never reach the pie. |
| NucleotideComposition.SlicesEmptyIff | src/dna_visualization.py:118-129 | The filter leaves nothing iff no entry passes it. |
| NucleotideComposition.SlicesConcat | src/dna_visualization.py:111-116 | The filter keeps the order of the entries: filtering two runs is filtering each one. |
| GcWindow.GcContentWindow | src/dna_visualization.py:240-262 | Raw input shorter than the window (or empty) is too short; a zero step is the `range` error; otherwise there are exactly `WindowCount` windows. The k-th window starts at k·step, holds W characters and is placed at start + W div 2, and its value is the GC percentage of that window. |
| GcWindow.WindowCountFromBounds | src/dna_visualization.py:256-262 | A loop stopping at the first multiple of the step past L − W has run floor((L − W)/step) + 1 times. |
| GcWindow.WindowValuesArePercentages | src/dna_visualization.py:256-262 | Every window holds exactly W characters and every GC value lies in [0, 100]. |
| SequenceLogo.ColumnLetters | src/dna_visualization.py:187-190 | A column has at most one letter per sequence. |
| SequenceLogo.Frequency | src/dna_visualization.py:196-202 | A frequency lies in [0, 1] and is 0 iff the base is absent from the column. |
| SequenceLogo.PositionCounts | src/dna_visualization.py:184-190 | The loop builds one counter per position of the first sequence, the p-th being the multiset of upper-cased letters at p. |
| SequenceLogo.FrequencyRow | src/dna_visualization.py:196-202 | One heatmap row holds, per position, the base's frequency in that column. |
| SequenceLogo.PositionWeightMatrix | src/dna_visualization.py:171-202 | No data iff the list or its first sequence is empty; otherwise four rows A, T, G, C, each of length \|sequences[0]\| with the column frequencies. |
| SequenceLogo.ColumnContributors | src/dna_visualization.py:184-190 | Column p holds exactly one letter per sequence longer than p, so each column of the first sequence has a contributor. |
| SequenceLogo.ColumnProvenance | src/dna_visualization.py:187-190 | Each letter in a column is the upper-cased character some sequence has at that position. |
| SequenceLogo.ColumnTotalAtMostOne | src/dna_visualization.py:196-202 | The A, T, G, C frequencies of a column add up to at most 1, and to 1 iff the column is non-empty and every letter in it is A, T, G or C. |
| SequenceLogo.MultisetCount | src/dna_visualization.py:187-190 | `Counter` multiplicities are occurrence counts. |
| SequenceLogo.FourCounts | src/dna_visualization.py:196-202 | The four base counts of a column add up to at most its size. |
| Hydropathy.ScaleBounds | src/dna_visualization.py:505-526 | Each Kyte & Doolittle score lies in [−4.5, 4.5]; a character off the scale scores 0. |
| Hydropathy.HydroSumBounds | src/dna_visualization.py:531-535 | A window sum lies within ±4.5 times the window length. |
| Hydropathy.WindowMeanBounds | src/dna_visualization.py:531-535 | Every window mean lies in [−4.5, 4.5]. |
| Hydropathy.CleanProtein | src/dna_visualization.py:489 | The cleaned protein holds only the 20 standard residues, and keeps every occurrence of each of them in the upper-cased input. |
| Hydropathy.HydrophobicityProfile | src/dna_visualization.py:476-535 | Too short iff the raw input is empty or shorter than W; too short after cleaning iff the cleaned protein is shorter than W; a zero window is the division error. Otherwise there are exactly L − W + 1 values, the i-th at position i + W div 2 + 1 with the mean score of window i. |
| Hydropathy.ProfileShape | src/dna_visualization.py:531-535 | Profile values lie in [−4.5, 4.5]; positions start at W div 2 + 1 and rise by exactly 1. |
| Hydropathy.CleanProteinKeepStop | src/dna_visualization.py:310 | The properties analysis keeps only the 20 residues and the stop `*`, and every occurrence of each of them in the upper-cased input. |
| Hydropathy.NineWindowMeans | src/dna_visualization.py:354-358 | One mean per 9-residue window, L − 8 of them, in order. |
| Hydropathy.ProteinHydrophobicity | src/dna_visualization.py:329-365 | The `hydro_values` loop followed by the mean gives `MeanHydropathy`. |
| Hydropathy.MeanHydropathyBounds | src/dna_visualization.py:354-365 | The reported hydrophobicity lies in [−4.5, 4.5]. |
| Hydropathy.ScalePercents | src/dna_visualization.py:368-371 | Each library fraction is reported times 100, in the library's order. |
| Hydropathy.AnalyzeProteinProperties | src/dna_visualization.py:306-376 | Nothing to analyse iff the cleaned protein is empty; an analysis error iff the library raises on a non-empty protein, carrying the cleaned length and the library's message. Otherwise the length is that of the cleaned protein, the hydrophobicity is its mean hydropathy within [−4.5, 4.5], and the percentages are the library's, scaled. |
| Hydropathy.FirstOccurrences | src/dna_visualization.py:417-421 | The fallback keys are the distinct residues of the protein, each once. |
| Hydropathy.FallbackOnlyAfterEmptyLibraryResult | src/dna_visualization.py:391-433 | The counting fallback runs only when the library returned no amino acids. The chart has no data iff the narrow cleaning is empty and the analysis either found nothing or the library returned nothing. |
| Hydropathy.KeepOnlyNarrower | src/dna_visualization.py:417-421 | A cleaning that keeps fewer characters cannot find residues where a wider one found none. |
| Hydropathy.CountedPercentsComplete | src/dna_visualization.py:417-421 | The fallback bars name each residue of the cleaned protein exactly once, each with a positive percentage, and the percentages add up to 100. |
| Hydropathy.CountedPercents | src/dna_visualization.py:417-421 | The counting fallback; its contract is carried by `CountedPercentsComplete` and `FirstOccurrences`. |
| Hydropathy.AminoAcidChartOf | src/dna_visualization.py:391-433 | The data of the amino-acid chart; its contract is carried by `FallbackOnlyAfterEmptyLibraryResult`. |
| Hydropathy.PercentSum | src/dna_visualization.py:417-421 | Percentages of one total add up to the percentage of the summed counts. |
| DoubleHelix.ComplementInvolution | src/dna_visualization.py:760-793 | The pairing table maps a cleaned base to a different cleaned base and is its own inverse. |
| DoubleHelix.PrefixSlice | src/dna_visualization.py:729-730 | Python's `s[:k]` is a prefix of length min(k, \|s\|), counting a negative k from the end. |
| DoubleHelix.CleanedBases | src/dna_visualization.py:726-730 | The cleaned sequence holds only A, T, G, C, in input order and multiplicity after upper-casing; it is at most `max_length` long and is all of them when they fit. |
| DoubleHelix.KeepOnlyAfterDrop | src/dna_visualization.py:726-728 | Removing spaces and newlines before the regular expression changes nothing. |
| DoubleHelix.CleanFixesCleanInput | src/dna_visualization.py:726-730 | A clean sequence within the cap comes out unchanged. |
| DoubleHelix.CleanIdempotent | src/dna_visualization.py:726-730 | Cleaning twice is cleaning once. |
| DoubleHelix.CleanHelixSequence | src/dna_visualization.py:726-730 | The helix cleaning; its contract is carried by `CleanedBases`, `CleanFixesCleanInput` and `CleanIdempotent`. |
| DoubleHelix.LinspaceSpacing | src/dna_visualization.py:746-756 | `linspace` starts at `start`, ends at `stop` and has constant spacing (stop − start)/(n − 1). |
| DoubleHelix.Strand1 | src/dna_visualization.py:745-751 | Strand 1 has one point per base. |
| DoubleHelix.Strand2 | src/dna_visualization.py:753-756 | Strand 2 has one point per base. |
| DoubleHelix.StrandSymmetry | src/dna_visualization.py:746-756 | Each strand-2 point is the strand-1 point with x and y negated, at the same height. |
| DoubleHelix.HelixRise | src/dna_visualization.py:751 | Heights run from 0 to n·0.34, so neighbouring bases are n·0.34/(n − 1) apart, more than 0.34. |
| DoubleHelix.HelixTraces | src/dna_visualization.py:765-837 | Two backbone traces come first, then three traces per base: its marker, its complement's marker and the bond. |
| DoubleHelix.PlotDnaDoubleHelix | src/dna_visualization.py:713-837 | "No sequence provided" iff the input is empty, and "No valid DNA bases found" iff cleaning leaves nothing. Otherwise the figure holds the cleaned bases, both strands, and 2 + 3n traces laid out per base. |
| DoubleHelix.OneBondPerBase | src/dna_visualization.py:792-837 | A figure laid out this way has exactly one hydrogen-bond trace per base. |
| DoubleHelix.BondsOfPrefix | src/dna_visualization.py:792-837 | The first 2 + 3k traces hold exactly k bonds. |
| Connection.FetchOne | src/database.py:120-124 | With `fetch_all` off: at most one row, the first; none when there is no row or the first row is empty. |
| Connection.ExecuteQuery | src/database.py:102-136 | `None` exactly on a database error; otherwise all rows, or with `fetch_all` off the first row alone, and no row exactly when there is none or it is empty. |
| Connection.Lookup | src/database.py:575 | `row[column]` succeeds iff the row has that column, and then gives a cell stored under that name. |
| SequenceSources.ScannedTablesPlain | src/database.py:405-412 | No scanned table name contains a dot. |
| SequenceSources.IndexOf | src/database.py:393 | The position of a key in the dict, or −1 exactly when it is absent. |
| SequenceSources.Put | src/database.py:393-399 | Dict assignment: a present key keeps its place and takes the new value; a new key goes last. |
| SequenceSources.Columns | src/database.py:423-425 | The recorded columns, one per entry in entry order. |
| SequenceSources.FirstPassStep | src/database.py:379-402 | One more check adds the probe's entry under a key no earlier check has, or nothing when the probe finds no data. |
| SequenceSources.FirstPass | src/database.py:379-402 | The first loop records exactly `FirstPassSources`: one entry per check whose probe finds a positive count, in check order; a failed or raising probe adds nothing. |
| SequenceSources.FirstPassProvenance | src/database.py:388-399 | Every first-pass entry is the entry of some check whose probe found data. |
| SequenceSources.FirstPassComplete | src/database.py:388-402 | A probe that finds data is recorded, whatever the other probes did. |
| SequenceSources.FirstPassKeys | src/database.py:393 | A key no check produces is absent after the first pass. |
| SequenceSources.KeySplit | src/database.py:393 | `table.column` keys are unambiguous when the table has no dot. |
| SequenceSources.SequenceChecksKeysDistinct | src/database.py:369-377 | The seven checks name distinct (table, column) pairs. |
| SequenceSources.FirstPassWellFormed | src/database.py:392-399 | First-pass entries have distinct keys, each its own `table.column`, and positive counts. |
| SequenceSources.CheckPlain | src/database.py:369-377 | Each of the seven checks names a table without a dot and a lower-case column. |
| SequenceSources.FirstPassPlainNames | src/database.py:369-377 | First-pass tables have no dot and first-pass columns are lower case. |
| SequenceSources.SecondPassKeyClash | src/database.py:418-430 | A second-pass key can coincide with a first-pass key only for that entry's own column, which the column test already rejects. |
| SequenceSources.ColumnsOfPrefix | src/database.py:423-425 | Columns recorded by the first pass are still recorded during the second. |
| SequenceSources.ExtendsPut | src/database.py:417-436 | Recording a field that passes the second pass's tests keeps the scan's invariant: well formed, first-pass entries first and unchanged, the rest second-pass entries. |
| SequenceSources.PutKeeps | src/database.py:429-436 | Assigning a second-pass entry outside the first-pass prefix keeps the invariant. |
| SequenceSources.NewSecondPassEntry | src/database.py:417-436 | A field that passes the name, column and count tests yields an entry only the second pass can add, with no average length. |
| SequenceSources.AppendKeeps | src/database.py:429-436 | Adding a new second-pass key keeps the invariant. |
| SequenceSources.ReplaceKeeps | src/database.py:429-436 | Overwriting a second-pass entry keeps the invariant. |
| SequenceSources.ScanTable | src/database.py:413-438 | The loop over one table's `DESCRIBE` fields gives exactly `TableScan`: field by field, each tested against the entries recorded so far; an exception abandons the rest of that table, and a failed `DESCRIBE` changes nothing. |
| SequenceSources.CheckDnaSequenceAvailability | src/database.py:355-443 | Not connected iff the result is the error "Not connected to database". Connected: exactly `AvailableSources` (the first pass, then the second pass over the six tables in order), with `total_sources` its number of entries. |
| SequenceSources.FirstPassSources | src/database.py:379-402 | The first pass as a function of the probes; its contract is carried by `FirstPass`, `FirstPassProvenance`, `FirstPassComplete` and `FirstPassWellFormed`. |
| SequenceSources.FieldStep | src/database.py:417-436 | One field: recorded as `"<Table> <field>"` with its count and no average length iff it passes the name, column and count tests against the entries so far; a raising count abandons the table. Its contract is carried by `StepKeeps`, `PutExplained` and `RecordedIsReported`. |
| SequenceSources.FieldsScan | src/database.py:417-436 | The fields of one table in `DESCRIBE` order; carried by `AbandonedStays`, `FieldsKeep`, `FieldsExplained` and `FieldsScanExtends`. |
| SequenceSources.TableScan | src/database.py:413-438 | One table: its fields when `DESCRIBE` gives rows, else nothing changes; carried by `ScanTable`. |
| SequenceSources.SecondPass | src/database.py:405-438 | The six tables in order, from the first-pass entries; carried by `SecondPassExtends`, `TablesKeep` and `SecondPassExplained`. |
| SequenceSources.AvailableSources | src/database.py:367-440 | Both passes; carried by `CheckDnaSequenceAvailability`, `FoundProbesReported`, `FoundFieldsReported` and `ReportedEntriesWereFound`. |
| SequenceSources.AbandonedStays | src/database.py:413-438 | Once a count probe raises, the rest of the table's fields change nothing. |
| SequenceSources.FieldsScanExtends | src/database.py:417-436 | Every field of the second pass keeps the scan's invariant. |
| SequenceSources.SecondPassExtends | src/database.py:405-438 | After any number of tables: well formed, the first-pass entries first and unchanged, then entries only the second pass can add. |
| SequenceSources.AvailableExtends | src/database.py:367-440 | The reported entries have distinct `table.column` keys and positive counts, and start with the first-pass entries unchanged. |
| SequenceSources.StepKeeps | src/database.py:429-436 | A recorded field entry survives later fields: a later assignment to its key writes the same entry. |
| SequenceSources.FieldsKeep | src/database.py:417-436 | A recorded field entry survives the rest of its table. |
| SequenceSources.TablesKeep | src/database.py:405-438 | A recorded field entry survives the later tables. |
| SequenceSources.RecordedIsReported | src/database.py:417-438 | Completeness: a field that passes every test against the entries recorded before it, while its table is still scanned, is in the result. |
| SequenceSources.PutExplained | src/database.py:429-436 | Recording a field that passes every test keeps every entry past the first pass traceable to such a field. |
| SequenceSources.FieldsExplained | src/database.py:417-436 | Soundness within one table: every entry past the first pass was recorded by some field that passed every test when reached. |
| SequenceSources.SecondPassExplained | src/database.py:405-438 | Soundness over all tables: every entry past the first pass was recorded by such a field. |
| SequenceSources.FoundProbesReported | src/database.py:379-440 | Every check whose probe finds data is reported, with the probe's count and average length. |
| SequenceSources.FoundFieldsReported | src/database.py:405-440 | Every second-pass field that passes every test against the entries recorded before it is reported, as `"<Table> <field>"` with its count. |
| SequenceSources.ReportedEntriesWereFound | src/database.py:379-440 | Every reported entry has a positive count and is keyed by its own `table.column`. It is a first-pass check that found data, or a second-pass field that passed the name, column and count tests against the entries recorded before it. |
| DnaQueries.FetchQueryTemplate | src/database.py:469-537 | Every fetch query selects from the table its name picks, previews 1000 characters, filters out NULL and values shorter than `min_length`, and ends with `LIMIT limit`. |
| DnaQueries.FetchShapeByName | src/database.py:468-524 | Only the exact names chromosome, gene and transcript get a dedicated template, which reads the column behind the table's alias; any other name gets the generic `SELECT *` template over the bare column. |
| DnaQueries.FetchQuery | src/database.py:469-537 | The fetch query text; its contract is carried by `FetchQueryTemplate` and `FetchShapeByName`. |
| DnaQueries.GetDnaSequences | src/database.py:445-543 | `None` iff disconnected or the query fails; otherwise the rows of the fetch query. |
| DnaQueries.CleanPattern | src/database.py:604 | The cleaned pattern holds only A, T, C, G, is no longer than the input, and keeps every occurrence of each base in the upper-cased input. |
| DnaQueries.CleanPatternPlain | src/database.py:604 | A cleaned pattern holds no quote, backslash, `%` or `_`. |
| DnaQueries.CleanPatternIdempotent | src/database.py:604 | Cleaning a cleaned pattern changes nothing. |
| DnaQueries.SearchQuery | src/database.py:604-651 | No query iff fewer than 3 bases are left after cleaning. |
| DnaQueries.SearchQueryTemplate | src/database.py:609-651 | A search query reads the table its name picks, filters with `LIKE` on the column and ends with `LIMIT limit`. |
| DnaQueries.SearchQueryText | src/database.py:609-651 | The search query text; its contract is carried by `SearchQueryTemplate`, `SearchPatternPlacement` and `SearchPatternIsSafe`. |
| DnaQueries.SearchPatternPlacement | src/database.py:609-651 | The cleaned pattern is interpolated into `LOCATE` and into the `LIKE` pattern, and the preview is 500 characters. |
| DnaQueries.SearchPatternIsSafe | src/database.py:604-651 | The only user text that reaches the search query is the cleaned pattern: at least 3 characters and free of quotes, backslashes, `%` and `_`. |
| DnaQueries.ChromosomeSearchIsGeneric | src/database.py:609-651 | Chromosome has a dedicated fetch template but gets the generic search template over the bare column. |
| DnaQueries.SearchSequencesByPattern | src/database.py:582-657 | `None` when disconnected or the pattern is short; otherwise `None` iff the query fails, else its rows. |
| DnaQueries.CleanSearchRuns | src/database.py:582-657 | On a connection, a pattern that is already clean and at least 3 bases long is searched with exactly the query text built from it. |
| DnaQueries.RandomQueryTemplate | src/database.py:563-571 | The random query bounds lengths to [20, 5000], shuffles, and ends with `LIMIT count`. |
| DnaQueries.RandomQuery | src/database.py:563-571 | The random query text; its contract is carried by `RandomQueryTemplate`. |
| DnaQueries.SequenceValues | src/database.py:575 | The kept values are non-empty and at most one per row; a missing `sequence` column anywhere is the error. |
| DnaQueries.SequenceValuesAppend | src/database.py:575 | Values are taken row by row in row order, and a missing column anywhere fails the whole. |
| DnaQueries.SequenceValueOfRow | src/database.py:575 | A row contributes its `sequence` text exactly when that text is truthy. |
| DnaQueries.GetRandomDnaSequences | src/database.py:545-580 | `None` iff disconnected or a returned row lacks the `sequence` column; `[]` when the query gives nothing or fails; otherwise the truthy `sequence` values in row order. |
| App.ConnectionGate | src/app.py:62-72 | The handler passes the gates iff there is a handle and it is connected. |
| App.SplitSource | src/app.py:111-115 | Splitting at the first dot gives a table without a dot, and rejoining gives the source back. |
| App.SplitSourceKey | src/app.py:111-115 | Splitting inverts `table.column` whenever the table has no dot: "a.b.c" gives "a" and "b.c". |
| App.CheckDnaAvailability | src/app.py:56-88 | Gate failures give their message. Past them, "No DNA sequence data found" with no result iff the scan reports no entry; otherwise SUCCESS with exactly the scan's entries and their number. |
| App.NoDnaDataMeansNothingFound | src/app.py:79-80 | An empty report means that no first-pass probe found data and no second-pass field passed its tests. |
| App.NothingFoundMeansNoDnaData | src/app.py:79-80 | Conversely, when neither pass finds anything the report is empty. |
| App.UpdateSequenceSources | src/app.py:1123-1130 | The choices are the keys of `available_sequences` in order, or none without a result; the value is the first choice, or None iff there is none. |
| App.SourceChoicesSplitBack | src/app.py:1125-1130 | After a successful check, every offered choice is a valid source that splits back into its entry's table and column. |
| App.FetchDnaSequences | src/app.py:91-130 | Gate and source failures give their messages. Past them, the rows of the fetch query with `min_length` 10 are returned exactly when they form a non-empty frame, with the status reporting their number; otherwise "No sequences found with the specified criteria". |
| App.GetRandomSequencesForAnalysis | src/app.py:133-167 | Gate and source failures give their messages. Past them, the truthy `sequence` values of the random query are returned exactly when there is at least one, with the status reporting their number; otherwise "No sequences found for analysis". |
| App.SearchGates | src/app.py:170-202 | Rejects, in order: a blank pattern, a missing or lost connection, a source without a dot, and fewer than 3 bases after cleaning; each rejection shows no rows. |
| App.SearchReaches | src/app.py:196-220 | Past the gates, the handler reports what the database gives for the query built from the pattern cleaned once; the database layer's second cleaning changes nothing. |
| App.SearchFound | src/app.py:196-220 | Past the gates, when the query gives a non-empty frame, the handler shows exactly those rows and a status naming their number and the cleaned pattern. |
| App.SearchNotFound | src/app.py:196-215 | Past the gates, when the query fails or gives an empty frame, the handler shows no rows and "No sequences found containing pattern" with the cleaned pattern. |
| App.SearchSequencesByPattern | src/app.py:170-223 | The search handler; its contract is carried by `SearchGates`, `SearchFound` and `SearchNotFound`, which between them cover every input. |
| App.LimitRewriteShape | src/app.py:334-336 | A rewritten query is the original with its trailing semicolons removed and " LIMIT n;" appended; any other query is unchanged. |
| App.ClauseShowsLimit | src/app.py:334-336 | After the clause is appended, the upper-cased query shows LIMIT. |
| App.LimitRewriteIdempotent | src/app.py:334-336 | Rewriting twice equals rewriting once. |
| App.LimitRewrite | src/app.py:334-336 | The `LIMIT` rewrite; its contract is carried by `LimitRewriteShape`, `ClauseShowsLimit` and `LimitRewriteIdempotent`. |
| App.ExecuteQuery | src/app.py:308-375 | Blank query and gate failures give their messages. Past them, a failed query gives "Query executed but returned no data" and no frame; otherwise the frame is exactly the rows of the rewritten query, with the empty-frame or row-count status. |
| App.CheckSequences | src/app.py:547-555 | A given sequence is upper-cased and stripped. It is rejected iff a given sequence then holds a character other than A, T, C, G. |
| App.NoQuote | src/app.py:547-555 | A validated sequence holds no quote. |
| App.CustomQueryDispatch | src/app.py:558-574 | Only the three known names give a query: classify_sequence and count_nucleotides need seq1, and detect_mutations needs both. Any other name is refused as unknown. |
| App.TestQueryValidated | src/app.py:547-574 | A query is built only from given, validated, quote-free A/T/C/G sequences; the second takes part only in detect_mutations. |
| App.CustomQuery | src/app.py:558-574 | The per-function query builder; its contract is carried by `CustomQueryDispatch`. |
| App.TestQuery | src/app.py:547-574 | Validation followed by dispatch; its contract is carried by `TestQueryValidated`. |
| App.FormatRow | src/app.py:583-586 | The inner loop prints one line per column of a row. |
| App.FormatResults | src/app.py:579-588 | The result text is the header followed by each row's column lines and a blank line, row by row. |
| App.RowsTextShowsEveryCell | src/app.py:581-588 | Every cell of every row appears in the result text as its own line. |
| App.CellsTextShowsEveryCell | src/app.py:583-586 | Every cell of a row appears in that row's text. |
| App.TestCustomFunction | src/app.py:540-593 | A refused call gives the refusal message. A built query runs through `execute_query` with limit 10: a non-empty frame gives the stripped result text, anything else "Error: Query failed: " with the status. |
| App.NonBlankNormalizesNonEmpty | src/app.py:510-517 | A non-blank sequence stays non-empty after upper-casing and removing spaces and newlines. |
| App.DropKeeps | src/app.py:516-517 | Characters other than the removed one survive normalisation. |
| App.NormalizedFixed | src/app.py:516-517 | The GC window's own upper-casing and space removal leave a normalised sequence unchanged. |
| App.NormalizeDna | src/app.py:516-517 | The normalisation; its contract is carried by `NonBlankNormalizesNonEmpty`, `DropKeeps` and `NormalizedFixed`. |
| App.AnalyzeDnaSequence | src/app.py:502-537 | Blank input and a missing visualizer are rejected. Otherwise the normalised, non-empty sequence feeds the pie, the GC window of 50 (too short iff under 50 bases, else every window at step 12 with its GC percentage) and the helix of at most 50 bases (no valid bases iff cleaning leaves none, else the cleaned bases with both strands and 2 + 3n traces); the status reports its length. |
| SqlQueries.Get | src/sql_queries.py:499-507 | `dict.get`: the default for a missing key, else a value stored under it. |
| SqlQueries.GetStored | src/sql_queries.py:499-507 | With distinct keys, a stored key gives its own value. |
| SqlQueries.GetQueryCategories | src/sql_queries.py:482-496 | The eight category names, in declaration order. |
| SqlQueries.GetQueriesInCategory | src/sql_queries.py:499-501 | An unknown category gives `{}`; a known one gives its own map. |
| SqlQueries.GetQueryId | src/sql_queries.py:504-507 | No query iff the name is not in the category's map; otherwise the query stored under it. |
| SqlQueries.GetQuery | src/sql_queries.py:504-507 | `""` when either name is unknown, else the stored SQL text. |
| SqlQueries.ListQueryNames | src/sql_queries.py:510-516 | The nested loops append one label per query, category by category and then in insertion order. |
| SqlQueries.GetAllQueryNames | src/sql_queries.py:510-516 | `get_all_query_names()` lists the labels of the whole catalogue. |
| SqlQueries.CategoryNamesExact | src/sql_queries.py:513-516 | One `category: name` label per query of the category, in order. |
| SqlQueries.AllQueryNamesCount | src/sql_queries.py:510-516 | Exactly one label per query. |
| SqlQueries.ListedIff | src/sql_queries.py:510-516 | A label is listed iff it names some query of some category. |
| SqlQueries.LabelParts | src/sql_queries.py:516 | Labels are unambiguous when names have no colon. |
| SqlQueries.StoredQueryFound | src/sql_queries.py:499-507 | In a well-formed catalogue every stored query is found under its category and name. |
| SqlQueries.ResolvesIffListed | src/sql_queries.py:504-516 | In a well-formed catalogue, a category holds a name iff its label is listed. |
| SqlQueries.ResolvedIsListed | src/sql_queries.py:504-516 | A name a category holds is listed. |
| SqlQueries.ListedResolves | src/sql_queries.py:504-516 | A listed label resolves in a well-formed catalogue. |
| SqlQueries.CategoryHasQueriesIffListed | src/sql_queries.py:499-501 | A category has queries iff it is one of the categories. |
| SqlQueries.BasicStatsQueriesWellFormed | src/sql_queries.py:7-55 | `BASIC_STATS_QUERIES` is non-empty with distinct, colon-free names. |
| SqlQueries.GeneQueriesWellFormed | src/sql_queries.py:58-119 | `GENE_QUERIES` is non-empty with distinct, colon-free names. |
| SqlQueries.ProteinQueriesWellFormed | src/sql_queries.py:122-177 | `PROTEIN_QUERIES` is non-empty with distinct, colon-free names. |
| SqlQueries.SequenceQueriesWellFormed | src/sql_queries.py:180-329 | `SEQUENCE_QUERIES` is non-empty with distinct, colon-free names. |
| SqlQueries.SequenceQueriesPlain | src/sql_queries.py:180-329 | Each third of the nine sequence-query names is colon-free. |
| SqlQueries.SequenceQueriesDistinct | src/sql_queries.py:180-329 | The nine sequence-query names are distinct. |
| SqlQueries.ComparativeQueriesWellFormed | src/sql_queries.py:332-368 | `COMPARATIVE_QUERIES` is non-empty with distinct, colon-free names. |
| SqlQueries.AnnotationQueriesWellFormed | src/sql_queries.py:371-409 | `ANNOTATION_QUERIES` is non-empty with distinct, colon-free names. |
| SqlQueries.VariationQueriesWellFormed | src/sql_queries.py:412-443 | `VARIATION_QUERIES` is non-empty with distinct, colon-free names. |
| SqlQueries.QueryTemplatesWellFormed | src/sql_queries.py:446-479 | `QUERY_TEMPLATES` is non-empty with distinct, colon-free names. |
| SqlQueries.CatalogueWellFormed | src/sql_queries.py:482-491 | `ALL_QUERIES` has distinct, colon-free categories, each well formed. |
| SqlQueries.QueryCount | src/sql_queries.py:7-491 | The catalogue lists 28 queries. |
| SqlQueries.GetQueryIffListed | src/sql_queries.py:504-516 | `get_query` finds a query iff `get_all_query_names()` lists its label. |
| SqlQueries.StoredQueryText | src/sql_queries.py:482-507 | Each stored query is what `get_query` returns for its category and name. |
| SqlQueries.SqlText | src/sql_queries.py:7-479 | The SQL text of each predefined query, as written; `StoredQueryText` ties it to `get_query`. |
| SqlQueries.QueriesInCategoryIffListed | src/sql_queries.py:494-501 | `get_queries_in_category` is non-empty iff the category is listed. |

## Left out

- Plotting: traces, layouts, colours and annotations are not modelled. Only the data each figure is fed is kept, and which figure the interface shows is not modelled.
- Strings: upper- and lower-casing are ASCII-only. Python's full Unicode case mapping is not modelled.
- Numbers: percentages, means and `linspace` are exact reals. Float rounding is not modelled.
- BioPython's `ProteinAnalysis` is a `LibraryOutcome` parameter: either it raises, or it gives the amino-acid fractions. Molecular weight, isoelectric point, instability index and flexibility are not modelled.
- The trigonometry of the helix (`np.cos`, `np.sin`) is function parameters. Only the strand symmetry and the heights are stated.
- MySQL is not modelled:
  - no connection lifecycle, cursors, `execute_update`, logging or `test_connection`;
  - the database is the oracle value `Connection.Database`, and the global `db` and `visualizer` handles are parameters;
  - the outer `except` handlers that turn unexpected exceptions into error strings are not modelled, except for the probes of the availability scan, whose `Raises` outcome is modelled.
- Query texts: the SQL templates are written with single spaces where the source has indented newlines, and they are built from named fragments. `RandomQueryTemplate` names its fragments literally because the random query has only one template.
- SqlQueries.SqlText gives each predefined query its SQL text, but the model does not prove that every listed label resolves through `get_query` to a non-empty string. Proving it over the long literal texts costs more than the verifier's resource limit allows. `GetQueryIffListed` proves that every listed label resolves to a stored query.
- Hydropathy.HydrophobicityProfile: requires a non-negative window. Its only caller (src/app.py:488-490) uses the default window of 9. In the source a negative window passes both length tests and draws a curve of L − W + 1 values over Python's negative-index slices; that case is not modelled.
- SequenceSources.Title: states only that `str.title()` keeps the length. It is exact for the one-word table names it is applied to; titles of several words are not modelled.
- DataFrames are sequences of rows, each a sequence of (column, value) pairs. `.empty` means no row or no column.
- `test_custom_function` takes an absent `seq2` as the empty string, which the source treats the same way.
- When `MODULES_AVAILABLE` is false, every handler returns at once. That path is not modelled.
- The helix rises by `linspace(0, n * 0.34, n)`, as the code does. Neighbouring bases are therefore n·0.34/(n − 1) apart, not 0.34 (`HelixRise`).
- `tests/`, `src/config_example.py`, `src/launch.py` and the Gradio interface construction are not part of this model.
