/**
 * The handlers of the web interface in front of the database and the
 * analyses: their input gates, the `table.column` source split, the `LIMIT`
 * rewrite of free-form queries, the custom-function tester and the DNA
 * analysis entry point.
 *
 * The global handles are parameters: `db` is `None` before a connection was
 * made, and `visualizerReady` says whether the visualizer was initialised.
 * A data frame is the list of rows it was built from.
 */
module App {
  import opened Wrappers
  import opened Text
  import opened Connection
  import opened SequenceSources
  import DnaQueries
  import NucleotideComposition
  import GcWindow
  import DoubleHelix
  import SqlQueries

  const NoConnectionMessage: string :=
    "ERROR: No database connection established. Please connect to database first using the Connection tab."
  const ConnectionLostMessage: string :=
    "ERROR: Database connection lost. Please reconnect to database using the Connection tab."
  const InvalidSourceMessage: string := "ERROR: Please select a valid sequence source"

  /** The two gates every database handler passes first: `not db`, then `not db.is_connected()`. */
  function ConnectionGate(db: Option<Database>): (r: Option<string>)
    ensures r.None? <==> db.Some? && db.value.connected
  {
    if db.None? then Some(NoConnectionMessage)
    else if !db.value.connected then Some(ConnectionLostMessage)
    else None
  }

  /** `not source_info or "." not in source_info` rejects the source. */
  predicate ValidSource(source: string)
  {
    source != [] && '.' in source
  }

  /** `source_info.split(".", 1)`: the table before the first dot and the column after it. */
  function SplitSource(source: string): (r: (string, string))
    requires '.' in source
    ensures SourceKey(r.0, r.1) == source
    ensures '.' !in r.0
  {
    var k := Find(source, '.');
    assert source == source[..k] + "." + source[k + 1..];
    (source[..k], source[k + 1..])
  }

  /**
   * Splitting inverts `SourceKey` whenever the table has no dot, whatever
   * the column holds: "a.b.c" gives table "a" and column "b.c".
   */
  lemma SplitSourceKey(table: string, column: string)
    requires '.' !in table
    ensures ValidSource(SourceKey(table, column))
    ensures SplitSource(SourceKey(table, column)) == (table, column)
  {
    FindAfterPrefix(table, '.', column);
    var s := SourceKey(table, column);
    assert s[..|table|] == table && s[|table| + 1..] == column;
  }

  /** A data frame built from these rows is empty: there is no row, or no row has a column. */
  predicate EmptyFrame(rows: seq<Row>)
  {
    forall i :: 0 <= i < |rows| ==> rows[i] == []
  }

  // ---------------------------------------------------------------- check_dna_availability

  const NoDnaDataMessage: string := "No DNA sequence data found in the database"

  /**
   * The status of the availability check. Past the connection gates it
   * reports SUCCESS with the scan's result when the scan found at least one
   * source, and says that no data was found when it found none.
   */
  method CheckDnaAvailability(db: Option<Database>) returns (status: string, info: Option<Availability>)
    ensures ConnectionGate(db).Some? ==> status == ConnectionGate(db).value && info == None
    ensures ConnectionGate(db).None? && AvailableSources(db.value) == [] ==>
      status == NoDnaDataMessage && info == None
    ensures ConnectionGate(db).None? && AvailableSources(db.value) != [] ==>
      var sources := AvailableSources(db.value);
      info == Some(Available(sources, |sources|)) &&
      status == "SUCCESS: Found " + IntToString(|sources|) + " DNA sequence sources"
  {
    match ConnectionGate(db) {
      case Some(message) => return message, None;
      case None =>
    }
    var availability := CheckDnaSequenceAvailability(db.value);
    match availability {
      case AvailabilityError(message) =>
        return "ERROR: " + message, None;
      case Available(sources, total) =>
        if total == 0 {
          return NoDnaDataMessage, None;
        }
        return "SUCCESS: Found " + IntToString(total) + " DNA sequence sources", Some(availability);
    }
  }

  /**
   * "No DNA data" is reported exactly when neither pass found anything: no
   * first-pass probe found data and no second-pass field passed its tests.
   */
  lemma NoDnaDataMeansNothingFound(db: Database)
    ensures AvailableSources(db) == [] ==>
      (forall k :: 0 <= k < |SequenceChecks| ==> !ProbeFinds(db, SequenceChecks[k].0, SequenceChecks[k].1)) &&
      forall t: nat, j: nat, e :: !RecordedAt(db, FirstPassSources(db, SequenceChecks), t, j, e)
  {
    if AvailableSources(db) == [] {
      forall k | 0 <= k < |SequenceChecks|
        ensures !ProbeFinds(db, SequenceChecks[k].0, SequenceChecks[k].1)
      {
        if ProbeFinds(db, SequenceChecks[k].0, SequenceChecks[k].1) {
          FoundProbesReported(db, k);
          assert false;
        }
      }
      forall t: nat, j: nat, e | RecordedAt(db, FirstPassSources(db, SequenceChecks), t, j, e)
        ensures false
      {
        FoundFieldsReported(db, t, j, e);
      }
    }
  }

  /** Conversely, anything found by either pass means there is DNA data to report. */
  lemma NothingFoundMeansNoDnaData(db: Database)
    ensures (forall k :: 0 <= k < |SequenceChecks| ==> !ProbeFinds(db, SequenceChecks[k].0, SequenceChecks[k].1)) &&
            (forall t: nat, j: nat, e :: !RecordedAt(db, FirstPassSources(db, SequenceChecks), t, j, e)) ==>
      AvailableSources(db) == []
  {
    if AvailableSources(db) != [] {
      ReportedEntriesWereFound(db, AvailableSources(db)[0]);
    }
  }

  // ---------------------------------------------------------------- update_sequence_sources

  /** The choices of the source dropdown and its selected value. */
  function UpdateSequenceSources(info: Option<Availability>): (r: (seq<string>, Option<string>))
    ensures r.1.Some? <==> r.0 != []
    ensures r.1.Some? ==> r.1.value == r.0[0]
    ensures info.Some? && info.value.Available? ==> r.0 == SqlQueries.Keys(info.value.sources)
    ensures !(info.Some? && info.value.Available?) ==> r.0 == []
  {
    match info
    case Some(Available(sources, _)) =>
      var keys := SqlQueries.Keys(sources);
      (keys, if keys == [] then None else Some(keys[0]))
    case _ => ([], None)
  }

  /**
   * Every choice the dropdown offers after a successful check is a valid
   * source, and splitting it gives back the table and column of its entry.
   */
  lemma SourceChoicesSplitBack(db: Database)
    ensures var sources := AvailableSources(db);
      var choices := UpdateSequenceSources(Some(Available(sources, |sources|))).0;
      forall i :: 0 <= i < |choices| ==>
        ValidSource(choices[i]) && SplitSource(choices[i]) == (sources[i].1.table, sources[i].1.column)
  {
    var sources := AvailableSources(db);
    var first := FirstPassSources(db, SequenceChecks);
    AvailableExtends(db);
    FirstPassPlainNames(db);
    ScannedTablesPlain();
    forall i | 0 <= i < |sources|
      ensures ValidSource(sources[i].0) && SplitSource(sources[i].0) == (sources[i].1.table, sources[i].1.column)
    {
      if i < |first| {
        assert sources[i] == first[i];
      } else {
        assert SecondPassEntry(db, first, sources[i]);
      }
      SplitSourceKey(sources[i].1.table, sources[i].1.column);
    }
  }

  // ---------------------------------------------------------------- fetch_dna_sequences

  /** `fetch_dna_sequences`: the rows `get_dna_sequences` returns with `min_length=10`, or the reason there are none. */
  function FetchDnaSequences(db: Option<Database>, sourceInfo: string, limit: int): (r: (string, Option<seq<Row>>))
    ensures ConnectionGate(db).Some? ==> r == (ConnectionGate(db).value, None)
    ensures ConnectionGate(db).None? && !ValidSource(sourceInfo) ==> r == (InvalidSourceMessage, None)
    ensures r.1.Some? ==>
      ConnectionGate(db).None? && ValidSource(sourceInfo) && !EmptyFrame(r.1.value) &&
      (var (table, column) := SplitSource(sourceInfo);
       db.value.run(DnaQueries.FetchQuery(table, column, limit, 10)) == Some(r.1.value)) &&
      r.0 == "SUCCESS: Retrieved " + IntToString(|r.1.value|) + " DNA sequences from " + sourceInfo
    ensures ConnectionGate(db).None? && ValidSource(sourceInfo) ==>
      var (table, column) := SplitSource(sourceInfo);
      var rows := db.value.run(DnaQueries.FetchQuery(table, column, limit, 10));
      (rows.Some? && !EmptyFrame(rows.value) ==> r.1 == rows) &&
      (rows.None? || EmptyFrame(rows.value) ==> r == ("No sequences found with the specified criteria", None))
  {
    if ConnectionGate(db).Some? then (ConnectionGate(db).value, None)
    else if !ValidSource(sourceInfo) then (InvalidSourceMessage, None)
    else
      var (table, column) := SplitSource(sourceInfo);
      var frame := DnaQueries.GetDnaSequences(db.value, table, column, limit, 10);
      if frame.None? || EmptyFrame(frame.value) then ("No sequences found with the specified criteria", None)
      else ("SUCCESS: Retrieved " + IntToString(|frame.value|) + " DNA sequences from " + (table + "." + column), frame)
  }

  // ---------------------------------------------------------------- get_random_sequences_for_analysis

  /** `get_random_sequences_for_analysis`: the random sequences, or the reason there are none. */
  function GetRandomSequencesForAnalysis(db: Option<Database>, sourceInfo: string, count: int)
    : (r: (string, seq<string>))
    ensures ConnectionGate(db).Some? ==> r == (ConnectionGate(db).value, [])
    ensures ConnectionGate(db).None? && !ValidSource(sourceInfo) ==> r == (InvalidSourceMessage, [])
    ensures r.1 != [] ==>
      ConnectionGate(db).None? && ValidSource(sourceInfo) &&
      (var (table, column) := SplitSource(sourceInfo);
       var rows := db.value.run(DnaQueries.RandomQuery(table, column, count));
       rows.Some? && DnaQueries.SequenceValues(rows.value) == Some(r.1)) &&
      (forall x :: x in r.1 ==> x != []) &&
      r.0 == "SUCCESS: Retrieved " + IntToString(|r.1|) + " random sequences"
    ensures ConnectionGate(db).None? && ValidSource(sourceInfo) ==>
      var (table, column) := SplitSource(sourceInfo);
      var rows := db.value.run(DnaQueries.RandomQuery(table, column, count));
      var found := if rows.Some? then DnaQueries.SequenceValues(rows.value) else None;
      (found.Some? && found.value != [] ==> r.1 == found.value) &&
      (!(found.Some? && found.value != []) ==> r == ("No sequences found for analysis", []))
  {
    if ConnectionGate(db).Some? then (ConnectionGate(db).value, [])
    else if !ValidSource(sourceInfo) then (InvalidSourceMessage, [])
    else
      var (table, column) := SplitSource(sourceInfo);
      var sequences := DnaQueries.GetRandomDnaSequences(db.value, table, column, count);
      if sequences.None? || sequences.value == [] then ("No sequences found for analysis", [])
      else ("SUCCESS: Retrieved " + IntToString(|sequences.value|) + " random sequences", sequences.value)
  }

  // ---------------------------------------------------------------- search_sequences_by_pattern

  const EmptyPatternMessage: string := "ERROR: Please enter a search pattern"
  const ShortPatternMessage: string := "ERROR: Pattern must contain at least 3 valid DNA bases (A, T, C, G)"

  /** The status of a search that found nothing, naming the cleaned pattern. */
  function NoMatchMessage(p: string): string
  {
    "No sequences found containing pattern '" + p + "'"
  }

  /** `search_sequences_by_pattern` of the interface. */
  function SearchSequencesByPattern(pattern: string, db: Option<Database>, sourceInfo: string, limit: int)
    : (r: (string, Option<seq<Row>>))
  {
    if IsBlank(pattern) then (EmptyPatternMessage, None)
    else if ConnectionGate(db).Some? then (ConnectionGate(db).value, None)
    else if !ValidSource(sourceInfo) then (InvalidSourceMessage, None)
    else
      var p := DnaQueries.CleanPattern(pattern);
      if |p| < 3 then (ShortPatternMessage, None)
      else
        var (table, column) := SplitSource(sourceInfo);
        SearchReport(p, DnaQueries.SearchSequencesByPattern(db.value, p, table, column, limit))
  }

  /** The status and frame of a search for the cleaned pattern `p` that gave `results`. */
  function SearchReport(p: string, results: Option<seq<Row>>): (string, Option<seq<Row>>)
  {
    if results.None? || EmptyFrame(results.value) then
      (NoMatchMessage(p), None)
    else
      ("SUCCESS: Found " + IntToString(|results.value|) + " sequences containing pattern '" + p + "'", results)
  }

  /**
   * The search rejects, in this order, a blank pattern, a missing or lost
   * connection, a source without a dot and a pattern with fewer than 3 bases
   * left; each rejection shows no rows.
   */
  lemma SearchGates(pattern: string, db: Option<Database>, sourceInfo: string, limit: int)
    ensures var r := SearchSequencesByPattern(pattern, db, sourceInfo, limit);
      (IsBlank(pattern) ==> r == (EmptyPatternMessage, None)) &&
      (!IsBlank(pattern) && ConnectionGate(db).Some? ==> r == (ConnectionGate(db).value, None)) &&
      (!IsBlank(pattern) && ConnectionGate(db).None? && !ValidSource(sourceInfo) ==> r == (InvalidSourceMessage, None)) &&
      ((!IsBlank(pattern) && ConnectionGate(db).None? && ValidSource(sourceInfo) &&
        |DnaQueries.CleanPattern(pattern)| < 3) ==> r == (ShortPatternMessage, None))
  {
  }

  /** Past the gates, the search reports what the query for the cleaned pattern gives. */
  lemma SearchReaches(pattern: string, db: Option<Database>, sourceInfo: string, limit: int,
                      p: string, table: string, column: string)
    requires !IsBlank(pattern) && ConnectionGate(db).None? && ValidSource(sourceInfo)
    requires p == DnaQueries.CleanPattern(pattern) && |p| >= 3
    requires (table, column) == SplitSource(sourceInfo)
    ensures SearchSequencesByPattern(pattern, db, sourceInfo, limit) ==
      SearchReport(p, db.value.run(DnaQueries.SearchQueryText(p, table, column, limit)))
  {
    DnaQueries.CleanPatternIdempotent(pattern);
    DnaQueries.CleanSearchRuns(db.value, p, table, column, limit);
  }

  /**
   * Past the gates, the search shows the rows of the query for the pattern
   * cleaned once (the database layer's second cleaning changes nothing) when
   * they form a non-empty frame, and reports their number.
   */
  lemma SearchFound(pattern: string, db: Option<Database>, sourceInfo: string, limit: int,
                    p: string, table: string, column: string)
    requires !IsBlank(pattern) && ConnectionGate(db).None? && ValidSource(sourceInfo)
    requires p == DnaQueries.CleanPattern(pattern) && |p| >= 3
    requires (table, column) == SplitSource(sourceInfo)
    requires var rows := db.value.run(DnaQueries.SearchQueryText(p, table, column, limit));
      rows.Some? && !EmptyFrame(rows.value)
    ensures var rows := db.value.run(DnaQueries.SearchQueryText(p, table, column, limit));
      SearchSequencesByPattern(pattern, db, sourceInfo, limit) ==
        ("SUCCESS: Found " + IntToString(|rows.value|) + " sequences containing pattern '" + p + "'", rows)
  {
    SearchReaches(pattern, db, sourceInfo, limit, p, table, column);
  }

  /** Past the gates, a failed query or an empty frame gives the no-match status, naming the cleaned pattern. */
  lemma SearchNotFound(pattern: string, db: Option<Database>, sourceInfo: string, limit: int,
                       p: string, table: string, column: string)
    requires !IsBlank(pattern) && ConnectionGate(db).None? && ValidSource(sourceInfo)
    requires p == DnaQueries.CleanPattern(pattern) && |p| >= 3
    requires (table, column) == SplitSource(sourceInfo)
    requires var rows := db.value.run(DnaQueries.SearchQueryText(p, table, column, limit));
      rows.None? || EmptyFrame(rows.value)
    ensures SearchSequencesByPattern(pattern, db, sourceInfo, limit) == (NoMatchMessage(p), None)
  {
    SearchReaches(pattern, db, sourceInfo, limit, p, table, column);
  }

  // ---------------------------------------------------------------- execute_query

  /** The rewrite applies when the stripped, upper-cased query starts with SELECT and has no LIMIT. */
  predicate NeedsLimit(query: string)
  {
    var upper := Strip(Upper(query));
    StartsWith(upper, "SELECT") && !Contains(upper, "LIMIT")
  }

  /** `f" LIMIT {limit};"` */
  function LimitClause(limit: int): string
  {
    " " + ("LIMIT" + (" " + IntToString(limit) + ";"))
  }

  /** `f"{query.rstrip(';')} LIMIT {limit};"` when the rewrite applies, else the query unchanged. */
  function LimitRewrite(query: string, limit: int): string
  {
    if NeedsLimit(query) then RStripChar(query, ';') + LimitClause(limit) else query
  }

  /**
   * `r` is `query` with its trailing semicolons removed and `tail` appended:
   * it ends in `tail`, and what precedes `tail` is a prefix of `query` that
   * does not end in `;` and is followed in `query` only by semicolons.
   */
  predicate StrippedWithTail(query: string, r: string, tail: string)
  {
    EndsWith(r, tail) &&
    (var head := r[..|r| - |tail|];
     StartsWith(query, head) && (head == [] || head[|head| - 1] != ';') &&
     forall i :: |head| <= i < |query| ==> query[i] == ';')
  }

  /**
   * A rewritten query is the original with its trailing semicolons removed
   * and ` LIMIT n;` appended; any other query is left as it is.
   */
  lemma LimitRewriteShape(query: string, limit: int)
    ensures !NeedsLimit(query) ==> LimitRewrite(query, limit) == query
    ensures NeedsLimit(query) ==> StrippedWithTail(query, LimitRewrite(query, limit), LimitClause(limit))
  {
    if NeedsLimit(query) {
      RStripThenAppend(query, LimitClause(limit));
    }
  }

  lemma RStripThenAppend(query: string, tail: string)
    ensures StrippedWithTail(query, RStripChar(query, ';') + tail, tail)
  {
    var head := RStripChar(query, ';');
    var r := head + tail;
    assert r[..|r| - |tail|] == head;
    assert r[|r| - |tail|..] == tail;
  }

  /** After a rewrite the stripped, upper-cased query contains LIMIT, so a second rewrite does nothing. */
  lemma LimitRewriteIdempotent(query: string, limit: int, limit2: int)
    ensures LimitRewrite(LimitRewrite(query, limit), limit2) == LimitRewrite(query, limit)
  {
    if NeedsLimit(query) {
      var head := RStripChar(query, ';');
      var r := head + LimitClause(limit);
      ClauseShowsLimit(head, limit);
      OccursAfterStrip(Upper(r), "LIMIT", |head| + 1);
      assert !NeedsLimit(r);
    }
  }

  /** Upper-cased, a query with the clause appended holds LIMIT right after the head and ends in `;`. */
  lemma ClauseShowsLimit(head: string, limit: int)
    ensures var u := Upper(head + LimitClause(limit));
      OccursAt(u, "LIMIT", |head| + 1) && u[|u| - 1] == ';'
  {
    var r := head + LimitClause(limit);
    var u := Upper(r);
    var at := |head| + 1;
    var word := "LIMIT";
    assert forall m :: 0 <= m < 5 ==> r[at + m] == word[m];
    assert u[at .. at + 5] == word;
  }

  /** `execute_query` of the interface: the frame of the rewritten query, or the reason there is none. */
  function ExecuteQuery(db: Option<Database>, query: string, limit: int): (r: (string, Option<seq<Row>>))
    ensures IsBlank(query) ==> r == ("Please enter a SQL query", None)
    ensures !IsBlank(query) && ConnectionGate(db).Some? ==> r == (ConnectionGate(db).value, None)
    ensures r.1.Some? ==>
      !IsBlank(query) && ConnectionGate(db).None? &&
      db.value.run(LimitRewrite(query, limit)) == Some(r.1.value) &&
      r.0 == (if EmptyFrame(r.1.value) then "Query executed successfully but returned no rows"
              else "SUCCESS: Query executed successfully. Retrieved " + IntToString(|r.1.value|) + " rows.")
    ensures !IsBlank(query) && ConnectionGate(db).None? ==>
      var rows := db.value.run(LimitRewrite(query, limit));
      (rows.None? ==> r == ("Query executed but returned no data", None)) &&
      (rows.Some? ==> r.1 == rows)
  {
    if IsBlank(query) then ("Please enter a SQL query", None)
    else if ConnectionGate(db).Some? then (ConnectionGate(db).value, None)
    else
      var rewritten := LimitRewrite(query, limit);
      match Connection.ExecuteQuery(db.value, rewritten, true)
      case None => ("Query executed but returned no data", None)
      case Some(rows) =>
        if EmptyFrame(rows) then ("Query executed successfully but returned no rows", Some(rows))
        else ("SUCCESS: Query executed successfully. Retrieved " + IntToString(|rows|) + " rows.", Some(rows))
  }

  // ---------------------------------------------------------------- test_custom_function

  predicate OnlyDnaBases(s: string)
  {
    forall i :: 0 <= i < |s| ==> s[i] in DnaBases
  }

  /** The sequences after validation, or the message rejecting one; `""` stands for a sequence not given. */
  datatype Checked = Rejected(message: string) | Accepted(seq1: string, seq2: string)

  /** A given sequence is upper-cased and stripped, then must hold only A, T, C, G. */
  function CheckSequences(seq1: string, seq2: string): (r: Checked)
    ensures r.Accepted? ==>
      OnlyDnaBases(r.seq1) && OnlyDnaBases(r.seq2) &&
      r.seq1 == (if seq1 == [] then [] else Strip(Upper(seq1))) &&
      r.seq2 == (if seq2 == [] then [] else Strip(Upper(seq2)))
    ensures r.Rejected? <==>
      (seq1 != [] && !OnlyDnaBases(Strip(Upper(seq1)))) || (seq2 != [] && !OnlyDnaBases(Strip(Upper(seq2))))
  {
    var s1 := if seq1 == [] then [] else Strip(Upper(seq1));
    var s2 := if seq2 == [] then [] else Strip(Upper(seq2));
    if !OnlyDnaBases(s1) then Rejected("Error: Sequence 1 contains invalid characters. Only A, T, C, G allowed.")
    else if !OnlyDnaBases(s2) then Rejected("Error: Sequence 2 contains invalid characters. Only A, T, C, G allowed.")
    else Accepted(s1, s2)
  }

  /** The query to run, or the message refusing to build one. */
  datatype Built = Refused(message: string) | Query(text: string)

  function CustomQuery(functionName: string, s1: string, s2: string): Built
  {
    if functionName == "classify_sequence" then
      if s1 == [] then Refused("Error: Sequence 1 is required for classification")
      else Query("SELECT '" + s1 + "' as input_sequence, classify_sequence('" + s1 + "') as classification;")
    else if functionName == "count_nucleotides" then
      if s1 == [] then Refused("Error: Sequence 1 is required for nucleotide counting")
      else Query("SELECT '" + s1 + "' as input_sequence, count_nucleotides('" + s1 + "') as nucleotide_counts;")
    else if functionName == "detect_mutations" then
      if s1 == [] || s2 == [] then Refused("Error: Both sequences are required for mutation detection")
      else Query("SELECT '" + s1 + "' as sequence1, '" + s2 + "' as sequence2, detect_mutations('"
                 + s1 + "', '" + s2 + "') as mutations;")
    else Refused("Error: Unknown function: " + functionName)
  }

  /** Validation first, then the dispatch on the function name. */
  function TestQuery(functionName: string, seq1: string, seq2: string): Built
  {
    match CheckSequences(seq1, seq2)
    case Rejected(message) => Refused(message)
    case Accepted(s1, s2) => CustomQuery(functionName, s1, s2)
  }

  /**
   * A query is built only from sequences that were given and hold nothing but
   * A, T, C, G after upper-casing and stripping, so no quote can end the SQL
   * string early; the second sequence takes part only in `detect_mutations`.
   */
  lemma TestQueryValidated(functionName: string, seq1: string, seq2: string)
    requires TestQuery(functionName, seq1, seq2).Query?
    ensures var s1 := Strip(Upper(seq1));
      seq1 != [] && s1 != [] && OnlyDnaBases(s1) && '\'' !in s1 &&
      (functionName == "detect_mutations" ==>
        var s2 := Strip(Upper(seq2));
        seq2 != [] && s2 != [] && OnlyDnaBases(s2) && '\'' !in s2 &&
        TestQuery(functionName, seq1, seq2) == CustomQuery(functionName, s1, s2))
    ensures functionName != "detect_mutations" ==>
      TestQuery(functionName, seq1, seq2) == CustomQuery(functionName, Strip(Upper(seq1)), [])
  {
    var c := CheckSequences(seq1, seq2);
    NoQuote(c.seq1);
    NoQuote(c.seq2);
  }

  lemma NoQuote(s: string)
    requires OnlyDnaBases(s)
    ensures '\'' !in s
  {
  }

  /**
   * Only the three known names give a query; `classify_sequence` and
   * `count_nucleotides` need the first sequence, `detect_mutations` both;
   * any other name is refused by name.
   */
  lemma CustomQueryDispatch(functionName: string, s1: string, s2: string)
    ensures var b := CustomQuery(functionName, s1, s2);
      b.Query? <==>
        ((functionName == "classify_sequence" || functionName == "count_nucleotides") && s1 != []) ||
        (functionName == "detect_mutations" && s1 != [] && s2 != [])
    ensures functionName !in {"classify_sequence", "count_nucleotides", "detect_mutations"} ==>
      CustomQuery(functionName, s1, s2) == Refused("Error: Unknown function: " + functionName)
  {
  }

  /** How a cell prints: `None` for SQL NULL, else its text. */
  function Render(v: Value): string
  {
    match v
    case Null => "None"
    case Text(t) => t
  }

  /** The line printed for one column of a row. */
  function CellLine(cell: (string, Value)): string
  {
    "  " + cell.0 + ": " + Render(cell.1) + "\n"
  }

  function CellsText(cells: Row): string
  {
    if cells == [] then [] else CellsText(cells[..|cells| - 1]) + CellLine(cells[|cells| - 1])
  }

  /** Each row prints its column lines followed by an empty line. */
  function RowsText(rows: seq<Row>): string
  {
    if rows == [] then [] else RowsText(rows[..|rows| - 1]) + CellsText(rows[|rows| - 1]) + "\n"
  }

  function ResultHeader(functionName: string, query: string): string
  {
    functionName + "() Results:\n\n" + "Query: " + query + "\n\n" + "Results:\n"
  }

  /** The result text is built row by row. */
  method FormatResults(functionName: string, query: string, rows: seq<Row>) returns (text: string)
    ensures text == ResultHeader(functionName, query) + RowsText(rows)
  {
    var header := ResultHeader(functionName, query);
    text := header;
    var i := 0;
    while i < |rows|
      invariant 0 <= i <= |rows|
      invariant text == header + RowsText(rows[..i])
    {
      var rowText := FormatRow(rows[i]);
      assert rows[..i + 1][..i] == rows[..i];
      AppendGrouped(header, RowsText(rows[..i]), rowText + "\n");
      text := text + (rowText + "\n");
      i := i + 1;
    }
    assert rows[..i] == rows;
  }

  lemma AppendGrouped(a: string, b: string, c: string)
    ensures a + b + c == a + (b + c)
  {
  }

  /** The lines of one row, one column line at a time. */
  method FormatRow(row: Row) returns (text: string)
    ensures text == CellsText(row)
  {
    text := [];
    var j := 0;
    while j < |row|
      invariant 0 <= j <= |row|
      invariant text == CellsText(row[..j])
    {
      assert row[..j + 1][..j] == row[..j];
      text := text + CellLine(row[j]);
      j := j + 1;
    }
    assert row[..j] == row;
  }

  /** Every column of every row appears in the result text as its own line. */
  lemma {:induction false} RowsTextShowsEveryCell(rows: seq<Row>, i: nat, j: nat)
    requires i < |rows| && j < |rows[i]|
    ensures Contains(RowsText(rows), CellLine(rows[i][j]))
  {
    var last := |rows| - 1;
    var front, line := RowsText(rows[..last]), CellLine(rows[i][j]);
    if i == last {
      CellsTextShowsEveryCell(rows[i], j);
      ContainsRight(front, CellsText(rows[last]), line);
    } else {
      assert rows[..last][i] == rows[i];
      RowsTextShowsEveryCell(rows[..last], i, j);
      ContainsLeft(front, CellsText(rows[last]), line);
    }
    ContainsLeft(front + CellsText(rows[last]), "\n", line);
  }

  lemma {:induction false} CellsTextShowsEveryCell(cells: Row, j: nat)
    requires j < |cells|
    ensures Contains(CellsText(cells), CellLine(cells[j]))
  {
    var last := |cells| - 1;
    var front, line := CellsText(cells[..last]), CellLine(cells[j]);
    if j == last {
      assert OccursAt(line, line, 0);
      ContainsRight(front, line, line);
    } else {
      assert cells[..last][j] == cells[j];
      CellsTextShowsEveryCell(cells[..last], j);
      ContainsLeft(front, CellLine(cells[last]), line);
    }
  }

  /**
   * `test_custom_function`: the refusal message, or the query run through
   * the interface's `execute_query` with limit 10 and its rows printed
   * (the printed query is the one built, before the LIMIT rewrite).
   */
  method TestCustomFunction(db: Option<Database>, functionName: string, seq1: string, seq2: string)
    returns (text: string)
    ensures TestQuery(functionName, seq1, seq2).Refused? ==> text == TestQuery(functionName, seq1, seq2).message
    ensures TestQuery(functionName, seq1, seq2).Query? ==>
      var query := TestQuery(functionName, seq1, seq2).text;
      var (status, frame) := ExecuteQuery(db, query, 10);
      if frame.Some? && !EmptyFrame(frame.value) then
        text == Strip(ResultHeader(functionName, query) + RowsText(frame.value))
      else
        text == "Error: Query failed: " + status
  {
    match TestQuery(functionName, seq1, seq2) {
      case Refused(message) =>
        return message;
      case Query(query) =>
        var (status, frame) := ExecuteQuery(db, query, 10);
        if frame.Some? && !EmptyFrame(frame.value) {
          var resultText := FormatResults(functionName, query, frame.value);
          return Strip(resultText);
        }
        return "Error: Query failed: " + status;
    }
  }

  // ---------------------------------------------------------------- analyze_dna_sequence

  /** `sequence.upper().replace(" ", "").replace("\n", "")` */
  function NormalizeDna(sequence: string): string
  {
    Drop(Drop(Upper(sequence), ' '), '\n')
  }

  /** The GC window's own normalisation leaves a normalised sequence as it is. */
  lemma NormalizedFixed(sequence: string)
    ensures NucleotideComposition.Normalized(NormalizeDna(sequence)) == NormalizeDna(sequence)
  {
    var s := NormalizeDna(sequence);
    assert forall x :: x in s ==> x in Upper(sequence);
    assert forall i :: 0 <= i < |s| ==> !('a' <= s[i] <= 'z') by {
      forall i | 0 <= i < |s|
        ensures !('a' <= s[i] <= 'z')
      {
        assert s[i] in Upper(sequence);
      }
    }
    UpperFixed(s);
    DropAbsent(s, ' ');
  }

  /** A sequence that is not blank keeps at least one character after normalisation. */
  lemma NonBlankNormalizesNonEmpty(sequence: string)
    requires !IsBlank(sequence)
    ensures NormalizeDna(sequence) != []
  {
    BlankIffAllSpace(sequence);
    var i :| 0 <= i < |sequence| && !IsSpace(sequence[i]);
    var u := Upper(sequence);
    assert u[i] == UpperChar(sequence[i]) && u[i] != ' ' && u[i] != '\n';
    DropKeeps(u, ' ', i);
    var j :| 0 <= j < |Drop(u, ' ')| && Drop(u, ' ')[j] == u[i];
    DropKeeps(Drop(u, ' '), '\n', j);
  }

  /** A character other than the one dropped is still there after `Drop`. */
  lemma {:induction false} DropKeeps(s: string, c: char, i: nat)
    requires i < |s| && s[i] != c
    ensures exists j :: 0 <= j < |Drop(s, c)| && Drop(s, c)[j] == s[i]
  {
    if i == 0 {
      assert Drop(s, c)[0] == s[0];
    } else {
      DropKeeps(s[1..], c, i - 1);
      var j :| 0 <= j < |Drop(s[1..], c)| && Drop(s[1..], c)[j] == s[1..][i - 1];
      var head := if s[0] == c then [] else [s[0]];
      assert Drop(s, c) == head + Drop(s[1..], c);
      assert Drop(s, c)[|head| + j] == s[i];
    }
  }

  /** The data of the three figures `analyze_dna_sequence` shows. */
  datatype DnaFigures = DnaFigures(
    composition: NucleotideComposition.PieChart,
    gcContent: GcWindow.GcSignal,
    helix: DoubleHelix.HelixFigure)

  /**
   * `analyze_dna_sequence`: blank input and a missing visualizer are
   * rejected; otherwise the normalised sequence, never empty, feeds the
   * composition pie, the GC window of width 50 and the helix of at most 50
   * bases, and the status reports its length.
   */
  method AnalyzeDnaSequence(sequence: string, visualizerReady: bool, cos: real -> real, sin: real -> real)
    returns (figures: Option<DnaFigures>, status: string)
    ensures IsBlank(sequence) ==> figures == None && status == "Please enter a DNA sequence"
    ensures !IsBlank(sequence) && !visualizerReady ==> figures == None && status == "Visualizer not initialized"
    ensures !IsBlank(sequence) && visualizerReady ==>
      var s := NormalizeDna(sequence);
      s != [] && figures.Some? &&
      figures.value.composition == NucleotideComposition.NucleotidePie(s) &&
      (figures.value.gcContent.SequenceTooShort? <==> |s| < 50) && !figures.value.gcContent.StepIsZero? &&
      !figures.value.helix.NoSequenceProvided? &&
      (figures.value.helix.NoValidDnaBases? <==> DoubleHelix.CleanHelixSequence(s, 50) == []) &&
      (figures.value.gcContent.Signal? ==>
        GcWindow.Windows(s, 50, 12, figures.value.gcContent.positions, figures.value.gcContent.gcContents)) &&
      (figures.value.helix.Figure? ==>
        var h := figures.value.helix;
        h.bases == DoubleHelix.CleanHelixSequence(s, 50) &&
        h.strand1 == DoubleHelix.Strand1(|h.bases|, cos, sin) && h.strand2 == DoubleHelix.Strand2(|h.bases|, cos, sin) &&
        |h.traces| == 2 + 3 * |h.bases|) &&
      status == "SUCCESS: Analysis completed for sequence of length " + IntToString(|s|) + " bp"
  {
    if IsBlank(sequence) {
      return None, "Please enter a DNA sequence";
    }
    if !visualizerReady {
      return None, "Visualizer not initialized";
    }
    var s := NormalizeDna(sequence);
    NonBlankNormalizesNonEmpty(sequence);
    var composition := NucleotideComposition.NucleotidePie(s);
    NormalizedFixed(sequence);
    var gc := GcWindow.GcContentWindow(s, 50);
    assert GcWindow.Step(50) == 12;
    assert NucleotideComposition.Normalized(s) == s;
    assert gc.Signal? ==> GcWindow.Windows(s, 50, 12, gc.positions, gc.gcContents);
    var helix := DoubleHelix.PlotDnaDoubleHelix(s, 50, cos, sin);
    figures := Some(DnaFigures(composition, gc, helix));
    status := "SUCCESS: Analysis completed for sequence of length " + IntToString(|s|) + " bp";
  }
}
