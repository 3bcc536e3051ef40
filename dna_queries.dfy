/**
 * The query builders of `BiocatDatabase`: `get_dna_sequences`,
 * `search_sequences_by_pattern` and `get_random_dna_sequences`.
 *
 * Each selects an SQL template by the exact table name (its "shape") and
 * interpolates the column, the table, the numbers and, for the search, the
 * cleaned pattern. The templates are rendered on one line with single
 * spaces; the source's line breaks and indentation are not modelled. A
 * query text is built as the concatenation of its pieces, so that the
 * properties of the template can be read off the pieces.
 */
module DnaQueries {
  import opened Wrappers
  import opened Text
  import opened Connection

  /** Which template a table name selects. */
  datatype Shape = ChromosomeShape | GeneShape | TranscriptShape | GenericShape

  /** `get_dna_sequences` has dedicated templates for chromosome, gene and transcript. */
  function FetchShape(table: string): Shape
  {
    if table == "chromosome" then ChromosomeShape
    else if table == "gene" then GeneShape
    else if table == "transcript" then TranscriptShape
    else GenericShape
  }

  /** `search_sequences_by_pattern` has dedicated templates for gene and transcript only. */
  function SearchShape(table: string): Shape
  {
    if table == "gene" then GeneShape
    else if table == "transcript" then TranscriptShape
    else GenericShape
  }

  /** The column as the template names it: behind the table's alias, or bare in the generic template. */
  function QualifiedColumn(shape: Shape, column: string): string
  {
    match shape
    case ChromosomeShape => "c." + column
    case GeneShape => "g." + column
    case TranscriptShape => "t." + column
    case GenericShape => column
  }

  /** The `FROM` clause: the dedicated table with its alias, or the table name itself. */
  function FromClause(shape: Shape, table: string): string
  {
    match shape
    case ChromosomeShape => " FROM chromosome c"
    case GeneShape => " FROM gene g"
    case TranscriptShape => " FROM transcript t"
    case GenericShape => " FROM " + table
  }

  /** `LEFT(qc, width)`: the first `width` characters of the column, as a preview. */
  function Left(qc: string, width: string): string
  {
    "LEFT(" + qc + ", " + width + ")"
  }

  function NotNull(qc: string): string
  {
    qc + " IS NOT NULL"
  }

  function MinLength(qc: string, minLength: int): string
  {
    "LENGTH(" + qc + ") >= " + IntToString(minLength)
  }

  function Limit(limit: int): string
  {
    " LIMIT " + IntToString(limit)
  }

  // ---------------------------------------------------------------- get_dna_sequences

  /** The start of a fetch template's select list, up to the preview. */
  function FetchSelectList(shape: Shape, column: string): string
  {
    match shape
    case ChromosomeShape => "SELECT c.chromosome_id, c.chromosome_name, s.species_name, c.sequence_length, "
    case GeneShape =>
      "SELECT g.gene_id, g.gene_symbol, g.gene_name, s.species_name, c.chromosome_name, LENGTH(g." + column + ") as sequence_length, "
    case TranscriptShape =>
      "SELECT t.transcript_id, t.transcript_stable_id, g.gene_symbol, g.gene_name, s.species_name, LENGTH(t." + column + ") as sequence_length, "
    case GenericShape => "SELECT *, LENGTH(" + column + ") as sequence_length, "
  }

  function FetchJoins(shape: Shape): string
  {
    match shape
    case ChromosomeShape =>
      " JOIN genome_assembly ga ON c.assembly_id = ga.assembly_id JOIN species s ON ga.species_id = s.species_id"
    case GeneShape =>
      " JOIN species s ON g.species_id = s.species_id LEFT JOIN chromosome c ON g.chromosome_id = c.chromosome_id"
    case TranscriptShape =>
      " JOIN gene g ON t.gene_id = g.gene_id JOIN species s ON g.species_id = s.species_id"
    case GenericShape => ""
  }

  function FetchOrder(shape: Shape, qc: string): string
  {
    match shape
    case ChromosomeShape => " ORDER BY c.sequence_length DESC"
    case _ => " ORDER BY LENGTH(" + qc + ") DESC"
  }

  function FetchParts(table: string, column: string, limit: int, minLength: int): seq<string>
  {
    var shape := FetchShape(table);
    var qc := QualifiedColumn(shape, column);
    [FetchSelectList(shape, column),
     Left(qc, "1000"),
     " as sequence_preview, ",
     qc + " as full_sequence",
     FromClause(shape, table),
     FetchJoins(shape),
     " WHERE ",
     NotNull(qc),
     " AND ",
     MinLength(qc, minLength),
     FetchOrder(shape, qc),
     Limit(limit)]
  }

  /** The query text `get_dna_sequences` builds. */
  function FetchQuery(table: string, column: string, limit: int, minLength: int): string
  {
    Join(FetchParts(table, column, limit, minLength))
  }

  /**
   * Every fetch template reads the table the name selects, previews 1000
   * characters, filters out NULL and values shorter than `min_length`, and
   * ends with `LIMIT limit`.
   */
  lemma FetchQueryTemplate(table: string, column: string, limit: int, minLength: int)
    ensures var q := FetchQuery(table, column, limit, minLength);
      var shape := FetchShape(table);
      var qc := QualifiedColumn(shape, column);
      StartsWith(q, FetchSelectList(shape, column)) &&
      Contains(q, FromClause(shape, table)) &&
      Contains(q, Left(qc, "1000")) &&
      Contains(q, NotNull(qc)) &&
      Contains(q, MinLength(qc, minLength)) &&
      EndsWith(q, Limit(limit))
  {
    var parts := FetchParts(table, column, limit, minLength);
    var q := Join(parts);
    JoinEnds(parts);
    assert Contains(q, parts[4]) by { JoinContains(parts, 4); }
    assert Contains(q, parts[1]) by { JoinContains(parts, 1); }
    assert Contains(q, parts[7]) by { JoinContains(parts, 7); }
    assert Contains(q, parts[9]) by { JoinContains(parts, 9); }
  }

  /**
   * Only the exact names `chromosome`, `gene` and `transcript` select a
   * dedicated template, which reads the column behind the table's alias;
   * any other name, including one that differs only in case, gets the
   * generic `SELECT *` template over that table and the bare column.
   */
  lemma FetchShapeByName(table: string, column: string)
    ensures FetchShape(table) != GenericShape <==> table in ["chromosome", "gene", "transcript"]
    ensures FetchShape(table) != GenericShape ==>
      QualifiedColumn(FetchShape(table), column) == [table[0], '.'] + column
    ensures FetchShape(table) == GenericShape ==>
      QualifiedColumn(FetchShape(table), column) == column && FromClause(GenericShape, table) == " FROM " + table
  {
  }

  /** `get_dna_sequences`: `None` when disconnected or when the query fails, else its rows. */
  function GetDnaSequences(db: Database, table: string, column: string, limit: int, minLength: int): (r: Option<seq<Row>>)
    ensures r.None? <==> !db.connected || db.run(FetchQuery(table, column, limit, minLength)).None?
    ensures r.Some? ==> r.value == db.run(FetchQuery(table, column, limit, minLength)).value
  {
    if !db.connected then None
    else ExecuteQuery(db, FetchQuery(table, column, limit, minLength), true)
  }

  // ---------------------------------------------------------------- search_sequences_by_pattern

  /** `re.sub(r"[^ATCG]", "", pattern.upper())` */
  function CleanPattern(pattern: string): (r: string)
    ensures forall x :: x in r ==> x in DnaBases
    ensures |r| <= |pattern|
    ensures forall c :: c in DnaBases ==> Count(r, c) == Count(Upper(pattern), c)
  {
    KeepOnlyCounts(Upper(pattern), DnaBases);
    KeepOnly(Upper(pattern), DnaBases)
  }

  /** Cleaning an already cleaned pattern changes nothing. */
  lemma CleanPatternIdempotent(pattern: string)
    ensures CleanPattern(CleanPattern(pattern)) == CleanPattern(pattern)
  {
    var p := CleanPattern(pattern);
    assert forall i :: 0 <= i < |p| ==> p[i] in DnaBases by {
      forall i | 0 <= i < |p| ensures p[i] in DnaBases {
        assert p[i] in p;
      }
    }
    UpperFixed(p);
    KeepOnlyIdempotent(p, DnaBases);
  }

  function SearchSelectList(shape: Shape, column: string): string
  {
    match shape
    case GeneShape => "SELECT g.gene_symbol, g.gene_name, s.species_name, LENGTH(g." + column + ") as sequence_length, "
    case TranscriptShape =>
      "SELECT t.transcript_stable_id, g.gene_symbol, s.species_name, LENGTH(t." + column + ") as sequence_length, "
    case _ => "SELECT *, LENGTH(" + column + ") as sequence_length, "
  }

  function SearchJoins(shape: Shape): string
  {
    match shape
    case GeneShape => " JOIN species s ON g.species_id = s.species_id"
    case TranscriptShape => " JOIN gene g ON t.gene_id = g.gene_id JOIN species s ON g.species_id = s.species_id"
    case _ => ""
  }

  function SearchOrder(shape: Shape, qc: string): string
  {
    if shape == GeneShape || shape == TranscriptShape then " ORDER BY sequence_length DESC"
    else " ORDER BY LENGTH(" + qc + ") DESC"
  }

  /** `LOCATE('p', qc)`: the position of the pattern in the column. */
  function Locate(cleanPattern: string, qc: string): string
  {
    "LOCATE('" + cleanPattern + "', " + qc + ")"
  }

  function Like(qc: string): string
  {
    " WHERE " + qc + " LIKE "
  }

  /** `'%p%'`: the `LIKE` pattern matching the pattern anywhere. */
  function Anywhere(cleanPattern: string): string
  {
    "'%" + cleanPattern + "%'"
  }

  function SearchParts(cleanPattern: string, table: string, column: string, limit: int): seq<string>
  {
    var shape := SearchShape(table);
    var qc := QualifiedColumn(shape, column);
    [SearchSelectList(shape, column),
     Locate(cleanPattern, qc),
     " as pattern_position, ",
     Left(qc, "500"),
     " as sequence_preview",
     FromClause(shape, table),
     SearchJoins(shape),
     Like(qc),
     Anywhere(cleanPattern),
     SearchOrder(shape, qc),
     Limit(limit)]
  }

  /** The query text for an already cleaned pattern. */
  function SearchQueryText(cleanPattern: string, table: string, column: string, limit: int): string
  {
    Join(SearchParts(cleanPattern, table, column, limit))
  }

  /** The query `search_sequences_by_pattern` builds, or `None` when fewer than 3 bases are left. */
  function SearchQuery(pattern: string, table: string, column: string, limit: int): (r: Option<string>)
    ensures r.None? <==> |CleanPattern(pattern)| < 3
  {
    var p := CleanPattern(pattern);
    if |p| < 3 then None else Some(SearchQueryText(p, table, column, limit))
  }

  /** A search query reads the table the name selects and ends with `LIMIT limit`. */
  lemma SearchQueryTemplate(cleanPattern: string, table: string, column: string, limit: int)
    ensures var q := SearchQueryText(cleanPattern, table, column, limit);
      var shape := SearchShape(table);
      StartsWith(q, SearchSelectList(shape, column)) &&
      Contains(q, FromClause(shape, table)) &&
      Contains(q, Like(QualifiedColumn(shape, column))) &&
      EndsWith(q, Limit(limit))
  {
    var parts := SearchParts(cleanPattern, table, column, limit);
    var q := Join(parts);
    JoinEnds(parts);
    assert Contains(q, parts[5]) by { JoinContains(parts, 5); }
    assert Contains(q, parts[7]) by { JoinContains(parts, 7); }
  }

  /**
   * A search query interpolates the cleaned pattern into `LOCATE` and into
   * the `LIKE` pattern, and previews 500 characters.
   */
  lemma SearchPatternPlacement(cleanPattern: string, table: string, column: string, limit: int)
    ensures var q := SearchQueryText(cleanPattern, table, column, limit);
      var qc := QualifiedColumn(SearchShape(table), column);
      Contains(q, Locate(cleanPattern, qc)) &&
      Contains(q, Anywhere(cleanPattern)) &&
      Contains(q, Left(qc, "500"))
  {
    var parts := SearchParts(cleanPattern, table, column, limit);
    var q := Join(parts);
    assert Contains(q, parts[1]) by { JoinContains(parts, 1); }
    assert Contains(q, parts[8]) by { JoinContains(parts, 8); }
    assert Contains(q, parts[3]) by { JoinContains(parts, 3); }
  }

  /**
   * The only text taken from the user's pattern that reaches the query is the
   * cleaned pattern: at least 3 characters of A/T/C/G, hence without a quote,
   * a backslash or a `LIKE` wildcard.
   */
  lemma SearchPatternIsSafe(pattern: string, table: string, column: string, limit: int)
    requires SearchQuery(pattern, table, column, limit).Some?
    ensures var p := CleanPattern(pattern);
      SearchQuery(pattern, table, column, limit).value == SearchQueryText(p, table, column, limit) &&
      |p| >= 3 && '\'' !in p && '%' !in p && '_' !in p && '\\' !in p
  {
    CleanPatternPlain(pattern);
  }

  /** A cleaned pattern holds no quote, backslash or `LIKE` wildcard. */
  lemma CleanPatternPlain(pattern: string)
    ensures var p := CleanPattern(pattern);
      '\'' !in p && '%' !in p && '_' !in p && '\\' !in p
  {
    assert '\'' !in DnaBases && '%' !in DnaBases && '_' !in DnaBases && '\\' !in DnaBases;
  }

  /**
   * A chromosome table gets its dedicated template when fetching but the
   * generic one when searching: the search reads the bare column of the table
   * named `chromosome`, without the alias.
   */
  lemma ChromosomeSearchIsGeneric(pattern: string, column: string, limit: int)
    requires |CleanPattern(pattern)| >= 3
    ensures FetchShape("chromosome") == ChromosomeShape && SearchShape("chromosome") == GenericShape
    ensures var q := SearchQuery(pattern, "chromosome", column, limit).value;
      StartsWith(q, SearchSelectList(GenericShape, column)) &&
      Contains(q, FromClause(GenericShape, "chromosome")) && Contains(q, Like(column))
  {
    SearchQueryTemplate(CleanPattern(pattern), "chromosome", column, limit);
  }

  /** `search_sequences_by_pattern`: `None` when disconnected, for a short pattern, or when the query fails. */
  function SearchSequencesByPattern(db: Database, pattern: string, table: string, column: string, limit: int)
    : (r: Option<seq<Row>>)
    ensures !db.connected || |CleanPattern(pattern)| < 3 ==> r.None?
    ensures db.connected && |CleanPattern(pattern)| >= 3 ==>
      var q := SearchQuery(pattern, table, column, limit).value;
      (r.None? <==> db.run(q).None?) && (r.Some? ==> r.value == db.run(q).value)
  {
    if !db.connected then None
    else match SearchQuery(pattern, table, column, limit)
      case None => None
      case Some(q) => ExecuteQuery(db, q, true)
  }
  /** An already cleaned pattern of at least 3 bases runs its own search query. */
  lemma CleanSearchRuns(db: Database, p: string, table: string, column: string, limit: int)
    requires db.connected && CleanPattern(p) == p && |p| >= 3
    ensures SearchSequencesByPattern(db, p, table, column, limit) == db.run(SearchQueryText(p, table, column, limit))
  {
    assert SearchQuery(p, table, column, limit) == Some(SearchQueryText(p, table, column, limit));
  }


  // ---------------------------------------------------------------- get_random_dna_sequences

  function RandomParts(table: string, column: string, count: int): seq<string>
  {
    ["SELECT " + column + " as sequence",
     " FROM " + table,
     " WHERE ",
     column + " IS NOT NULL",
     " AND ",
     "LENGTH(" + column + ") >= 20",
     " AND ",
     "LENGTH(" + column + ") <= 5000",
     " ORDER BY RAND()",
     " LIMIT " + IntToString(count)]
  }

  /** The query text `get_random_dna_sequences` builds. */
  function RandomQuery(table: string, column: string, count: int): string
  {
    Join(RandomParts(table, column, count))
  }

  /** The random query keeps lengths within [20, 5000], shuffles, and returns at most `count` rows. */
  lemma RandomQueryTemplate(table: string, column: string, count: int)
    ensures var q := RandomQuery(table, column, count);
      StartsWith(q, "SELECT " + column + " as sequence") &&
      Contains(q, " FROM " + table) &&
      Contains(q, column + " IS NOT NULL") &&
      Contains(q, "LENGTH(" + column + ") >= 20") &&
      Contains(q, "LENGTH(" + column + ") <= 5000") &&
      Contains(q, " ORDER BY RAND()") &&
      EndsWith(q, " LIMIT " + IntToString(count))
  {
    var parts := RandomParts(table, column, count);
    var q := Join(parts);
    JoinEnds(parts);
    assert Contains(q, " FROM " + table) by { JoinContains(parts, 1); }
    assert Contains(q, column + " IS NOT NULL") by { JoinContains(parts, 3); }
    assert Contains(q, "LENGTH(" + column + ") >= 20") by { JoinContains(parts, 5); }
    assert Contains(q, "LENGTH(" + column + ") <= 5000") by { JoinContains(parts, 7); }
    assert Contains(q, " ORDER BY RAND()") by { JoinContains(parts, 8); }
  }

  /** A `sequence` cell Python finds truthy: non-NULL, non-empty text. */
  predicate IsSequenceValue(v: Option<Value>)
  {
    v.Some? && v.value.Text? && v.value.text != []
  }

  /**
   * `[row["sequence"] for row in result if row["sequence"]]`: `None` where a
   * row has no `sequence` column (the KeyError reaches the handler).
   */
  function SequenceValues(rows: seq<Row>): (r: Option<seq<string>>)
    ensures r.None? <==> exists i :: 0 <= i < |rows| && Lookup(rows[i], "sequence").None?
    ensures r.Some? ==> |r.value| <= |rows| && forall x :: x in r.value ==> x != []
  {
    if rows == [] then Some([])
    else
      var v := Lookup(rows[0], "sequence");
      var rest := SequenceValues(rows[1..]);
      assert forall i :: 1 <= i < |rows| ==> rows[i] == rows[1..][i - 1];
      if v.None? || rest.None? then None
      else Some((if IsSequenceValue(v) then [v.value.text] else []) + rest.value)
  }

  /**
   * The values are taken row by row, in row order: the values of two runs of
   * rows one after the other are the values of the first run followed by
   * those of the second, and a missing column anywhere makes the whole fail.
   */
  lemma {:induction false} SequenceValuesAppend(a: seq<Row>, b: seq<Row>)
    ensures SequenceValues(a + b).Some? <==> SequenceValues(a).Some? && SequenceValues(b).Some?
    ensures SequenceValues(a + b).Some? ==>
      SequenceValues(a + b).value == SequenceValues(a).value + SequenceValues(b).value
  {
    if a == [] {
      assert a + b == b;
    } else {
      assert (a + b)[0] == a[0];
      assert (a + b)[1..] == a[1..] + b;
      SequenceValuesAppend(a[1..], b);
    }
  }

  /** A single row contributes its `sequence` text exactly when that text is truthy. */
  lemma SequenceValueOfRow(row: Row)
    requires Lookup(row, "sequence").Some?
    ensures SequenceValues([row]).Some?
    ensures var v := Lookup(row, "sequence");
      SequenceValues([row]).value == if IsSequenceValue(v) then [v.value.text] else []
  {
    assert [row][1..] == [];
  }

  /** `get_random_dna_sequences`: `None` only when disconnected (or on a missing column), `[]` when the query gives nothing. */
  function GetRandomDnaSequences(db: Database, table: string, column: string, count: int): (r: Option<seq<string>>)
    ensures r.None? <==>
      !db.connected ||
      (var rows := db.run(RandomQuery(table, column, count));
       rows.Some? && exists i :: 0 <= i < |rows.value| && Lookup(rows.value[i], "sequence").None?)
    ensures db.connected && (db.run(RandomQuery(table, column, count)).None? || db.run(RandomQuery(table, column, count)).value == []) ==>
      r == Some([])
    ensures r.Some? && db.run(RandomQuery(table, column, count)).Some? ==>
      r == SequenceValues(db.run(RandomQuery(table, column, count)).value)
  {
    if !db.connected then None
    else match ExecuteQuery(db, RandomQuery(table, column, count), true)
      case None => Some([])
      case Some(rows) => if rows == [] then Some([]) else SequenceValues(rows)
  }
}
