/**
 * `BiocatDatabase.check_dna_sequence_availability`: the two-pass scan that
 * discovers which (table, column) pairs of the database hold sequence data.
 * The database is an oracle: what each probe query returns is a function of
 * the table and column it names.
 */
module SequenceSources {
  import opened Wrappers
  import opened Text
  import opened Connection

  /** One entry of `available_sequences`. */
  datatype SourceInfo = SourceInfo(description: string, table: string, column: string,
                                   sequenceCount: int, avgLength: Option<int>)

  /** The ordered dict `available_sequences`: keys with their entries, in insertion order. */
  type Sources = seq<(string, SourceInfo)>

  datatype Availability =
    | AvailabilityError(message: string)
    | Available(sources: Sources, totalSources: nat)

  /** The first pass's (table, column, description) list, in order. */
  const SequenceChecks: seq<(string, string, string)> := [
    ("chromosome", "sequence", "Chromosome sequences"),
    ("gene", "dna_sequence", "Gene DNA sequences"),
    ("transcript", "cdna_sequence", "cDNA sequences"),
    ("transcript", "dna_sequence", "Transcript DNA sequences"),
    ("protein", "protein_sequence", "Protein sequences (amino acids)"),
    ("exon", "sequence", "Exon sequences"),
    ("intron", "sequence", "Intron sequences")
  ]

  /** The tables the second pass describes, in order. */
  const ScannedTables: seq<string> := ["chromosome", "gene", "transcript", "protein", "exon", "intron"]

  /** No scanned table name contains a dot, so a `table.column` key splits back at its first dot. */
  lemma ScannedTablesPlain()
    ensures forall t :: t in ScannedTables ==> '.' !in t
  {
  }

  /** `f"{table}.{column}"` */
  function SourceKey(table: string, column: string): string
  {
    table + "." + column
  }

  /** The position of `key` in the dict, or -1. */
  function IndexOf(sources: Sources, key: string): (r: int)
    ensures -1 <= r < |sources|
    ensures r == -1 <==> forall i :: 0 <= i < |sources| ==> sources[i].0 != key
    ensures r >= 0 ==> sources[r].0 == key
  {
    if sources == [] then -1
    else if sources[|sources| - 1].0 == key then |sources| - 1
    else IndexOf(sources[..|sources| - 1], key)
  }

  /** `results[key] = info`: a present key keeps its place and takes the new entry; a new key goes last. */
  function Put(sources: Sources, key: string, info: SourceInfo): (r: Sources)
    ensures IndexOf(sources, key) >= 0 ==> r == sources[IndexOf(sources, key) := (key, info)]
    ensures IndexOf(sources, key) == -1 ==> r == sources + [(key, info)]
  {
    var i := IndexOf(sources, key);
    if i >= 0 then sources[i := (key, info)] else sources + [(key, info)]
  }

  /** `[item["column"] for item in results.values()]` */
  function Columns(sources: Sources): (r: seq<string>)
    ensures |r| == |sources|
    ensures forall i :: 0 <= i < |sources| ==> r[i] == sources[i].1.column
  {
    seq(|sources|, i requires 0 <= i < |sources| => sources[i].1.column)
  }

  /** Distinct keys, each `table.column` of its own entry, each with a positive count. */
  predicate WellFormed(sources: Sources)
  {
    (forall i, j :: 0 <= i < j < |sources| ==> sources[i].0 != sources[j].0) &&
    forall i :: 0 <= i < |sources| ==>
      sources[i].0 == SourceKey(sources[i].1.table, sources[i].1.column) && sources[i].1.sequenceCount > 0
  }

  // ---------------------------------------------------------------------------
  // First pass

  /** The statistics probe found data: a first row whose `sequence_count` is positive. */
  predicate ProbeFinds(db: Database, table: string, column: string)
  {
    db.stats(table, column).Rows? && db.stats(table, column).rows != [] &&
    db.stats(table, column).rows[0].sequenceCount > 0
  }

  function ProbeEntry(db: Database, check: (string, string, string)): (string, SourceInfo)
    requires ProbeFinds(db, check.0, check.1)
  {
    var row := db.stats(check.0, check.1).rows[0];
    (SourceKey(check.0, check.1), SourceInfo(check.2, check.0, check.1, row.sequenceCount, Some(row.avgLength)))
  }

  /** The entries the first pass records for `checks`: one per probe that finds data, in order. */
  function FirstPassSources(db: Database, checks: seq<(string, string, string)>): Sources
  {
    if checks == [] then []
    else
      var check := checks[|checks| - 1];
      FirstPassSources(db, checks[..|checks| - 1]) +
      (if ProbeFinds(db, check.0, check.1) then [ProbeEntry(db, check)] else [])
  }

  /** Every first-pass entry comes from one of `checks`, keyed by its table and column. */
  lemma {:induction false} FirstPassProvenance(db: Database, checks: seq<(string, string, string)>)
    ensures forall e :: e in FirstPassSources(db, checks) ==>
      exists k :: 0 <= k < |checks| && ProbeFinds(db, checks[k].0, checks[k].1) && e == ProbeEntry(db, checks[k])
  {
    if checks != [] {
      var n := |checks|;
      FirstPassProvenance(db, checks[..n - 1]);
      forall e | e in FirstPassSources(db, checks)
        ensures exists k :: 0 <= k < n && ProbeFinds(db, checks[k].0, checks[k].1) && e == ProbeEntry(db, checks[k])
      {
        if e in FirstPassSources(db, checks[..n - 1]) {
          var k :| 0 <= k < n - 1 && ProbeFinds(db, checks[..n - 1][k].0, checks[..n - 1][k].1) &&
                   e == ProbeEntry(db, checks[..n - 1][k]);
          assert checks[..n - 1][k] == checks[k];
        } else {
          assert ProbeFinds(db, checks[n - 1].0, checks[n - 1].1) && e == ProbeEntry(db, checks[n - 1]);
        }
      }
    }
  }

  /** A probe that finds data is recorded, whatever the other probes did. */
  lemma {:induction false} FirstPassComplete(db: Database, checks: seq<(string, string, string)>, k: nat)
    requires k < |checks| && ProbeFinds(db, checks[k].0, checks[k].1)
    ensures ProbeEntry(db, checks[k]) in FirstPassSources(db, checks)
  {
    var n := |checks|;
    if k < n - 1 {
      FirstPassComplete(db, checks[..n - 1], k);
      assert checks[..n - 1][k] == checks[k];
    }
  }

  /** The keys of the first-pass checks are pairwise distinct. */
  predicate DistinctCheckKeys(checks: seq<(string, string, string)>)
  {
    forall i, j :: 0 <= i < j < |checks| ==> SourceKey(checks[i].0, checks[i].1) != SourceKey(checks[j].0, checks[j].1)
  }

  lemma {:induction false} FirstPassKeys(db: Database, checks: seq<(string, string, string)>, key: string)
    requires forall k :: 0 <= k < |checks| ==> SourceKey(checks[k].0, checks[k].1) != key
    ensures IndexOf(FirstPassSources(db, checks), key) == -1
  {
    if checks != [] {
      var n := |checks|;
      FirstPassKeys(db, checks[..n - 1], key);
    }
  }

  /** A key splits back into its table and column when the table has no dot. */
  lemma KeySplit(t1: string, c1: string, t2: string, c2: string)
    requires '.' !in t1 && '.' !in t2
    requires SourceKey(t1, c1) == SourceKey(t2, c2)
    ensures t1 == t2 && c1 == c2
  {
    var key := SourceKey(t1, c1);
    FindAfterPrefix(t1, '.', c1);
    FindAfterPrefix(t2, '.', c2);
    assert t1 == key[..|t1|] == t2;
    assert c1 == key[|t1| + 1..] == c2;
  }

  /** The first-pass tables contain no dot and the first-pass checks name distinct (table, column) pairs. */
  lemma SequenceChecksKeysDistinct()
    ensures DistinctCheckKeys(SequenceChecks)
  {
    forall i, j | 0 <= i < j < |SequenceChecks|
      ensures SourceKey(SequenceChecks[i].0, SequenceChecks[i].1) != SourceKey(SequenceChecks[j].0, SequenceChecks[j].1)
    {
      var (ti, ci, _) := SequenceChecks[i];
      var (tj, cj, _) := SequenceChecks[j];
      assert '.' !in ti && '.' !in tj;
      assert ti != tj || ci != cj;
      if SourceKey(ti, ci) == SourceKey(tj, cj) {
        KeySplit(ti, ci, tj, cj);
      }
    }
  }

  /** One more check: a probe that finds data is assigned under a key no earlier check has. */
  lemma FirstPassStep(db: Database, k: nat)
    requires k < |SequenceChecks|
    ensures var check := SequenceChecks[k];
      FirstPassSources(db, SequenceChecks[..k + 1]) ==
        if ProbeFinds(db, check.0, check.1)
        then Put(FirstPassSources(db, SequenceChecks[..k]), SourceKey(check.0, check.1), ProbeEntry(db, check).1)
        else FirstPassSources(db, SequenceChecks[..k])
  {
    var check := SequenceChecks[k];
    assert SequenceChecks[..k + 1][..k] == SequenceChecks[..k];
    if ProbeFinds(db, check.0, check.1) {
      SequenceChecksKeysDistinct();
      FirstPassKeys(db, SequenceChecks[..k], SourceKey(check.0, check.1));
    }
  }

  /** The first pass: one statistics probe per check; a failed or raising probe is skipped. */
  method FirstPass(db: Database) returns (results: Sources)
    ensures results == FirstPassSources(db, SequenceChecks)
  {
    results := [];
    var k := 0;
    while k < |SequenceChecks|
      invariant 0 <= k <= |SequenceChecks|
      invariant results == FirstPassSources(db, SequenceChecks[..k])
    {
      var (table, column, description) := SequenceChecks[k];
      FirstPassStep(db, k);
      match db.stats(table, column) {
        case Rows(rows) =>
          if rows != [] {
            var row := rows[0];
            if row.sequenceCount > 0 {
              results := Put(results, SourceKey(table, column),
                             SourceInfo(description, table, column, row.sequenceCount, Some(row.avgLength)));
            }
          }
        case NoResult =>
        case Raises =>
      }
      k := k + 1;
    }
    assert SequenceChecks[..k] == SequenceChecks;
  }

  /** The first-pass entries are well formed: distinct keys, each its own `table.column`, positive counts. */
  lemma {:induction false} FirstPassWellFormed(db: Database, checks: seq<(string, string, string)>)
    requires DistinctCheckKeys(checks)
    ensures WellFormed(FirstPassSources(db, checks))
  {
    if checks != [] {
      var n := |checks|;
      var check := checks[n - 1];
      var key := SourceKey(check.0, check.1);
      assert DistinctCheckKeys(checks[..n - 1]);
      FirstPassWellFormed(db, checks[..n - 1]);
      assert forall k :: 0 <= k < n - 1 ==> checks[..n - 1][k] == checks[k];
      FirstPassKeys(db, checks[..n - 1], key);
    }
  }

  /** The first pass only records tables without a dot and lower-case columns. */
  predicate PlainNames(sources: Sources)
  {
    forall i :: 0 <= i < |sources| ==> '.' !in sources[i].1.table && Lower(sources[i].1.column) == sources[i].1.column
  }

  lemma LowerIdentity(s: string)
    requires forall i :: 0 <= i < |s| ==> !('A' <= s[i] <= 'Z')
    ensures Lower(s) == s
  {
  }

  /**
   * Check `k` names a table without a dot and a lower-case column. The seven
   * literals are taken one at a time: one assertion over all of them is more
   * than the solver handles cheaply.
   */
  lemma CheckPlain(k: nat)
    requires k < |SequenceChecks|
    ensures '.' !in SequenceChecks[k].0 && Lower(SequenceChecks[k].1) == SequenceChecks[k].1
  {
    var (table, column, _) := SequenceChecks[k];
    if k == 0 {
      assert (table, column) == ("chromosome", "sequence");
    } else if k == 1 {
      assert (table, column) == ("gene", "dna_sequence");
    } else if k == 2 {
      assert (table, column) == ("transcript", "cdna_sequence");
    } else if k == 3 {
      assert (table, column) == ("transcript", "dna_sequence");
    } else if k == 4 {
      assert (table, column) == ("protein", "protein_sequence");
    } else if k == 5 {
      assert (table, column) == ("exon", "sequence");
    } else {
      assert (table, column) == ("intron", "sequence");
    }
    LowerIdentity(column);
  }

  lemma FirstPassPlainNames(db: Database)
    ensures PlainNames(FirstPassSources(db, SequenceChecks))
  {
    var first := FirstPassSources(db, SequenceChecks);
    FirstPassProvenance(db, SequenceChecks);
    forall k | 0 <= k < |SequenceChecks|
      ensures '.' !in SequenceChecks[k].0 && Lower(SequenceChecks[k].1) == SequenceChecks[k].1
    {
      CheckPlain(k);
    }
    forall i | 0 <= i < |first|
      ensures '.' !in first[i].1.table && Lower(first[i].1.column) == first[i].1.column
    {
      assert first[i] in first;
    }
  }

  // ---------------------------------------------------------------------------
  // Second pass

  /** `str.title()` of a one-word table name: its first letter upper-cased, the rest lower-cased. */
  function Title(word: string): (r: string)
    ensures |r| == |word|
  {
    if word == [] then [] else [UpperChar(word[0])] + Lower(word[1..])
  }

  /** `"seq" in name or "dna" in name or "rna" in name` */
  predicate SequenceLike(name: string)
  {
    Contains(name, "seq") || Contains(name, "dna") || Contains(name, "rna")
  }

  /**
   * An entry only the second pass can have added: a field `DESCRIBE` lists for a
   * scanned table, whose lower-cased name looks like a sequence column and is
   * not the column of any first-pass entry, whose non-empty count is positive;
   * it has no average length and is described as `"<Table> <field>"`.
   */
  predicate SecondPassEntry(db: Database, first: Sources, e: (string, SourceInfo))
  {
    var info := e.1;
    info.table in ScannedTables &&
    db.describe(info.table).Rows? && info.column in db.describe(info.table).rows &&
    SequenceLike(Lower(info.column)) && Lower(info.column) !in Columns(first) &&
    db.nonEmptyCount(info.table, info.column).Rows? && db.nonEmptyCount(info.table, info.column).rows != [] &&
    info.sequenceCount == db.nonEmptyCount(info.table, info.column).rows[0] &&
    info.avgLength == None &&
    info.description == Title(info.table) + " " + info.column
  }

  /** The state the second pass keeps: well formed, the first-pass entries first and unchanged, then second-pass entries. */
  predicate Extends(db: Database, first: Sources, results: Sources)
  {
    WellFormed(results) && |first| <= |results| && results[..|first|] == first &&
    forall i :: |first| <= i < |results| ==> SecondPassEntry(db, first, results[i])
  }

  /** A second-pass key can only coincide with a first-pass key when the field is that entry's column. */
  lemma SecondPassKeyClash(first: Sources, results: Sources, table: string, field: string)
    requires PlainNames(first) && '.' !in table
    requires WellFormed(results) && |first| <= |results| && results[..|first|] == first
    ensures 0 <= IndexOf(results, SourceKey(table, field)) < |first| ==> Lower(field) in Columns(results)
  {
    var i := IndexOf(results, SourceKey(table, field));
    if 0 <= i < |first| {
      assert results[i] == first[i];
      KeySplit(table, field, first[i].1.table, first[i].1.column);
      assert Columns(results)[i] == field;
    }
  }

  /** The columns recorded before the second pass are still recorded during it. */
  lemma ColumnsOfPrefix(first: Sources, results: Sources, name: string)
    requires |first| <= |results| && results[..|first|] == first
    ensures name in Columns(first) ==> name in Columns(results)
  {
    if name in Columns(first) {
      var i :| 0 <= i < |first| && Columns(first)[i] == name;
      assert Columns(results)[i] == name;
    }
  }

  /** Recording a field that passes the second pass's tests keeps the state the second pass keeps. */
  lemma ExtendsPut(db: Database, first: Sources, results: Sources, table: string, field: string)
    requires table in ScannedTables && PlainNames(first) && Extends(db, first, results)
    requires db.describe(table).Rows? && field in db.describe(table).rows
    requires SequenceLike(Lower(field)) && Lower(field) !in Columns(results)
    requires db.nonEmptyCount(table, field).Rows? && db.nonEmptyCount(table, field).rows != []
    requires db.nonEmptyCount(table, field).rows[0] > 0
    ensures Extends(db, first, Put(results, SourceKey(table, field),
      SourceInfo(Title(table) + " " + field, table, field, db.nonEmptyCount(table, field).rows[0], None)))
  {
    var key := SourceKey(table, field);
    var info := SourceInfo(Title(table) + " " + field, table, field, db.nonEmptyCount(table, field).rows[0], None);
    var i := IndexOf(results, key);
    assert Lower(field) !in Columns(first) by {
      ColumnsOfPrefix(first, results, Lower(field));
    }
    assert i == -1 || |first| <= i by {
      ScannedTablesPlain();
      SecondPassKeyClash(first, results, table, field);
    }
    var e := (key, info);
    assert SecondPassEntry(db, first, e) by {
      NewSecondPassEntry(db, first, table, field);
    }
    PutKeeps(db, first, results, e);
  }

  lemma PutKeeps(db: Database, first: Sources, results: Sources, e: (string, SourceInfo))
    requires Extends(db, first, results)
    requires IndexOf(results, e.0) == -1 || |first| <= IndexOf(results, e.0)
    requires SecondPassEntry(db, first, e) && e.0 == SourceKey(e.1.table, e.1.column) && e.1.sequenceCount > 0
    ensures Extends(db, first, Put(results, e.0, e.1))
  {
    var i := IndexOf(results, e.0);
    if i == -1 {
      AppendKeeps(db, first, results, e);
    } else {
      ReplaceKeeps(db, first, results, i, e);
    }
  }

  lemma NewSecondPassEntry(db: Database, first: Sources, table: string, field: string)
    requires table in ScannedTables
    requires db.describe(table).Rows? && field in db.describe(table).rows
    requires SequenceLike(Lower(field)) && Lower(field) !in Columns(first)
    requires db.nonEmptyCount(table, field).Rows? && db.nonEmptyCount(table, field).rows != []
    ensures SecondPassEntry(db, first, (SourceKey(table, field),
      SourceInfo(Title(table) + " " + field, table, field, db.nonEmptyCount(table, field).rows[0], None)))
  {
  }

  lemma AppendKeeps(db: Database, first: Sources, results: Sources, e: (string, SourceInfo))
    requires Extends(db, first, results) && IndexOf(results, e.0) == -1
    requires SecondPassEntry(db, first, e) && e.0 == SourceKey(e.1.table, e.1.column) && e.1.sequenceCount > 0
    ensures Extends(db, first, results + [e])
  {
    var r := results + [e];
    assert r[..|first|] == results[..|first|];
    assert forall i :: 0 <= i < |results| ==> r[i] == results[i];
  }

  lemma ReplaceKeeps(db: Database, first: Sources, results: Sources, k: int, e: (string, SourceInfo))
    requires Extends(db, first, results) && |first| <= k < |results| && results[k].0 == e.0
    requires SecondPassEntry(db, first, e) && e.0 == SourceKey(e.1.table, e.1.column) && e.1.sequenceCount > 0
    ensures Extends(db, first, results[k := e])
  {
    var r := results[k := e];
    assert r[..|first|] == results[..|first|];
    assert forall i :: 0 <= i < |results| ==> r[i].0 == results[i].0;
  }

  /** Where the second pass stands inside one table: still going, or stopped by an exception. */
  datatype FieldScan = Running(results: Sources) | Abandoned(results: Sources)

  /**
   * The tests a field must pass to be recorded: its lower-cased name looks like
   * a sequence column and is not the column of any entry recorded so far, and
   * its non-empty count is positive.
   */
  predicate Qualifies(db: Database, table: string, field: string, results: Sources)
  {
    SequenceLike(Lower(field)) && Lower(field) !in Columns(results) &&
    db.nonEmptyCount(table, field).Rows? && db.nonEmptyCount(table, field).rows != [] &&
    db.nonEmptyCount(table, field).rows[0] > 0
  }

  /** The entry recorded for a field: keyed `table.field`, described `"<Table> <field>"`, with no average length. */
  function FieldEntry(db: Database, table: string, field: string): (string, SourceInfo)
    requires db.nonEmptyCount(table, field).Rows? && db.nonEmptyCount(table, field).rows != []
  {
    (SourceKey(table, field),
     SourceInfo(Title(table) + " " + field, table, field, db.nonEmptyCount(table, field).rows[0], None))
  }

  /** One field of the second pass; a raising count probe abandons the rest of the table. */
  function FieldStep(db: Database, table: string, field: string, st: FieldScan): FieldScan
  {
    if st.Abandoned? || !SequenceLike(Lower(field)) || Lower(field) in Columns(st.results) then st
    else
      match db.nonEmptyCount(table, field)
      case Rows(counts) =>
        if counts != [] && counts[0] > 0 then
          var e := FieldEntry(db, table, field);
          Running(Put(st.results, e.0, e.1))
        else st
      case NoResult => st
      case Raises => Abandoned(st.results)
  }

  /** The second pass over the first `j` fields of a table, from `results`. */
  function FieldsScan(db: Database, table: string, fields: seq<string>, results: Sources, j: nat): FieldScan
    requires j <= |fields|
  {
    if j == 0 then Running(results)
    else FieldStep(db, table, fields[j - 1], FieldsScan(db, table, fields, results, j - 1))
  }

  /** The second pass over one table: its `DESCRIBE` fields, or nothing when `DESCRIBE` fails. */
  function TableScan(db: Database, table: string, results: Sources): Sources
  {
    match db.describe(table)
    case Rows(fields) => FieldsScan(db, table, fields, results, |fields|).results
    case NoResult => results
    case Raises => results
  }

  /** The second pass over the first `t` scanned tables, from the first-pass entries. */
  function SecondPass(db: Database, first: Sources, t: nat): Sources
    requires t <= |ScannedTables|
  {
    if t == 0 then first else TableScan(db, ScannedTables[t - 1], SecondPass(db, first, t - 1))
  }

  /** `available_sequences` of a connected database: both passes. */
  function AvailableSources(db: Database): Sources
  {
    SecondPass(db, FirstPassSources(db, SequenceChecks), |ScannedTables|)
  }

  /** A field is recorded exactly when the table is still scanned and the field passes every test. */
  lemma StepResults(db: Database, table: string, field: string, st: FieldScan)
    ensures st.Running? && Qualifies(db, table, field, st.results) ==>
      var e := FieldEntry(db, table, field);
      FieldStep(db, table, field, st) == Running(Put(st.results, e.0, e.1))
    ensures !(st.Running? && Qualifies(db, table, field, st.results)) ==>
      FieldStep(db, table, field, st).results == st.results
  {
  }

  /** Once a table is abandoned, its remaining fields change nothing. */
  lemma {:induction false} AbandonedStays(db: Database, table: string, fields: seq<string>, results: Sources, j: nat, k: nat)
    requires j <= k <= |fields| && FieldsScan(db, table, fields, results, j).Abandoned?
    ensures FieldsScan(db, table, fields, results, k) == FieldsScan(db, table, fields, results, j)
    decreases k
  {
    if k > j {
      AbandonedStays(db, table, fields, results, j, k - 1);
    }
  }

  /** The second pass over one table: its `DESCRIBE` fields in order; an exception abandons the rest of the table. */
  method ScanTable(db: Database, table: string, results0: Sources) returns (results: Sources)
    ensures results == TableScan(db, table, results0)
  {
    results := results0;
    match db.describe(table) {
      case Rows(fields) =>
        var j := 0;
        var raised := false;
        while j < |fields| && !raised
          invariant 0 <= j <= |fields|
          invariant FieldsScan(db, table, fields, results0, j) == if raised then Abandoned(results) else Running(results)
        {
          var field := fields[j];
          var colName := Lower(field);
          if SequenceLike(colName) && colName !in Columns(results) {
            match db.nonEmptyCount(table, field) {
              case Rows(counts) =>
                if counts != [] && counts[0] > 0 {
                  var key := SourceKey(table, field);
                  var info := SourceInfo(Title(table) + " " + field, table, field, counts[0], None);
                  results := Put(results, key, info);
                }
              case NoResult =>
              case Raises =>
                raised := true;
            }
          }
          j := j + 1;
        }
        if raised {
          AbandonedStays(db, table, fields, results0, j, |fields|);
        }
      case NoResult =>
      case Raises =>
    }
  }

  /**
   * The whole scan. Not connected: the error, and nothing else. Connected: both
   * passes, and `total_sources` is the number of entries.
   */
  method CheckDnaSequenceAvailability(db: Database) returns (r: Availability)
    ensures !db.connected <==> r == AvailabilityError("Not connected to database")
    ensures db.connected ==> r == Available(AvailableSources(db), |AvailableSources(db)|)
  {
    if !db.connected {
      return AvailabilityError("Not connected to database");
    }
    var first := FirstPass(db);
    var results := first;
    var t := 0;
    while t < |ScannedTables|
      invariant 0 <= t <= |ScannedTables|
      invariant results == SecondPass(db, first, t)
    {
      results := ScanTable(db, ScannedTables[t], results);
      t := t + 1;
    }
    return Available(results, |results|);
  }

  // ---------------------------------------------------------------------------
  // What the scan keeps

  /** Every field of the second pass keeps the scan's invariant. */
  lemma {:induction false} FieldsScanExtends(db: Database, first: Sources, table: string, results: Sources, j: nat)
    requires table in ScannedTables && PlainNames(first) && Extends(db, first, results)
    requires db.describe(table).Rows? && j <= |db.describe(table).rows|
    ensures Extends(db, first, FieldsScan(db, table, db.describe(table).rows, results, j).results)
  {
    if j > 0 {
      var fields := db.describe(table).rows;
      FieldsScanExtends(db, first, table, results, j - 1);
      var st := FieldsScan(db, table, fields, results, j - 1);
      ExtendsStep(db, first, table, fields[j - 1], st);
    }
  }

  lemma ExtendsStep(db: Database, first: Sources, table: string, field: string, st: FieldScan)
    requires table in ScannedTables && PlainNames(first) && Extends(db, first, st.results)
    requires db.describe(table).Rows? && field in db.describe(table).rows
    ensures Extends(db, first, FieldStep(db, table, field, st).results)
  {
    StepResults(db, table, field, st);
    if st.Running? && Qualifies(db, table, field, st.results) {
      ExtendsPut(db, first, st.results, table, field);
    }
  }

  /** The second pass keeps the scan's invariant: well formed, the first-pass entries first, then second-pass entries. */
  lemma {:induction false} SecondPassExtends(db: Database, first: Sources, t: nat)
    requires t <= |ScannedTables| && PlainNames(first) && WellFormed(first)
    ensures Extends(db, first, SecondPass(db, first, t))
  {
    if t == 0 {
      assert first[..|first|] == first;
    } else {
      SecondPassExtends(db, first, t - 1);
      var table := ScannedTables[t - 1];
      if db.describe(table).Rows? {
        FieldsScanExtends(db, first, table, SecondPass(db, first, t - 1), |db.describe(table).rows|);
      }
    }
  }

  /** The reported entries: the first-pass entries first and unchanged, then second-pass entries, keys distinct. */
  lemma AvailableExtends(db: Database)
    ensures Extends(db, FirstPassSources(db, SequenceChecks), AvailableSources(db))
  {
    SequenceChecksKeysDistinct();
    FirstPassWellFormed(db, SequenceChecks);
    FirstPassPlainNames(db);
    SecondPassExtends(db, FirstPassSources(db, SequenceChecks), |ScannedTables|);
  }

  /**
   * Field `j` of scanned table `t` passed every test against the entries
   * recorded before it, while its table was still being scanned, and `e` is
   * the entry it recorded.
   */
  predicate RecordedAt(db: Database, first: Sources, t: nat, j: nat, e: (string, SourceInfo))
  {
    t < |ScannedTables| && db.describe(ScannedTables[t]).Rows? && j < |db.describe(ScannedTables[t]).rows| &&
    var table := ScannedTables[t];
    var field := db.describe(table).rows[j];
    var st := FieldsScan(db, table, db.describe(table).rows, SecondPass(db, first, t), j);
    st.Running? && Qualifies(db, table, field, st.results) && e == FieldEntry(db, table, field)
  }

  /** An entry of a scanned table whose key and value are what its field records. */
  predicate IsFieldEntry(db: Database, e: (string, SourceInfo))
  {
    e.1.table in ScannedTables &&
    db.nonEmptyCount(e.1.table, e.1.column).Rows? && db.nonEmptyCount(e.1.table, e.1.column).rows != [] &&
    e == FieldEntry(db, e.1.table, e.1.column)
  }

  /** A recorded field entry survives a step: a later assignment to its key writes the same entry. */
  lemma StepKeeps(db: Database, table: string, field: string, st: FieldScan, e: (string, SourceInfo))
    requires table in ScannedTables && IsFieldEntry(db, e) && e in st.results
    ensures e in FieldStep(db, table, field, st).results
  {
    StepResults(db, table, field, st);
    if st.Running? && Qualifies(db, table, field, st.results) {
      var n := FieldEntry(db, table, field);
      var i := IndexOf(st.results, n.0);
      var p :| 0 <= p < |st.results| && st.results[p] == e;
      if i == p {
        ScannedTablesPlain();
        KeySplit(table, field, e.1.table, e.1.column);
      }
      assert Put(st.results, n.0, n.1)[p] == e;
    }
  }

  lemma {:induction false} FieldsKeep(db: Database, table: string, fields: seq<string>, results: Sources,
                                       j: nat, k: nat, e: (string, SourceInfo))
    requires j <= k <= |fields| && table in ScannedTables && IsFieldEntry(db, e)
    requires e in FieldsScan(db, table, fields, results, j).results
    ensures e in FieldsScan(db, table, fields, results, k).results
    decreases k
  {
    if k > j {
      FieldsKeep(db, table, fields, results, j, k - 1, e);
      StepKeeps(db, table, fields[k - 1], FieldsScan(db, table, fields, results, k - 1), e);
    }
  }

  lemma {:induction false} TablesKeep(db: Database, first: Sources, t: nat, u: nat, e: (string, SourceInfo))
    requires t <= u <= |ScannedTables| && IsFieldEntry(db, e)
    requires e in SecondPass(db, first, t)
    ensures e in SecondPass(db, first, u)
    decreases u
  {
    if u > t {
      TablesKeep(db, first, t, u - 1, e);
      var table := ScannedTables[u - 1];
      if db.describe(table).Rows? {
        var fields := db.describe(table).rows;
        FieldsKeep(db, table, fields, SecondPass(db, first, u - 1), 0, |fields|, e);
      }
    }
  }

  lemma PutHolds(sources: Sources, e: (string, SourceInfo))
    ensures e in Put(sources, e.0, e.1)
  {
    var i := IndexOf(sources, e.0);
    if i >= 0 {
      assert Put(sources, e.0, e.1)[i] == e;
    } else {
      assert Put(sources, e.0, e.1)[|sources|] == e;
    }
  }

  /** Completeness of the second pass: a field that passes every test when it is reached is reported. */
  lemma RecordedIsReported(db: Database, first: Sources, t: nat, j: nat, e: (string, SourceInfo))
    requires RecordedAt(db, first, t, j, e)
    ensures e in SecondPass(db, first, |ScannedTables|)
  {
    var table := ScannedTables[t];
    var fields := db.describe(table).rows;
    RecordedInTable(db, table, fields, SecondPass(db, first, t), j, e);
    assert SecondPass(db, first, t + 1) == FieldsScan(db, table, fields, SecondPass(db, first, t), |fields|).results;
    assert IsFieldEntry(db, e);
    TablesKeep(db, first, t + 1, |ScannedTables|, e);
  }

  /** A field that passes every test when reached is still recorded at the end of its table. */
  lemma RecordedInTable(db: Database, table: string, fields: seq<string>, results: Sources, j: nat,
                        e: (string, SourceInfo))
    requires table in ScannedTables && j < |fields|
    requires FieldsScan(db, table, fields, results, j).Running?
    requires Qualifies(db, table, fields[j], FieldsScan(db, table, fields, results, j).results)
    requires e == FieldEntry(db, table, fields[j])
    ensures e in FieldsScan(db, table, fields, results, |fields|).results
  {
    var st := FieldsScan(db, table, fields, results, j);
    StepResults(db, table, fields[j], st);
    PutHolds(st.results, e);
    FieldsKeep(db, table, fields, results, j + 1, |fields|, e);
  }

  /** Every entry past the first-pass ones was recorded by some field of the second pass. */
  ghost predicate Explained(db: Database, first: Sources, results: Sources)
  {
    forall i :: |first| <= i < |results| ==> Recorded(db, first, results[i])
  }

  /** Some field of the second pass recorded `e`. */
  ghost predicate Recorded(db: Database, first: Sources, e: (string, SourceInfo))
  {
    exists t: nat, j: nat :: RecordedAt(db, first, t, j, e)
  }

  lemma {:induction false} FieldsExplained(db: Database, first: Sources, t: nat, j: nat)
    requires t < |ScannedTables| && db.describe(ScannedTables[t]).Rows?
    requires j <= |db.describe(ScannedTables[t]).rows|
    requires Explained(db, first, SecondPass(db, first, t))
    ensures Explained(db, first, FieldsScan(db, ScannedTables[t], db.describe(ScannedTables[t]).rows,
                                            SecondPass(db, first, t), j).results)
  {
    if j > 0 {
      FieldsExplained(db, first, t, j - 1);
      ExplainedStep(db, first, t, j - 1);
    }
  }

  lemma ExplainedStep(db: Database, first: Sources, t: nat, j: nat)
    requires t < |ScannedTables| && db.describe(ScannedTables[t]).Rows?
    requires j < |db.describe(ScannedTables[t]).rows|
    requires Explained(db, first, FieldsScan(db, ScannedTables[t], db.describe(ScannedTables[t]).rows,
                                             SecondPass(db, first, t), j).results)
    ensures Explained(db, first, FieldsScan(db, ScannedTables[t], db.describe(ScannedTables[t]).rows,
                                            SecondPass(db, first, t), j + 1).results)
  {
    var table := ScannedTables[t];
    var fields := db.describe(table).rows;
    var st := FieldsScan(db, table, fields, SecondPass(db, first, t), j);
    var field := fields[j];
    StepResults(db, table, field, st);
    if st.Running? && Qualifies(db, table, field, st.results) {
      var e := FieldEntry(db, table, field);
      assert RecordedAt(db, first, t, j, e);
      PutExplained(db, first, st.results, t, j, e);
    }
  }

  /** Recording a field that passes every test keeps every later entry explained. */
  lemma PutExplained(db: Database, first: Sources, results: Sources, t: nat, j: nat, e: (string, SourceInfo))
    requires Explained(db, first, results) && RecordedAt(db, first, t, j, e)
    ensures Explained(db, first, Put(results, e.0, e.1))
  {
    var s' := Put(results, e.0, e.1);
    forall i | |first| <= i < |s'|
      ensures Recorded(db, first, s'[i])
    {
      if s'[i] == e {
        assert RecordedAt(db, first, t, j, s'[i]);
      } else {
        assert s'[i] == results[i];
      }
    }
  }

  lemma {:induction false} SecondPassExplained(db: Database, first: Sources, t: nat)
    requires t <= |ScannedTables|
    ensures Explained(db, first, SecondPass(db, first, t))
  {
    if t > 0 {
      SecondPassExplained(db, first, t - 1);
      if db.describe(ScannedTables[t - 1]).Rows? {
        FieldsExplained(db, first, t - 1, |db.describe(ScannedTables[t - 1]).rows|);
      }
    }
  }

  // ---------------------------------------------------------------------------
  // What the scan reports

  /** Every check whose probe finds data is reported, with the probe's count and average length. */
  lemma FoundProbesReported(db: Database, k: nat)
    requires k < |SequenceChecks| && ProbeFinds(db, SequenceChecks[k].0, SequenceChecks[k].1)
    ensures ProbeEntry(db, SequenceChecks[k]) in AvailableSources(db)
  {
    var first := FirstPassSources(db, SequenceChecks);
    AvailableExtends(db);
    FirstPassComplete(db, SequenceChecks, k);
    var i :| 0 <= i < |first| && first[i] == ProbeEntry(db, SequenceChecks[k]);
    assert AvailableSources(db)[i] == first[i];
  }

  /** Every second-pass field that passes every test against the entries recorded before it is reported. */
  lemma FoundFieldsReported(db: Database, t: nat, j: nat, e: (string, SourceInfo))
    requires RecordedAt(db, FirstPassSources(db, SequenceChecks), t, j, e)
    ensures e in AvailableSources(db)
  {
    RecordedIsReported(db, FirstPassSources(db, SequenceChecks), t, j, e);
  }

  /**
   * Every reported entry was found: a first-pass check with a positive
   * `sequence_count`, or a second-pass field that passed every test against
   * the entries recorded before it.
   */
  lemma ReportedEntriesWereFound(db: Database, e: (string, SourceInfo))
    requires e in AvailableSources(db)
    ensures e.1.sequenceCount > 0 && e.0 == SourceKey(e.1.table, e.1.column)
    ensures (exists k :: 0 <= k < |SequenceChecks| && ProbeFinds(db, SequenceChecks[k].0, SequenceChecks[k].1) &&
                         e == ProbeEntry(db, SequenceChecks[k])) ||
            exists t: nat, j: nat :: RecordedAt(db, FirstPassSources(db, SequenceChecks), t, j, e)
  {
    var first := FirstPassSources(db, SequenceChecks);
    var sources := AvailableSources(db);
    AvailableExtends(db);
    SecondPassExplained(db, first, |ScannedTables|);
    var i :| 0 <= i < |sources| && sources[i] == e;
    if i < |first| {
      assert first[i] == e && first[i] in first;
      FirstPassProvenance(db, SequenceChecks);
    } else {
      assert Recorded(db, first, sources[i]);
      var t: nat, j: nat :| RecordedAt(db, first, t, j, e);
      assert exists t: nat, j: nat :: RecordedAt(db, FirstPassSources(db, SequenceChecks), t, j, e);
    }
  }
}
