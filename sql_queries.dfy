/**
 * The catalogue of predefined SQL queries offered by the query interface
 * (`src/sql_queries.py`): eight categories, each an ordered map from a query
 * name to its SQL text, and the four accessors over the catalogue.
 *
 * Python dicts keep insertion order; a dict is modelled as a sequence of
 * (key, value) pairs in that order. Each query is named by a `QueryId`; `SqlText` gives
 * the SQL text the source stores for it, character for character.
 */
module SqlQueries {
  import opened Wrappers

  type QueryMap = seq<(string, QueryId)>
  type Catalogue = seq<(string, QueryMap)>

  /** One constructor per predefined query, in declaration order. */
  datatype QueryId =
    | DatabaseOverview
    | SpeciesSummary
    | ChromosomeStats
    | GenesByBiotype
    | LongestGenes
    | GenesWithMultipleTranscripts
    | GeneSearch
    | ProteinLengthDistribution
    | LargestProteins
    | ProteinProperties
    | AnalyzeSequences
    | NucleotideComposition
    | DnaSequenceAnalysis
    | CompareTranscriptSequences
    | GeneClassificationSummary
    | DnaSequenceDetection
    | CheckSequenceContent
    | SampleDnaSequences
    | ValidateDnaBases
    | SpeciesComparison
    | CrossSpeciesGenes
    | GoTermDistribution
    | TopGoTerms
    | GenesByGoTerm
    | VariantTypes
    | ClinicalVariants
    | GeneRegionSearch
    | ProteinLengthRange

  /** The SQL text the source stores for each query, character for character. */
  function SqlText(id: QueryId): string
  {
    match id
    case DatabaseOverview => "\n        SELECT\n            'Species' as table_name, COUNT(*) as record_count\n        FROM species\n        UNION ALL\n        SELECT 'Genes', COUNT(*) FROM gene\n        UNION ALL\n        SELECT 'Transcripts', COUNT(*) FROM transcript\n        UNION ALL\n        SELECT 'Proteins', COUNT(*) FROM protein\n        UNION ALL\n        SELECT 'Chromosomes', COUNT(*) FROM chromosome\n        UNION ALL\n        SELECT 'Genetic Variants', COUNT(*) FROM genetic_variant\n        UNION ALL\n        SELECT 'GO Annotations', COUNT(*) FROM gene_go_annotation\n        ORDER BY record_count DESC;\n    "
    case SpeciesSummary => "\n        SELECT\n            s.species_name,\n            s.common_name,\n            COUNT(DISTINCT g.gene_id) as gene_count,\n            COUNT(DISTINCT t.transcript_id) as transcript_count,\n            COUNT(DISTINCT p.protein_id) as protein_count\n        FROM species s\n        LEFT JOIN gene g ON s.species_id = g.species_id\n        LEFT JOIN transcript t ON g.gene_id = t.gene_id\n        LEFT JOIN protein p ON t.transcript_id = p.transcript_id\n        GROUP BY s.species_id, s.species_name, s.common_name\n        ORDER BY gene_count DESC;\n    "
    case ChromosomeStats => "\n        SELECT\n            s.species_name,\n            c.chromosome_name,\n            c.sequence_length,\n            COUNT(g.gene_id) as gene_count,\n            ROUND(COUNT(g.gene_id) / (c.sequence_length / 1000000), 2) as genes_per_mb\n        FROM species s\n        JOIN genome_assembly ga ON s.species_id = ga.species_id\n        JOIN chromosome c ON ga.assembly_id = c.assembly_id\n        LEFT JOIN gene g ON c.chromosome_id = g.chromosome_id\n        WHERE c.sequence_length IS NOT NULL\n        GROUP BY s.species_name, c.chromosome_name, c.sequence_length\n        ORDER BY s.species_name, c.chromosome_name;\n    "
    case GenesByBiotype => "\n        SELECT\n            s.species_name,\n            g.gene_biotype,\n            COUNT(*) as gene_count,\n            ROUND(AVG(g.end_position - g.start_position + 1), 0) as avg_length\n        FROM gene g\n        JOIN species s ON g.species_id = s.species_id\n        WHERE g.gene_biotype IS NOT NULL\n        GROUP BY s.species_name, g.gene_biotype\n        ORDER BY s.species_name, gene_count DESC;\n    "
    case LongestGenes => "\n        SELECT\n            s.species_name,\n            g.gene_symbol,\n            g.gene_name,\n            g.gene_biotype,\n            c.chromosome_name,\n            (g.end_position - g.start_position + 1) as gene_length,\n            g.start_position,\n            g.end_position\n        FROM gene g\n        JOIN species s ON g.species_id = s.species_id\n        LEFT JOIN chromosome c ON g.chromosome_id = c.chromosome_id\n        WHERE g.start_position IS NOT NULL AND g.end_position IS NOT NULL\n        ORDER BY gene_length DESC\n        LIMIT 50;\n    "
    case GenesWithMultipleTranscripts => "\n        SELECT\n            s.species_name,\n            g.gene_symbol,\n            g.gene_name,\n            COUNT(t.transcript_id) as transcript_count,\n            GROUP_CONCAT(t.transcript_biotype) as transcript_types\n        FROM gene g\n        JOIN species s ON g.species_id = s.species_id\n        JOIN transcript t ON g.gene_id = t.gene_id\n        GROUP BY g.gene_id, s.species_name, g.gene_symbol, g.gene_name\n        HAVING transcript_count > 1\n        ORDER BY transcript_count DESC;\n    "
    case GeneSearch => "\n        SELECT\n            s.species_name,\n            g.gene_symbol,\n            g.gene_name,\n            g.gene_description,\n            g.gene_biotype,\n            c.chromosome_name,\n            g.start_position,\n            g.end_position,\n            (g.end_position - g.start_position + 1) as gene_length\n        FROM gene g\n        JOIN species s ON g.species_id = s.species_id\n        LEFT JOIN chromosome c ON g.chromosome_id = c.chromosome_id\n        WHERE (g.gene_symbol LIKE %s OR g.gene_name LIKE %s OR g.gene_description LIKE %s)\n        ORDER BY s.species_name, g.gene_symbol;\n    "
    case ProteinLengthDistribution => "\n        SELECT\n            s.species_name,\n            CASE\n                WHEN p.protein_length < 100 THEN 'Very Short (<100 AA)'\n                WHEN p.protein_length < 300 THEN 'Short (100-299 AA)'\n                WHEN p.protein_length < 600 THEN 'Medium (300-599 AA)'\n                WHEN p.protein_length < 1000 THEN 'Long (600-999 AA)'\n                ELSE 'Very Long (\U{E2}\U{2030}\U{A5}1000 AA)'\n            END as length_category,\n            COUNT(*) as protein_count,\n            ROUND(AVG(p.protein_length), 0) as avg_length\n        FROM protein p\n        JOIN transcript t ON p.transcript_id = t.transcript_id\n        JOIN gene g ON t.gene_id = g.gene_id\n        JOIN species s ON g.species_id = s.species_id\n        WHERE p.protein_length IS NOT NULL\n        GROUP BY s.species_name, length_category\n        ORDER BY s.species_name, avg_length;\n    "
    case LargestProteins => "\n        SELECT\n            s.species_name,\n            g.gene_symbol,\n            g.gene_name,\n            p.protein_stable_id,\n            p.protein_length,\n            p.molecular_weight,\n            p.isoelectric_point\n        FROM protein p\n        JOIN transcript t ON p.transcript_id = t.transcript_id\n        JOIN gene g ON t.gene_id = g.gene_id\n        JOIN species s ON g.species_id = s.species_id\n        WHERE p.protein_length IS NOT NULL\n        ORDER BY p.protein_length DESC\n        LIMIT 30;\n    "
    case ProteinProperties => "\n        SELECT\n            s.species_name,\n            COUNT(*) as total_proteins,\n            ROUND(AVG(p.protein_length), 0) as avg_length,\n            ROUND(AVG(p.molecular_weight), 2) as avg_molecular_weight,\n            ROUND(AVG(p.isoelectric_point), 2) as avg_isoelectric_point,\n            MIN(p.protein_length) as min_length,\n            MAX(p.protein_length) as max_length\n        FROM protein p\n        JOIN transcript t ON p.transcript_id = t.transcript_id\n        JOIN gene g ON t.gene_id = g.gene_id\n        JOIN species s ON g.species_id = s.species_id\n        WHERE p.protein_length IS NOT NULL\n        GROUP BY s.species_name\n        ORDER BY total_proteins DESC;\n    "
    case AnalyzeSequences => "\n        SELECT\n            g.gene_symbol,\n            g.gene_name,\n            LEFT(p.protein_sequence, 50) as sequence_start,\n            p.protein_length,\n            classify_sequence(p.protein_sequence) as classification\n        FROM protein p\n        JOIN transcript t ON p.transcript_id = t.transcript_id\n        JOIN gene g ON t.gene_id = g.gene_id\n        WHERE p.protein_sequence IS NOT NULL\n        LIMIT 20;\n    "
    case NucleotideComposition => "\n        SELECT\n            g.gene_symbol,\n            g.gene_name,\n            LEFT(p.protein_sequence, 100) as sequence_sample,\n            count_nucleotides(p.protein_sequence) as nucleotide_counts\n        FROM protein p\n        JOIN transcript t ON p.transcript_id = t.transcript_id\n        JOIN gene g ON t.gene_id = g.gene_id\n        WHERE p.protein_sequence IS NOT NULL\n        LIMIT 10;\n    "
    case DnaSequenceAnalysis => "\n        SELECT\n            g.gene_symbol,\n            g.gene_name,\n            s.species_name,\n            LEFT(g.dna_sequence, 60) as sequence_preview,\n            LENGTH(g.dna_sequence) as sequence_length,\n            classify_sequence(g.dna_sequence) as sequence_type,\n            count_nucleotides(g.dna_sequence) as nucleotide_composition\n        FROM gene g\n        JOIN species s ON g.species_id = s.species_id\n        WHERE g.dna_sequence IS NOT NULL\n        AND LENGTH(g.dna_sequence) > 30\n        ORDER BY sequence_length DESC\n        LIMIT 15;\n    "
    case CompareTranscriptSequences => "\n        SELECT\n            g.gene_symbol,\n            t1.transcript_id as transcript1_id,\n            t2.transcript_id as transcript2_id,\n            LEFT(t1.cdna_sequence, 50) as seq1_preview,\n            LEFT(t2.cdna_sequence, 50) as seq2_preview,\n            LENGTH(t1.cdna_sequence) as seq1_length,\n            LENGTH(t2.cdna_sequence) as seq2_length,\n            detect_mutations(t1.cdna_sequence, t2.cdna_sequence) as sequence_differences\n        FROM gene g\n        JOIN transcript t1 ON g.gene_id = t1.gene_id\n        JOIN transcript t2 ON g.gene_id = t2.gene_id\n        WHERE t1.transcript_id < t2.transcript_id\n        AND t1.cdna_sequence IS NOT NULL\n        AND t2.cdna_sequence IS NOT NULL\n        AND LENGTH(t1.cdna_sequence) > 50\n        AND LENGTH(t2.cdna_sequence) > 50\n        LIMIT 10;\n    "
    case GeneClassificationSummary => "\n        SELECT\n            s.species_name,\n            classify_sequence(g.dna_sequence) as sequence_classification,\n            COUNT(*) as gene_count,\n            AVG(LENGTH(g.dna_sequence)) as avg_sequence_length,\n            MIN(LENGTH(g.dna_sequence)) as min_length,\n            MAX(LENGTH(g.dna_sequence)) as max_length\n        FROM gene g\n        JOIN species s ON g.species_id = s.species_id\n        WHERE g.dna_sequence IS NOT NULL\n        GROUP BY s.species_name, classify_sequence(g.dna_sequence)\n        ORDER BY s.species_name, gene_count DESC;\n    "
    case DnaSequenceDetection => "\n        SELECT\n            TABLE_NAME,\n            COLUMN_NAME,\n            DATA_TYPE,\n            CHARACTER_MAXIMUM_LENGTH\n        FROM INFORMATION_SCHEMA.COLUMNS\n        WHERE TABLE_SCHEMA = DATABASE()\n        AND (COLUMN_NAME LIKE '%seq%' OR COLUMN_NAME LIKE '%dna%' OR COLUMN_NAME LIKE '%rna%')\n        AND DATA_TYPE IN ('text', 'longtext', 'mediumtext', 'varchar')\n        ORDER BY TABLE_NAME, COLUMN_NAME;\n    "
    case CheckSequenceContent => "\n        SELECT\n            'chromosome' as table_name,\n            'sequence' as column_name,\n            COUNT(*) as total_rows,\n            COUNT(sequence) as non_null_rows,\n            AVG(LENGTH(sequence)) as avg_length,\n            MAX(LENGTH(sequence)) as max_length,\n            MIN(LENGTH(sequence)) as min_length\n        FROM chromosome\n        WHERE sequence IS NOT NULL AND sequence != ''\n        UNION ALL\n        SELECT\n            'gene' as table_name,\n            'dna_sequence' as column_name,\n            COUNT(*) as total_rows,\n            COUNT(dna_sequence) as non_null_rows,\n            AVG(LENGTH(dna_sequence)) as avg_length,\n            MAX(LENGTH(dna_sequence)) as max_length,\n            MIN(LENGTH(dna_sequence)) as min_length\n        FROM gene\n        WHERE dna_sequence IS NOT NULL AND dna_sequence != ''\n        UNION ALL\n        SELECT\n            'transcript' as table_name,\n            'cdna_sequence' as column_name,\n            COUNT(*) as total_rows,\n            COUNT(cdna_sequence) as non_null_rows,\n            AVG(LENGTH(cdna_sequence)) as avg_length,\n            MAX(LENGTH(cdna_sequence)) as max_length,\n            MIN(LENGTH(cdna_sequence)) as min_length\n        FROM transcript\n        WHERE cdna_sequence IS NOT NULL AND cdna_sequence != '';\n    "
    case SampleDnaSequences => "\n        SELECT\n            g.gene_symbol,\n            g.gene_name,\n            s.species_name,\n            LEFT(g.dna_sequence, 100) as sequence_preview,\n            LENGTH(g.dna_sequence) as sequence_length\n        FROM gene g\n        JOIN species s ON g.species_id = s.species_id\n        WHERE g.dna_sequence IS NOT NULL\n        AND LENGTH(g.dna_sequence) > 50\n        ORDER BY RAND()\n        LIMIT 10;\n    "
    case ValidateDnaBases => "\n        SELECT\n            g.gene_symbol,\n            LENGTH(g.dna_sequence) as length,\n            LENGTH(g.dna_sequence) - LENGTH(REPLACE(REPLACE(REPLACE(REPLACE(UPPER(g.dna_sequence), 'A', ''), 'T', ''), 'C', ''), 'G', '')) as valid_bases,\n            ROUND((LENGTH(g.dna_sequence) - LENGTH(REPLACE(REPLACE(REPLACE(REPLACE(UPPER(g.dna_sequence), 'A', ''), 'T', ''), 'C', ''), 'G', ''))) / LENGTH(g.dna_sequence) * 100, 2) as percent_valid\n        FROM gene g\n        WHERE g.dna_sequence IS NOT NULL\n        AND LENGTH(g.dna_sequence) > 20\n        HAVING percent_valid > 80\n        ORDER BY percent_valid DESC\n        LIMIT 20;\n    "
    case SpeciesComparison => "\n        SELECT\n            s1.species_name as species_1,\n            s2.species_name as species_2,\n            o.orthology_type,\n            COUNT(*) as ortholog_count,\n            ROUND(AVG(o.percentage_identity), 2) as avg_identity,\n            ROUND(AVG(o.dn_ds_ratio), 4) as avg_dn_ds\n        FROM ortholog o\n        JOIN gene g1 ON o.gene_a_id = g1.gene_id\n        JOIN gene g2 ON o.gene_b_id = g2.gene_id\n        JOIN species s1 ON g1.species_id = s1.species_id\n        JOIN species s2 ON g2.species_id = s2.species_id\n        WHERE s1.species_id != s2.species_id\n        GROUP BY s1.species_name, s2.species_name, o.orthology_type\n        ORDER BY ortholog_count DESC;\n    "
    case CrossSpeciesGenes => "\n        SELECT\n            g1.gene_symbol,\n            s1.species_name as species_1,\n            s2.species_name as species_2,\n            o.orthology_type,\n            o.percentage_identity,\n            o.dn_ds_ratio\n        FROM ortholog o\n        JOIN gene g1 ON o.gene_a_id = g1.gene_id\n        JOIN gene g2 ON o.gene_b_id = g2.gene_id\n        JOIN species s1 ON g1.species_id = s1.species_id\n        JOIN species s2 ON g2.species_id = s2.species_id\n        WHERE g1.gene_symbol IS NOT NULL\n        AND o.percentage_identity IS NOT NULL\n        ORDER BY o.percentage_identity DESC\n        LIMIT 30;\n    "
    case GoTermDistribution => "\n        SELECT\n            go.go_namespace,\n            COUNT(DISTINCT gga.gene_id) as annotated_genes,\n            COUNT(*) as total_annotations\n        FROM gene_go_annotation gga\n        JOIN gene_ontology go ON gga.go_id = go.go_id\n        GROUP BY go.go_namespace\n        ORDER BY annotated_genes DESC;\n    "
    case TopGoTerms => "\n        SELECT\n            go.go_id,\n            go.go_name,\n            go.go_namespace,\n            COUNT(gga.gene_id) as gene_count\n        FROM gene_go_annotation gga\n        JOIN gene_ontology go ON gga.go_id = go.go_id\n        GROUP BY go.go_id, go.go_name, go.go_namespace\n        ORDER BY gene_count DESC\n        LIMIT 20;\n    "
    case GenesByGoTerm => "\n        SELECT\n            s.species_name,\n            g.gene_symbol,\n            g.gene_name,\n            go.go_name,\n            go.go_namespace,\n            gga.evidence_code\n        FROM gene_go_annotation gga\n        JOIN gene g ON gga.gene_id = g.gene_id\n        JOIN species s ON g.species_id = s.species_id\n        JOIN gene_ontology go ON gga.go_id = go.go_id\n        WHERE go.go_id = %s OR go.go_name LIKE %s\n        ORDER BY s.species_name, g.gene_symbol;\n    "
    case VariantTypes => "\n        SELECT\n            s.species_name,\n            gv.variant_type,\n            COUNT(*) as variant_count,\n            ROUND(AVG(gv.minor_allele_frequency), 4) as avg_maf\n        FROM genetic_variant gv\n        JOIN chromosome c ON gv.chromosome_id = c.chromosome_id\n        JOIN genome_assembly ga ON c.assembly_id = ga.assembly_id\n        JOIN species s ON ga.species_id = s.species_id\n        GROUP BY s.species_name, gv.variant_type\n        ORDER BY s.species_name, variant_count DESC;\n    "
    case ClinicalVariants => "\n        SELECT\n            s.species_name,\n            c.chromosome_name,\n            gv.variant_name,\n            gv.variant_type,\n            gv.clinical_significance,\n            gv.start_position,\n            gv.minor_allele_frequency\n        FROM genetic_variant gv\n        JOIN chromosome c ON gv.chromosome_id = c.chromosome_id\n        JOIN genome_assembly ga ON c.assembly_id = ga.assembly_id\n        JOIN species s ON ga.species_id = s.species_id\n        WHERE gv.clinical_significance IS NOT NULL\n        AND gv.clinical_significance != ''\n        ORDER BY s.species_name, c.chromosome_name, gv.start_position;\n    "
    case GeneRegionSearch => "\n        SELECT\n            s.species_name,\n            g.gene_symbol,\n            g.gene_name,\n            c.chromosome_name,\n            g.start_position,\n            g.end_position,\n            (g.end_position - g.start_position + 1) as gene_length\n        FROM gene g\n        JOIN species s ON g.species_id = s.species_id\n        LEFT JOIN chromosome c ON g.chromosome_id = c.chromosome_id\n        WHERE c.chromosome_name = %s\n        AND g.start_position >= %s\n        AND g.end_position <= %s\n        ORDER BY g.start_position;\n    "
    case ProteinLengthRange => "\n        SELECT\n            s.species_name,\n            g.gene_symbol,\n            g.gene_name,\n            p.protein_stable_id,\n            p.protein_length,\n            p.molecular_weight\n        FROM protein p\n        JOIN transcript t ON p.transcript_id = t.transcript_id\n        JOIN gene g ON t.gene_id = g.gene_id\n        JOIN species s ON g.species_id = s.species_id\n        WHERE p.protein_length BETWEEN %s AND %s\n        ORDER BY p.protein_length DESC;\n    "
  }

  /** `BASIC_STATS_QUERIES`. */
  const BasicStatsQueries: QueryMap := [
    ("database_overview", DatabaseOverview),
    ("species_summary", SpeciesSummary),
    ("chromosome_stats", ChromosomeStats)
  ]

  /** `GENE_QUERIES`. */
  const GeneQueries: QueryMap := [
    ("genes_by_biotype", GenesByBiotype),
    ("longest_genes", LongestGenes),
    ("genes_with_multiple_transcripts", GenesWithMultipleTranscripts),
    ("gene_search", GeneSearch)
  ]

  /** `PROTEIN_QUERIES`. */
  const ProteinQueries: QueryMap := [
    ("protein_length_distribution", ProteinLengthDistribution),
    ("largest_proteins", LargestProteins),
    ("protein_properties", ProteinProperties)
  ]

  /** `SEQUENCE_QUERIES`. */
  const SequenceQueries: QueryMap := [
    ("analyze_sequences", AnalyzeSequences),
    ("nucleotide_composition", NucleotideComposition),
    ("dna_sequence_analysis", DnaSequenceAnalysis),
    ("compare_transcript_sequences", CompareTranscriptSequences),
    ("gene_classification_summary", GeneClassificationSummary),
    ("dna_sequence_detection", DnaSequenceDetection),
    ("check_sequence_content", CheckSequenceContent),
    ("sample_dna_sequences", SampleDnaSequences),
    ("validate_dna_bases", ValidateDnaBases)
  ]

  /** `COMPARATIVE_QUERIES`. */
  const ComparativeQueries: QueryMap := [
    ("species_comparison", SpeciesComparison),
    ("cross_species_genes", CrossSpeciesGenes)
  ]

  /** `ANNOTATION_QUERIES`. */
  const AnnotationQueries: QueryMap := [
    ("go_term_distribution", GoTermDistribution),
    ("top_go_terms", TopGoTerms),
    ("genes_by_go_term", GenesByGoTerm)
  ]

  /** `VARIATION_QUERIES`. */
  const VariationQueries: QueryMap := [
    ("variant_types", VariantTypes),
    ("clinical_variants", ClinicalVariants)
  ]

  /** `QUERY_TEMPLATES`. */
  const QueryTemplates: QueryMap := [
    ("gene_region_search", GeneRegionSearch),
    ("protein_length_range", ProteinLengthRange)
  ]

  /** `ALL_QUERIES`: the categories in declaration order. */
  const AllQueries: Catalogue := [
    ("Basic Statistics", BasicStatsQueries),
    ("Gene Analysis", GeneQueries),
    ("Protein Analysis", ProteinQueries),
    ("Sequence Analysis", SequenceQueries),
    ("Comparative Analysis", ComparativeQueries),
    ("Functional Annotation", AnnotationQueries),
    ("Genomic Variation", VariationQueries),
    ("Custom Templates", QueryTemplates)
  ]

  /** The keys of an ordered map, in order. */
  function Keys<V>(m: seq<(string, V)>): (r: seq<string>)
    ensures |r| == |m|
    ensures forall i :: 0 <= i < |m| ==> r[i] == m[i].0
  {
    if m == [] then [] else [m[0].0] + Keys(m[1..])
  }

  /** `d.get(key, default)`: the value of the first entry with that key. */
  function Get<V>(m: seq<(string, V)>, key: string, default: V): (r: V)
    ensures key !in Keys(m) ==> r == default
    ensures key in Keys(m) ==> (key, r) in m
  {
    if m == [] then default
    else if m[0].0 == key then m[0].1
    else Get(m[1..], key, default)
  }

  /** No key occurs twice, as in a Python dict. */
  predicate DistinctKeys<V>(m: seq<(string, V)>)
  {
    forall i, j :: 0 <= i < j < |m| ==> m[i].0 != m[j].0
  }

  /** With distinct keys, the lookup of a stored key gives the value stored with it. */
  lemma {:induction false} GetStored<V>(m: seq<(string, V)>, i: nat, default: V)
    requires DistinctKeys(m) && i < |m|
    ensures Get(m, m[i].0, default) == m[i].1
  {
    if i > 0 {
      assert m[0].0 != m[i].0;
      assert m[1..][i - 1] == m[i];
      GetStored(m[1..], i - 1, default);
    }
  }

  /** `get_query_categories()`: the category names in declaration order. */
  function GetQueryCategories(): (r: seq<string>)
    ensures r == ["Basic Statistics", "Gene Analysis", "Protein Analysis", "Sequence Analysis",
                  "Comparative Analysis", "Functional Annotation", "Genomic Variation", "Custom Templates"]
  {
    Keys(AllQueries)
  }

  /** `get_queries_in_category(category)`: that category's queries, `{}` for an unknown category. */
  function GetQueriesInCategory(category: string): (r: QueryMap)
    ensures category !in GetQueryCategories() ==> r == []
    ensures category in GetQueryCategories() ==> (category, r) in AllQueries
  {
    Get(AllQueries, category, [])
  }

  /** Which query `get_query(category, query_name)` returns, if any. */
  function GetQueryId(category: string, queryName: string): (r: Option<QueryId>)
    ensures r.None? <==> queryName !in Keys(GetQueriesInCategory(category))
    ensures r.Some? ==> (queryName, r.value) in GetQueriesInCategory(category)
  {
    var queries := GetQueriesInCategory(category);
    if queryName in Keys(queries) then Some(Get(queries, queryName, DatabaseOverview)) else None
  }

  /** `get_query(category, query_name)`: the SQL text, `""` when either name is unknown. */
  function GetQuery(category: string, queryName: string): (r: string)
    ensures GetQueryId(category, queryName).None? ==> r == ""
    ensures GetQueryId(category, queryName).Some? ==> r == SqlText(GetQueryId(category, queryName).value)
  {
    match GetQueryId(category, queryName)
    case None => ""
    case Some(id) => SqlText(id)
  }

  /** The label `get_all_query_names` gives a query: `f"{category}: {query_name}"`. */
  function ListedName(category: string, queryName: string): string
  {
    category + ": " + queryName
  }

  /** The labels of one category's queries, in order. */
  function CategoryNames(category: string, queries: QueryMap): seq<string>
  {
    if queries == [] then []
    else CategoryNames(category, queries[..|queries| - 1]) + [ListedName(category, queries[|queries| - 1].0)]
  }

  /** The labels of every query of a catalogue, category by category. */
  function AllQueryNames(catalogue: Catalogue): seq<string>
  {
    if catalogue == [] then []
    else
      var last := catalogue[|catalogue| - 1];
      AllQueryNames(catalogue[..|catalogue| - 1]) + CategoryNames(last.0, last.1)
  }

  /** `get_all_query_names()`: the labels of the catalogue of all queries. */
  method GetAllQueryNames() returns (allNames: seq<string>)
    ensures allNames == AllQueryNames(AllQueries)
  {
    allNames := ListQueryNames(AllQueries);
  }

  /** The loops of `get_all_query_names`: labels are appended category by category, query by query. */
  method ListQueryNames(catalogue: Catalogue) returns (allNames: seq<string>)
    ensures allNames == AllQueryNames(catalogue)
  {
    allNames := [];
    var i := 0;
    while i < |catalogue|
      invariant 0 <= i <= |catalogue|
      invariant allNames == AllQueryNames(catalogue[..i])
    {
      var category := catalogue[i].0;
      var queries := catalogue[i].1;
      ghost var done := allNames;
      var j := 0;
      while j < |queries|
        invariant 0 <= j <= |queries|
        invariant allNames == done + CategoryNames(category, queries[..j])
      {
        assert queries[..j + 1][..j] == queries[..j];
        AppendOneGrouped(done, CategoryNames(category, queries[..j]), ListedName(category, queries[j].0));
        allNames := allNames + [ListedName(category, queries[j].0)];
        j := j + 1;
      }
      assert queries[..j] == queries;
      assert catalogue[..i + 1][..i] == catalogue[..i];
      i := i + 1;
    }
    assert catalogue[..i] == catalogue;
  }

  lemma AppendOneGrouped(a: seq<string>, b: seq<string>, x: string)
    ensures a + b + [x] == a + (b + [x])
  {
  }

  /** The number of queries in a catalogue. */
  function QueryTotal(catalogue: Catalogue): nat
  {
    if catalogue == [] then 0
    else QueryTotal(catalogue[..|catalogue| - 1]) + |catalogue[|catalogue| - 1].1|
  }

  lemma {:induction false} CategoryNamesExact(category: string, queries: QueryMap)
    ensures |CategoryNames(category, queries)| == |queries|
    ensures forall j :: 0 <= j < |queries| ==>
      CategoryNames(category, queries)[j] == ListedName(category, queries[j].0)
  {
    if queries != [] {
      CategoryNamesExact(category, queries[..|queries| - 1]);
    }
  }

  /** One label per query. */
  lemma {:induction false} AllQueryNamesCount(catalogue: Catalogue)
    ensures |AllQueryNames(catalogue)| == QueryTotal(catalogue)
  {
    if catalogue != [] {
      var last := catalogue[|catalogue| - 1];
      AllQueryNamesCount(catalogue[..|catalogue| - 1]);
      CategoryNamesExact(last.0, last.1);
    }
  }

  /** A label is listed exactly when it names some query of some category. */
  lemma {:induction false} ListedIff(catalogue: Catalogue, name: string)
    ensures name in AllQueryNames(catalogue) <==>
      exists i, j :: 0 <= i < |catalogue| && 0 <= j < |catalogue[i].1| &&
                     name == ListedName(catalogue[i].0, catalogue[i].1[j].0)
  {
    if catalogue != [] {
      var n := |catalogue| - 1;
      var front := catalogue[..n];
      var last := catalogue[n];
      ListedIff(front, name);
      CategoryNamesExact(last.0, last.1);
      if name in AllQueryNames(catalogue) {
        if name in AllQueryNames(front) {
          var i, j :| 0 <= i < |front| && 0 <= j < |front[i].1| && name == ListedName(front[i].0, front[i].1[j].0);
          assert catalogue[i] == front[i];
        } else {
          var k :| 0 <= k < |CategoryNames(last.0, last.1)| && CategoryNames(last.0, last.1)[k] == name;
          assert name == ListedName(catalogue[n].0, catalogue[n].1[k].0);
        }
      } else {
        forall i, j | 0 <= i < |catalogue| && 0 <= j < |catalogue[i].1|
          ensures name != ListedName(catalogue[i].0, catalogue[i].1[j].0)
        {
          if i < n {
            assert catalogue[i] == front[i];
          } else {
            assert CategoryNames(last.0, last.1)[j] in CategoryNames(last.0, last.1);
          }
        }
      }
    }
  }

  /**
   * Labels are unambiguous: when neither the category nor the query name of
   * one side contains a colon, equal labels have equal parts.
   */
  lemma LabelParts(category: string, queryName: string, category2: string, queryName2: string)
    requires ':' !in category2 && ':' !in queryName2
    requires ListedName(category, queryName) == ListedName(category2, queryName2)
    ensures category == category2 && queryName == queryName2
  {
    var s := ListedName(category, queryName);
    var a, a2 := |category|, |category2|;
    assert s == category2 + ": " + queryName2;
    assert forall k :: 0 <= k < a2 ==> s[k] != ':';
    assert forall k :: a2 + 2 <= k < |s| ==> s[k] != ':';
    assert s[a2 + 1] == ' ' && s[a] == ':';
    assert category == s[..|category|] == category2;
    assert queryName == s[|category| + 2..] == queryName2;
  }

  /** Each category has queries, no name has a colon and no key repeats. */
  predicate WellFormed(catalogue: Catalogue)
  {
    DistinctKeys(catalogue) &&
    forall i :: 0 <= i < |catalogue| ==> WellFormedCategory(catalogue[i])
  }

  predicate WellFormedCategory(entry: (string, QueryMap))
  {
    ':' !in entry.0 && entry.1 != [] && DistinctKeys(entry.1) &&
    forall j :: 0 <= j < |entry.1| ==> ':' !in entry.1[j].0
  }

  /** In a well-formed catalogue, each stored query is found under its category and name. */
  lemma StoredQueryFound(catalogue: Catalogue, i: nat, j: nat, default: QueryId)
    requires WellFormed(catalogue) && i < |catalogue| && j < |catalogue[i].1|
    ensures Get(Get(catalogue, catalogue[i].0, []), catalogue[i].1[j].0, default) == catalogue[i].1[j].1
  {
    GetStored(catalogue, i, []);
    GetStored(catalogue[i].1, j, default);
  }

  /**
   * In a well-formed catalogue, a category holds a query of a given name
   * exactly when the label of that category and name is listed.
   */
  lemma ResolvesIffListed(catalogue: Catalogue, category: string, queryName: string)
    requires WellFormed(catalogue)
    ensures queryName in Keys(Get(catalogue, category, [])) <==>
            ListedName(category, queryName) in AllQueryNames(catalogue)
  {
    if queryName in Keys(Get(catalogue, category, [])) {
      ResolvedIsListed(catalogue, category, queryName);
    }
    if ListedName(category, queryName) in AllQueryNames(catalogue) {
      ListedResolves(catalogue, category, queryName);
    }
  }

  lemma ResolvedIsListed(catalogue: Catalogue, category: string, queryName: string)
    requires queryName in Keys(Get(catalogue, category, []))
    ensures ListedName(category, queryName) in AllQueryNames(catalogue)
  {
    var m := Get(catalogue, category, []);
    ListedIff(catalogue, ListedName(category, queryName));
    assert category in Keys(catalogue);
    var i :| 0 <= i < |catalogue| && catalogue[i] == (category, m);
    var j :| 0 <= j < |m| && m[j].0 == queryName;
    assert ListedName(category, queryName) == ListedName(catalogue[i].0, catalogue[i].1[j].0);
  }

  lemma ListedResolves(catalogue: Catalogue, category: string, queryName: string)
    requires WellFormed(catalogue)
    requires ListedName(category, queryName) in AllQueryNames(catalogue)
    ensures queryName in Keys(Get(catalogue, category, []))
  {
    ListedIff(catalogue, ListedName(category, queryName));
    var i, j :| 0 <= i < |catalogue| && 0 <= j < |catalogue[i].1| &&
                ListedName(category, queryName) == ListedName(catalogue[i].0, catalogue[i].1[j].0);
    assert WellFormedCategory(catalogue[i]);
    LabelParts(category, queryName, catalogue[i].0, catalogue[i].1[j].0);
    GetStored(catalogue, i, []);
    assert Get(catalogue, category, [])[j].0 == queryName;
  }

  /** In a well-formed catalogue, a category has queries exactly when it is one of the categories. */
  lemma CategoryHasQueriesIffListed(catalogue: Catalogue, category: string)
    requires WellFormed(catalogue)
    ensures Get(catalogue, category, []) != [] <==> category in Keys(catalogue)
  {
    if category in Keys(catalogue) {
      var i :| 0 <= i < |catalogue| && catalogue[i] == (category, Get(catalogue, category, []));
      assert WellFormedCategory(catalogue[i]);
    }
  }

  lemma BasicStatsQueriesWellFormed()
    ensures WellFormedCategory(AllQueries[0])
  {
    assert AllQueries[0].1 == BasicStatsQueries;
  }

  lemma GeneQueriesWellFormed()
    ensures WellFormedCategory(AllQueries[1])
  {
    assert AllQueries[1].1 == GeneQueries;
  }

  lemma ProteinQueriesWellFormed()
    ensures WellFormedCategory(AllQueries[2])
  {
    assert AllQueries[2].1 == ProteinQueries;
  }

  lemma SequenceQueriesWellFormed()
    ensures WellFormedCategory(AllQueries[3])
  {
    assert AllQueries[3].1 == SequenceQueries;
    SequenceQueriesDistinct();
    SequenceQueriesPlain(0, 3);
    SequenceQueriesPlain(3, 6);
    SequenceQueriesPlain(6, 9);
  }

  /**
   * The names of the sequence queries at positions `lo` to `hi - 1` have no
   * colon. The nine long SQL literals are checked three at a time: one
   * assertion over all nine is more than the solver handles cheaply.
   */
  lemma SequenceQueriesPlain(lo: nat, hi: nat)
    requires (lo == 0 || lo == 3 || lo == 6) && hi == lo + 3
    ensures forall j :: lo <= j < hi ==> ':' !in SequenceQueries[j].0
  {
    if lo == 0 {
      assert forall j :: 0 <= j < 3 ==> ':' !in SequenceQueries[j].0;
    } else if lo == 3 {
      assert forall j :: 3 <= j < 6 ==> ':' !in SequenceQueries[j].0;
    } else {
      assert forall j :: 6 <= j < 9 ==> ':' !in SequenceQueries[j].0;
    }
  }

  lemma SequenceQueriesDistinct()
    ensures DistinctKeys(SequenceQueries)
  {
  }

  lemma ComparativeQueriesWellFormed()
    ensures WellFormedCategory(AllQueries[4])
  {
    assert AllQueries[4].1 == ComparativeQueries;
  }

  lemma AnnotationQueriesWellFormed()
    ensures WellFormedCategory(AllQueries[5])
  {
    assert AllQueries[5].1 == AnnotationQueries;
  }

  lemma VariationQueriesWellFormed()
    ensures WellFormedCategory(AllQueries[6])
  {
    assert AllQueries[6].1 == VariationQueries;
  }

  lemma QueryTemplatesWellFormed()
    ensures WellFormedCategory(AllQueries[7])
  {
    assert AllQueries[7].1 == QueryTemplates;
  }

  /** The shipped catalogue is well formed. */
  lemma CatalogueWellFormed()
    ensures WellFormed(AllQueries)
  {
    BasicStatsQueriesWellFormed();
    GeneQueriesWellFormed();
    ProteinQueriesWellFormed();
    SequenceQueriesWellFormed();
    ComparativeQueriesWellFormed();
    AnnotationQueriesWellFormed();
    VariationQueriesWellFormed();
    QueryTemplatesWellFormed();
    assert DistinctKeys(AllQueries);
  }

  /** `get_all_query_names()` lists the 28 predefined queries. */
  lemma QueryCount()
    ensures |AllQueryNames(AllQueries)| == 28
  {
    AllQueryNamesCount(AllQueries);
    var c := AllQueries;
    assert QueryTotal(c[..0]) == 0;
    assert c[..1][..0] == c[..0];
    assert QueryTotal(c[..1]) == 3;
    assert c[..2][..1] == c[..1];
    assert QueryTotal(c[..2]) == 7;
    assert c[..3][..2] == c[..2];
    assert QueryTotal(c[..3]) == 10;
    assert c[..4][..3] == c[..3];
    assert QueryTotal(c[..4]) == 19;
    assert c[..5][..4] == c[..4];
    assert QueryTotal(c[..5]) == 21;
    assert c[..6][..5] == c[..5];
    assert QueryTotal(c[..6]) == 24;
    assert c[..7][..6] == c[..6];
    assert QueryTotal(c[..7]) == 26;
    assert c[..8][..7] == c[..7];
    assert QueryTotal(c[..8]) == 28;
    assert c[..8] == c;
  }

  /**
   * `get_query` finds a query for exactly the (category, name) pairs that
   * `get_all_query_names()` lists, and gives `""` for every other pair.
   */
  lemma GetQueryIffListed(category: string, queryName: string)
    ensures GetQueryId(category, queryName).Some? <==>
            ListedName(category, queryName) in AllQueryNames(AllQueries)
  {
    CatalogueWellFormed();
    ResolvesIffListed(AllQueries, category, queryName);
  }

  /** `get_query` gives the SQL text stored under each category and name of the catalogue. */
  lemma StoredQueryText(i: nat, j: nat)
    requires i < |AllQueries| && j < |AllQueries[i].1|
    ensures GetQueryId(AllQueries[i].0, AllQueries[i].1[j].0) == Some(AllQueries[i].1[j].1)
  {
    CatalogueWellFormed();
    StoredQueryFound(AllQueries, i, j, DatabaseOverview);
  }

  /** `get_queries_in_category` returns a non-empty dict exactly for the listed categories. */
  lemma QueriesInCategoryIffListed(category: string)
    ensures GetQueriesInCategory(category) != [] <==> category in GetQueryCategories()
  {
    CatalogueWellFormed();
    CategoryHasQueriesIffListed(AllQueries, category);
  }
}
