# Terpene classification scripts, modelled in Dafny

This project models the Python scripts of the terpene classification pipeline.
The pipeline collects terpene synthase and prenyltransferase sequences from InterPro and
NCBI, labels every protein with the enzyme families its name mentions and with its
organism's taxonomic division, selects and deduplicates sequences, edits alignments,
builds profile HMMs with leave-one-out variants, scores them with hmmscan and writes
iTOL annotation files.

There is one Dafny module per script, plus shared modules:

- `Wrappers`: `Result`, `Option`, and `MapAll`, a loop that stops at the first error.
- `Text`: the Python string methods the scripts use (`strip`, `split`, `join`, `replace`,
  `removeprefix`, `int`, `str`) and how lines are written.
- `Collections`: filters, first-occurrence deduplication, and `list(set(...))`, whose order
  is left open.
- `Counting`: `collections.Counter` and `most_common`.
- `Pattern`: the fragment of Python's `re` that the name patterns use, with case-insensitive search.
- `Families`: the family tables as data.
- `Paths`, `JsonPaths` and `HmmNames`: how file and profile names are built.
- `FastaParsing`: `fasta_parsing.py`.
- `FastaSelection`: the selection loops that keep the first entry per sequence.
- `Alignment`: aligned rows.

How each kind of source code is modelled:

- Loops become `while` or `for` loops, each proved against a specification function.
- Objects whose methods update fields become classes: `ProteinRecord`, `InterproRecord`
  and the InterPro `InterproRecord` of `select_interpro_sequences.py`.
- Arrays rewritten in place stay arrays: the query lists converted at start-up.
- Python dictionaries, whose order matters when they are written out, are sequences of
  key/value pairs. Assigning a key that is already present keeps its position and replaces its value.

Every operation is paired with a property of the whole input, proved as a lemma or stated
as the method's postcondition. Examples:

- Reading a FASTA file `write_fasta` wrote gives back its pairs.
- The labels are the families with a matching exemplar, and "unknown" exactly when there is none.
- A selection keeps exactly the records meeting every criterion, in order.
- A leave-one-out profile keeps exactly the entries not ending in the left-out accession.
- The scores file names every id once per profile, in-group exactly when listed.

The scripts `deduplicate_alignment.py` and `deduplicate_sequences.py` contain the same
`find_duplicates`. It is modelled once, as `DeduplicateSequences.FindDuplicates`, and used by both.

## Model

| member | source | states |
|---|---|---|
| Records.Division | Records.py:52-60 | the category is Basidiomycota when 5204 is in the lineage, else Ascomycota for 4890, else Bacteria for 2, else Other |
| Records.EnzymeTypesIff | Records.py:62-88 | a family label is assigned iff one of the family's exemplar patterns is found in the name; "unknown" iff no exemplar of either half is found |
| Records.EnzymeTypesUnknownAlone | Records.py:84-85 | the labels are never empty and "unknown" never stands beside a family label |
| Records.EnzymeTypesIgnoreCase | Records.py:72-80 | names equal up to letter case get the same labels (`re.IGNORECASE`) |
| Records.CollectLabels | Records.py:64-82 | the nested loops over one half of the table add to the label set exactly the labels of families with a matching exemplar |
| Records.EnzymeTypeList | Records.py:62-88 | the label list is duplicate-free and holds exactly the enzyme types of the name |
| Records.ProteinRecord.constructor | Records.py:35-46 | fields as given, organism fields empty, label set empty |
| Records.ProteinRecord.AssignTaxonomicLabels | Records.py:48-60 | only the organism name and category change; the category is `Division` of the lineage |
| Records.ProteinRecord.AssignEnzymeType | Records.py:62-88 | on a record whose labels are still empty, only the labels change; they become a duplicate-free list of exactly the name's enzyme types |
| Records.ParseInterproHeader | Records.py:103-108 | a header with fewer than four "\|" fields is an index error, an unreadable taxid a value error; otherwise accession, review flag, name and taxid are fields 0 to 3 |
| Records.HeaderRoundTrip | Records.py:104-108 | a header written from its fields parses back to those fields |
| Records.NewInterproRecord | Records.py:99-110 | database "interpro", header kept, reviewed iff field 1 is exactly "reviewed" |
| Families.FoundLabelsIff | Records.py:64-74 | a label is recorded iff some family carrying it has a matching exemplar, not only the first such family |
| Families.FoundLabelsEmpty | Records.py:84-85 | nothing is recorded iff no family has a matching exemplar |
| Families.UnknownIsNoLabel | Records.py:74 | no family label equals the "unknown" sentinel |
| Families.FoundIgnoresCase | Records.py:72 | names equal up to case find the same exemplars |
| Families.FoundLabelsIgnoreCase | Records.py:64-74 | names equal up to case get the same family labels |
| Pattern.MatchPrefixSound | Records.py:72 | the anchored matcher succeeds iff some prefix of the text is in the pattern's language |
| Pattern.SearchSound | Records.py:72 | `re.search` succeeds iff some substring of the text is in the pattern's language |
| Pattern.MatchPrefixIgnoresCase | Records.py:72 | anchored matching does not depend on letter case |
| Pattern.SearchIgnoresCase | Records.py:72 | searching does not depend on letter case |
| Pattern.AcceptsLocantSkipped | Records.py:68-71 | the optional `(-.*-)?` group may match nothing |
| Pattern.AcceptsLocantTaken | Records.py:68-71 | the optional group matches a hyphen-delimited span without line breaks |
| PatternExample.DolastadienePattern | Records.py:67-71 | the pattern built for "dolastadiene" holds a locant group before "ene", inside "diene" |
| PatternExample.EneStep | Records.py:69-71 | the "ene" rewrite also fires on a name ending in "diene" |
| PatternExample.DolastadieneMatches | Records.py:67-72 | "dolastadiene" is found in "dolasta-1(15),8-diene synthase" |
| InterproRecords.Division | InterproRecord.py:52-57 | Basidiomycota for 5204, else Ascomycota for 4890, else Other; there is no Bacteria test |
| InterproRecords.ClassLabelsIff | InterproRecord.py:61-91 | a half adds its class iff one of its exemplars matches, or it has an exemplar and a generic descriptor matches |
| InterproRecords.EnzymeClassesShape | InterproRecord.py:69-94 | enzyme_class is non-empty, holds only the two classes and "unknown", and "unknown" only alone |
| InterproRecords.SubclassImpliesClass | InterproRecord.py:69-86 | a matching family exemplar puts that family's class in enzyme_class |
| InterproRecords.EnzymeSubclassesUnknown | InterproRecord.py:95-96 | enzyme_subclass is ["unknown"] iff no family exemplar matched |
| InterproRecords.EnzymeSubclassesMember | InterproRecord.py:72-86 | otherwise enzyme_subclass holds exactly the labels of the matching families |
| InterproRecords.GenericAddsClassOnly | InterproRecord.py:73-77 | a generic descriptor match with no family match gives the class and subclass "unknown" |
| InterproRecords.ClassLabelsIgnoreCase | InterproRecord.py:69-89 | the class set does not depend on letter case |
| InterproRecords.LabelsIgnoreCase | InterproRecord.py:69-89 | neither label list depends on letter case |
| InterproRecords.SearchGenerics | InterproRecord.py:74-77 | the generic loop reports a match iff one descriptor is found |
| InterproRecords.CollectHalf | InterproRecord.py:61-91 | the loops over one half add the class and the family labels exactly as `ClassLabelsIff` and `EnzymeSubclassesMember` say |
| InterproRecords.EnzymeLabelLists | InterproRecord.py:59-100 | both lists are duplicate-free and hold exactly the computed class and subclass sets |
| InterproRecords.InterproRecord.constructor | InterproRecord.py:30-45 | the parsed header fields are stored and the label sets start empty |
| InterproRecords.InterproRecord.AssignTaxonomicLabels | InterproRecord.py:47-57 | only the organism fields change; the category is `Division` of the lineage |
| InterproRecords.InterproRecord.AssignEnzymeLabels | InterproRecord.py:59-100 | only the two label lists change, to the lists `EnzymeLabelLists` describes |
| InterproRecords.NewInterproRecord | InterproRecord.py:30-39 | the header parse, with the review field kept as text; short headers and bad taxids are errors |
| SelectInterpro.AnchoredInsert | select_interpro_sequences.py:41 | the `$`-anchored substitution inserts the locant group before the final suffix only, also before a final newline |
| SelectInterpro.HeadOnlySpaces | select_interpro_sequences.py:37-44 | the label at the head of each list is never rewritten except for its spaces |
| SelectInterpro.DieneSingleGroup | select_interpro_sequences.py:39-42 | a "diene" query gets a single locant group, before "diene" |
| SelectInterpro.SuffixNotAtEnd | select_interpro_sequences.py:39-42 | a query containing a suffix without ending in it keeps no group |
| SelectInterpro.ApplySuffixRule | select_interpro_sequences.py:39-42 | the first suffix the query contains decides, and the loop stops there |
| SelectInterpro.ConvertQuery | select_interpro_sequences.py:35-46 | one query is rewritten in place and nothing else changes |
| SelectInterpro.ConvertQueryList | select_interpro_sequences.py:35-46 | a list becomes its converted form in place |
| SelectInterpro.ConvertQueryLists | select_interpro_sequences.py:34-46 | every list in the loop is converted and the other arrays are unchanged |
| SelectInterpro.StartupConverted | select_interpro_sequences.py:34-46 | which lists the start-up loop converts and which stay as written |
| SelectInterpro.ConvertTable | select_interpro_sequences.py:34-46 | the arrays of the table hold the converted table afterwards |
| SelectInterpro.Startup | select_interpro_sequences.py:13-46 | the module's tables after start-up are the converted constants |
| SelectInterpro.MatchCountPositive | select_interpro_sequences.py:83-87 | a list contributes entries iff one of its queries matches |
| SelectInterpro.SubclassEntriesLength | select_interpro_sequences.py:82-100 | one subclass entry per matching specific query |
| SelectInterpro.ClassEntriesCount | select_interpro_sequences.py:82-105 | class entries number the subclass entries plus one per matching generic query |
| SelectInterpro.SubclassEntriesIff | select_interpro_sequences.py:82-100 | a label is among the subclass entries iff its list has a matching query |
| SelectInterpro.ClassEntriesOrder | select_interpro_sequences.py:82-105 | terpene-synthase class entries come before prenyltransferase ones |
| SelectInterpro.SubclassEntriesNamed | select_interpro_sequences.py:82-100 | no subclass entry is "unknown" |
| SelectInterpro.UnknownOnlyWhenNothingMatched | select_interpro_sequences.py:107-111 | on a fresh record "unknown" is added to a list exactly when nothing matched, and then alone |
| SelectInterpro.LabelsIgnoreCase | select_interpro_sequences.py:84-103 | the entries do not depend on the case of the protein name |
| SelectInterpro.ScanList | select_interpro_sequences.py:83-87 | the loop over one list appends one class and one subclass entry per matching query |
| SelectInterpro.ScanLists | select_interpro_sequences.py:82-87 | the outer loop appends the entries of every list in order |
| SelectInterpro.ScanGenerics | select_interpro_sequences.py:89-92 | one class entry per matching generic query |
| SelectInterpro.ScanTable | select_interpro_sequences.py:82-105 | the four loops append the class and subclass entries of the whole table |
| SelectInterpro.AppendEnzymeLabels | select_interpro_sequences.py:80-111 | the lists grow by the table's entries, and by "unknown" where a list is still empty |
| SelectInterpro.ParseSeqHeader | select_interpro_sequences.py:53-57 | the title's "\|" fields, or an index error when there are fewer than four |
| SelectInterpro.SeqHeaderRoundTrip | select_interpro_sequences.py:53-57 | a title written from its fields reads back as those fields |
| SelectInterpro.InterproSeqRecord.constructor | select_interpro_sequences.py:49-67 | the record holds the parsed fields and the sequence, with empty label lists |
| SelectInterpro.InterproSeqRecord.AssignTaxonomicLabels | select_interpro_sequences.py:69-78 | no taxonomic name is an index error leaving the record unchanged; otherwise only the organism fields change |
| SelectInterpro.InterproSeqRecord.AssignEnzymeLabels | select_interpro_sequences.py:80-111 | only the label lists change, growing as `AppendEnzymeLabels` says |
| SelectInterpro.NewRecord | select_interpro_sequences.py:48-67 | a record is made exactly for titles the header parse accepts; it holds the parsed fields, the title and the sequence, with empty label lists |
| SelectInterpro.DeduplicateRecords | select_interpro_sequences.py:116-128 | the first record of each distinct sequence, in input order, every sequence represented |
| SelectInterpro.CriteriaMatchMeaning | select_interpro_sequences.py:153-165 | the criteria loop decides exactly whether the record meets every criterion, failing only on a missing attribute |
| SelectInterpro.SelectionMeaning | select_interpro_sequences.py:149-168 | a successful selection keeps, in order, exactly the records meeting every criterion |
| SelectInterpro.SelectionNext | select_interpro_sequences.py:152-167 | a record kept or dropped extends the selection of the records before it |
| SelectInterpro.SelectionFails | select_interpro_sequences.py:155 | a record lacking an attribute ends the selection with that error |
| SelectInterpro.SelectionEdges | select_interpro_sequences.py:164-166 | no criteria fails on the first record (the flag is unbound); no records succeeds |
| SelectInterpro.SelectRecords | select_interpro_sequences.py:149-168 | the loop returns the selection the specification function describes |
| SelectInterpro.MatchCriteria | select_interpro_sequences.py:153-165 | one record's attribute loop with its early exit |
| SelectInterpro.Collected | select_interpro_sequences.py:132-137 | the attribute of every record, in order, or the first record's error |
| SelectInterpro.SummaryMeaning | select_interpro_sequences.py:130-147 | one entry per distinct value with its count, counts summing to the record count, in non-increasing count order |
| SelectInterpro.SummaryErrors | select_interpro_sequences.py:133-137 | the summary fails exactly on a missing or list-valued attribute: a missing one on any record gives the missing-attribute error, otherwise a list value gives the unhashable-value error |
| SelectInterpro.CollectedFails | select_interpro_sequences.py:133-136 | collecting the values fails exactly when some record lacks the attribute, with the error naming it |
| SelectInterpro.SummariseRecords | select_interpro_sequences.py:130-147 | the loop computes the summary the specification describes |
| Counting.TallyKeys | select_interpro_sequences.py:139 | the tally has one entry per distinct value |
| Counting.TallyCounts | select_interpro_sequences.py:139 | each entry holds its value's number of occurrences |
| Counting.TallySum | select_interpro_sequences.py:139 | the counts add up to the number of values |
| Counting.SortByCountSpec | select_interpro_sequences.py:140 | the stable sort yields a non-increasing permutation of the entries |
| Counting.MostCommonSpec | select_interpro_sequences.py:139-140 | `most_common()`: distinct values with their counts, summing to the input length, in non-increasing order |
| FastaParsing.WriteFasta | fasta_parsing.py:17-19 | the file is one header line and one sequence line per pair of `zip(names, seqs)` |
| FastaParsing.ReadFasta | fasta_parsing.py:32-58 | the loop computes the reading function on the file's lines |
| FastaParsing.ParseFastaSuccess | fasta_parsing.py:53-58 | a successful read maps at least one id, and as many ids as sequences |
| FastaParsing.SequenceFirstFails | fasta_parsing.py:46-47 | a sequence line before any header is an error |
| FastaParsing.BlankLinesSkipped | fasta_parsing.py:37-39 | blank lines change nothing |
| FastaParsing.BlankFileFails | fasta_parsing.py:55-57 | a file of blank lines holds no sequences and fails |
| FastaParsing.TrailingHeaderFails | fasta_parsing.py:53-54 | a header on the last line leaves counts unequal and fails |
| FastaParsing.HeaderId | fasta_parsing.py:40-41 | the id read from a written header is the written name |
| FastaParsing.DictOfSpec | fasta_parsing.py:58 | `dict(zip(...))`: distinct keys, every key present, each with its last value |
| FastaParsing.FastaRoundTrip | fasta_parsing.py:6-58 | reading what `write_fasta` wrote gives back the pairs, in order, for distinct space-free names and letter sequences |
| FastaSelection.ReadAccessions | select_sequences_by_id.py:5-8 | one accession per line, right-stripped |
| FastaSelection.FirstPerSequenceSpec | select_sequences_by_id.py:20-22 | kept entries in input order, each passing the test, no sequence twice, each passing sequence represented by its first entry |
| SelectSequences.CriteriaMatchMeaning | select_sequences.py:11-23 | the loop with early exit decides whether a document meets every criterion, failing only on a missing attribute |
| SelectSequences.AccessionsMeaning | select_sequences.py:8-26 | a successful selection lists the accessions of exactly the documents meeting every criterion, in order |
| SelectSequences.AccessionsSucceed | select_sequences.py:10-26 | with every attribute present selection succeeds; with no criteria it fails on the first document |
| SelectSequences.MatchCriteria | select_sequences.py:11-23 | one document's attribute loop |
| SelectSequences.SelectAccessions | select_sequences.py:8-26 | the loop returns the selection the specification describes |
| SelectSequences.PrefixTestText | select_sequences.py:42 | `header.startswith(tuple(accessions))` with text accessions is a prefix test against any of them |
| SelectSequences.SelectHeaders | select_sequences.py:41-44 | the header loop keeps exactly the entries passing the prefix test |
| SelectSequences.HeadersKept | select_sequences.py:41-44 | kept entries start with a selected accession, in input order; none are kept when none are selected |
| SelectSequences.Run | select_sequences.py:28-45 | `main`: the selected accessions, then the entries they prefix, or the selection's error |
| SelectSequencesById.SelectById | select_sequences_by_id.py:12-22 | the loop keeps the first selectable entry per sequence |
| SelectSequencesById.SelectedOutput | select_sequences_by_id.py:11-22 | entries in order, a header starting with a listed accession iff `exclude` is off, no sequence twice, every selectable sequence represented |
| SelectSequencesById.EmptyAccessionList | select_sequences_by_id.py:14-19 | an empty list selects nothing, and with `exclude` keeps one entry per sequence |
| SelectSequencesById.Run | select_sequences_by_id.py:4-25 | `main`: the accession list, then the selection |
| DeduplicateSequences.CloseLeavesSpec | deduplicate_sequences.py:9-13 | the listed leaves are, in order, the left leaf of every adjacent pair within the cut-off and no other |
| DeduplicateSequences.FindDuplicates | deduplicate_sequences.py:5-13 | the loop lists the leaves the specification describes |
| DeduplicateSequences.LastLeafNotListed | deduplicate_sequences.py:9-12 | the last leaf is listed only when an earlier close leaf has its name |
| DeduplicateSequences.Deduplicate | deduplicate_sequences.py:20-24 | the loop keeps the first entry per sequence among entries not starting with a duplicate |
| DeduplicateSequences.DeduplicatedOutput | deduplicate_sequences.py:20-24 | input entries in order, none starting with a duplicate, no sequence twice, every other sequence represented |
| DeduplicateSequences.NoDuplicatesKeepsFirstPerSequence | deduplicate_sequences.py:21-24 | with no duplicates only repeated sequences are removed |
| DeduplicateAlignment.DeduplicateRows | deduplicate_alignment.py:15-24 | the rows whose id starts with no duplicate, in order |
| DeduplicateAlignment.DeduplicatedRows | deduplicate_alignment.py:18-22 | kept rows are unchanged input rows in order, kept iff their id starts with no duplicate |
| DeduplicateAlignment.Run | deduplicate_alignment.py:26-28 | `main`: the tree's duplicates, then the filtered rows |
| ReorderAlignment.Reorder | reorder_alignment.py:14-20 | the loop builds the listed rows followed by the others |
| ReorderAlignment.ReorderedSpec | reorder_alignment.py:14-20 | the result is a permutation of the rows, each group in input order |
| ReorderAlignment.ListedFirst | reorder_alignment.py:15-20 | every listed row comes before every unlisted row |
| ReorderAlignment.Run | reorder_alignment.py:5-21 | `main` between reading and writing the alignment |
| CutAlignment.ParseRegions | cut_alignment.py:6-15 | one region per comma-separated field, in order, or the first field's parse error |
| CutAlignment.RangeTextParses | cut_alignment.py:9-11 | a written range `a:b` reads back as the slice bounds `a-1`, `b` |
| CutAlignment.RangesRoundTrip | cut_alignment.py:6-11 | a written list of ranges reads back as its list of slices |
| CutAlignment.SliceBound | cut_alignment.py:12 | a bound clipped as Python clips it: negative from the end, clamped to the row |
| CutAlignment.PySliceSpec | cut_alignment.py:12 | a slice is the run between its clipped bounds |
| CutAlignment.CutSequenceLength | cut_alignment.py:10-20 | a cut row is as wide as its regions together; `a:b` inside the row gives `b - a + 1` columns |
| CutAlignment.CutRowsSpec | cut_alignment.py:17-20 | row count, order, ids and descriptions survive the cut, and each row has the summed width |
| CutAlignment.CutRowStep | cut_alignment.py:18-20 | one more region appends its slice to every row |
| CutAlignment.AppendRegion | cut_alignment.py:19-20 | pastes one region onto every row in place |
| CutAlignment.Merge | cut_alignment.py:17-20 | the pasting loop leaves the rows of the whole cut |
| CutAlignment.Cut | cut_alignment.py:4-21 | `main`: the cut alignment, or the error that stops the script |
| SimplifyAlignmentHeaders.SimplifiedId | simplify_alignment_headers.py:8 | the id up to its first delimiter, which is a prefix holding no delimiter |
| SimplifyAlignmentHeaders.SimplifiedIdIdempotent | simplify_alignment_headers.py:8 | simplifying twice changes nothing more |
| SimplifyAlignmentHeaders.SimplifiedRowIdempotent | simplify_alignment_headers.py:8-10 | a simplified row stays as it is when simplified again |
| SimplifyAlignmentHeaders.Simplify | simplify_alignment_headers.py:7-10 | every record's id and description become its simplified id, in place |
| BuildHmms.StrippedName | build_hmms.py:13 | the base name with '.', 't' and 'x' stripped from both ends |
| BuildHmms.StrippedNameDiffers | build_hmms.py:13 | a stem beginning or ending with '.', 't' or 'x' gets a name other than its stem |
| BuildHmms.SelectedMembers | build_hmms.py:20-24 | the main profile holds exactly the FASTA entries of listed accessions, once each |
| BuildHmms.SelectedOrder | build_hmms.py:20-24 | the entries are ordered by first listing |
| BuildHmms.SelectedSpec | build_hmms.py:20-24 | both of the above |
| BuildHmms.ProfileSequences | build_hmms.py:20-24 | the nested loop computes the selection the specification describes |
| BuildHmms.LeaveOneOut | build_hmms.py:31-34 | the deletion loop on a copy |
| BuildHmms.LeaveOneOutSpec | build_hmms.py:31-34 | a leave-one-out profile keeps, in order, exactly the entries not ending with the left-out accession |
| BuildHmms.LeaveOneOutDropsMarkedForms | build_hmms.py:29-34 | leaving out an accession drops its "C-" and "N-" forms too |
| BuildHmms.BuildHmm | build_hmms.py:38-50 | nothing when the profile file exists, otherwise the alignment input for its entries |
| BuildHmms.BuildInputParses | build_hmms.py:44-46 | the alignment input reads back as the profile's entries |
| BuildHmms.PerformedFresh | build_hmms.py:38-42 | no profile file is written twice or overwritten |
| BuildHmms.PerformedCovers | build_hmms.py:38-50 | afterwards every requested profile exists and no other file was added |
| BuildHmms.PerformedInOrder | build_hmms.py:38-50 | the builds are the requests' builds in order, some skipped |
| BuildHmms.LooRequests | build_hmms.py:29-36 | one request per distinct unmarked accession |
| BuildHmms.MainRequest | build_hmms.py:13-25 | the main profile is named after the stripped list name and holds the listed accessions' entries, keys distinct |
| BuildHmms.ProfileRequests | build_hmms.py:13-36 | the main profile first, then one leave-one-out profile per distinct unmarked accession when asked, and none otherwise |
| BuildHmms.BuildRequests | build_hmms.py:25-50 | the requests of one list are made in turn; each is built unless its profile file is present, and the present files grow by the files built |
| BuildHmms.ProfileRequestsMade | build_hmms.py:13-36 | what one list's request step returns is that list's block of requests: the main profile, then the leave-one-out profiles when asked |
| BuildHmms.ListBlocksStep | build_hmms.py:12-36 | one more list appends its block of requests |
| BuildHmms.ListBlocksAt | build_hmms.py:12-36 | block g holds exactly what list g leads to |
| BuildHmms.BuildProfiles | build_hmms.py:10-36 | `main`: list by list in listing order, the main request and, when asked, one leave-one-out request per distinct unmarked accession; the builds they lead to, each request skipped when its profile file is present |
| HmmNames.RemoveMarks | check_hmms.py:21 | `re.sub("C-\|N-", "", s)`: the result is never longer than the input |
| HmmNames.RemoveMarksUnmarked | build_hmms.py:29 | an accession without marks is unchanged |
| HmmNames.MarkedForms | build_hmms.py:29 | the marked forms of an unmarked accession reduce to it |
| HmmNames.HmmName | check_hmms.py:17 | the list's file name without its extension |
| HmmNames.HmmNameTxt | check_hmms.py:17 | a list "<stem>.txt" names the profile "<stem>" |
| HmmNames.HmmNameOfFile | check_hmms.py:17 | the same for a bare file name |
| HmmNames.LooName | build_hmms.py:35 | the leave-one-out name is the profile name, "_", the accession |
| Paths.Basename | build_hmms.py:13 | what follows the last '/', holding no '/' |
| Paths.PathJoin | build_hmms.py:39 | `os.path.join` of a directory and a name: the path ends with the name |
| Paths.SplitExtRoot | check_hmms.py:17 | `os.path.splitext(p)[0]` drops the extension of the last component only |
| JsonPaths.DocumentPath | extract_metadata.py:19 | the document file of an accession |
| JsonPaths.DocumentPathInjective | extract_metadata.py:19 | distinct accessions get distinct document files |
| ExtractMetadata.CuratedLabelsOutcome | extract_metadata.py:6-15 | the GGPP rule decides when both apply; a name neither rule names keeps its labels |
| ExtractMetadata.CuratedLabelsIdempotent | extract_metadata.py:6-15 | curating twice changes nothing more |
| ExtractMetadata.CurateRecord | extract_metadata.py:6-15 | only the label lists change, as the rules say |
| ExtractMetadata.CurationOverridesLabels | extract_metadata.py:28-31 | the labels after labelling then curation |
| ExtractMetadata.ExtractRecord | extract_metadata.py:27-32 | one entry's document: construct, label, curate |
| ExtractMetadata.ExtractRecords | extract_metadata.py:24-33 | the documents of all entries in order, or the first entry's error |
| ExtractMetadata.WriteJson | extract_metadata.py:17-22 | each document paired with its file, in order |
| ExtractMetadataInterpro.CuratedOutcome | extract_metadata_InterPro.py:6-14 | the GGPP rule, applied second, decides; other names keep their labels |
| ExtractMetadataInterpro.CuratedIdempotent | extract_metadata_InterPro.py:6-14 | curating twice changes nothing more |
| ExtractMetadataInterpro.CurateRecord | extract_metadata_InterPro.py:6-14 | only the enzyme type changes, as the rules say |
| ExtractMetadataInterpro.CurationOverridesLabels | extract_metadata_InterPro.py:27-30 | the labels after labelling then curation |
| ExtractMetadataInterpro.ExtractRecord | extract_metadata_InterPro.py:26-31 | one header's document: construct, label, curate |
| ExtractMetadataInterpro.ExtractRecords | extract_metadata_InterPro.py:23-32 | the documents of all headers in order, or the first header's error |
| ExtractMetadataInterpro.WriteJson | extract_metadata_InterPro.py:16-21 | each document paired with its file, in order |
| DownloadDataNcbi.Category | download_data_ncbi.py:44-48 | the first clade the taxonomy names, else "Other" |
| DownloadDataNcbi.CategoryFirstClade | download_data_ncbi.py:44-48 | the category is the clade at the first position whose test holds |
| DownloadDataNcbi.NoneLastColumnKept | download_data_ncbi.py:50-53 | as written, "none" followed by the line's newline becomes the label list ["none"] |
| DownloadDataNcbi.EnzymeTypeField | download_data_ncbi.py:50-53 | no type iff the stripped column is "none"; otherwise the ", " parts of the stripped column |
| DownloadDataNcbi.EnzymeTypeFieldIgnoresTerminator | download_data_ncbi.py:50-53 | the reading does not depend on the line terminator |
| DownloadDataNcbi.AsWrittenAgreesWithIntended | download_data_ncbi.py:50-53 | the script's reading differs from the intended one exactly on a column that is "none" only after stripping, where it stores ["none"] |
| DownloadDataNcbi.WriteMetadata | download_data_ncbi.py:37-57 | the document holds the entry's fields, its category and its enzyme types as line 50 tests them (the raw column against "none"), at its accession's path |
| DownloadDataNcbi.TableStep | download_data_ncbi.py:67-69 | one more row assigns its pair in the dictionary |
| DownloadDataNcbi.AssignRow | download_data_ncbi.py:69 | the dictionary assignment: a present accession keeps its position and takes the new type, a new one is appended |
| DownloadDataNcbi.ReadTable | download_data_ncbi.py:63-69 | the first line skipped, each later line's pair assigned in order |
| DownloadDataNcbi.TableLaterWins | download_data_ncbi.py:65-69 | every accession once, with the type of its last line |
| DownloadDataNcbi.DownloadAll | download_data_ncbi.py:70-74 | one document per accession, in dictionary order, each describing its entry with the table's type column as the script reads it |
| AddManualMetadata.Stored | add_manual_metadata.py:15-18 | a truthy value is stored as it is, a falsy one as "none" |
| AddManualMetadata.UpdatedSpec | add_manual_metadata.py:14-18 | every entry's key holds the stored form of its last value; other keys keep their values |
| AddManualMetadata.UpdatedIdempotent | add_manual_metadata.py:14-18 | merging the same entries twice is merging them once |
| AddManualMetadata.ManualPath | add_manual_metadata.py:6 | directory and accession joined with no separator |
| AddManualMetadata.ManualPathNeedsSlash | add_manual_metadata.py:6 | the path agrees with the other scripts' only when the directory ends in "/" |
| AddManualMetadata.UpdateJson | add_manual_metadata.py:5-20 | only the accession's document changes, to the merge of the later entries |
| AddManualMetadata.UpdateStoreSpec | add_manual_metadata.py:5-18 | the document keeps the keys the row does not name and takes the stored value of every later entry |
| AddManualMetadata.UpdateStoreIdempotent | add_manual_metadata.py:5-18 | applying the same row twice is applying it once |
| AddManualMetadata.RowMetadataColumns | add_manual_metadata.py:25-30 | a row's metadata pairs the columns with its cells in order |
| AddManualMetadata.IngestPrefixStep | add_manual_metadata.py:26-31 | one more row applies its update |
| AddManualMetadata.IngestStopsAtFailure | add_manual_metadata.py:26-31 | the first error stops the loop |
| AddManualMetadata.WrittenAtFailure | add_manual_metadata.py:19-31 | when a row fails, the documents on disk are those the rows before it wrote |
| AddManualMetadata.IngestRepeat | add_manual_metadata.py:26-31 | for any row step, a row whose second application leaves the store unchanged can be repeated without effect |
| AddManualMetadata.IngestRepeatedRow | add_manual_metadata.py:26-31 | a row repeated right after itself changes nothing more |
| AddManualMetadata.IngestLine | add_manual_metadata.py:27-31 | the body of the row loop |
| AddManualMetadata.Run | add_manual_metadata.py:22-31 | the header names the columns and every later line updates one document; an empty file is an error; on an error the documents written by the earlier rows stay written |
| RunHmmscan.NewRunResult | run_hmmscan.py:9-20 | a stream's text is kept only when it was piped |
| RunHmmscan.Stdout | run_hmmscan.py:22-27 | reading standard output fails iff it was not piped |
| RunHmmscan.Stderr | run_hmmscan.py:22-27 | reading standard error fails iff it was not piped |
| RunHmmscan.StreamsReadBack | run_hmmscan.py:9-27 | a piped stream reads back as its output |
| RunHmmscan.Successful | run_hmmscan.py:29-31 | success iff the exit code is zero |
| RunHmmscan.CommandStringSplits | run_hmmscan.py:33-35 | a command of space-free words reads back from its command string |
| RunHmmscan.FirstErrorLine | run_hmmscan.py:86-90 | the first line starting with "Error:", or none |
| RunHmmscan.FirstNonBlankLine | run_hmmscan.py:92-95 | the first line that is not blank once stripped, or none |
| RunHmmscan.FindError | run_hmmscan.py:83-97 | the two scans with early returns compute the error message |
| RunHmmscan.ErrorMessageSpec | run_hmmscan.py:83-97 | never empty; an "Error:" line leads it; otherwise a stripped line, and "unknown error" only when all lines are blank |
| RunHmmscan.IntTextParses | run_hmmscan.py:122 | an exit code's text reads back as the code |
| RunHmmscan.FailureMessageParts | run_hmmscan.py:119-124 | the message names the exit code and quotes the most telling output line |
| RunHmmscan.HmmscanCommand | run_hmmscan.py:114-117 | the program, the options if any, the profile database and the FASTA file |
| RunHmmscan.Hmmscan | run_hmmscan.py:99-129 | a non-zero exit raises with the failure message; otherwise the output is kept and returned |
| WriteItolAnnotation.TextAttribute | write_itol_annotation.py:10-11 | an attribute concatenated to text must be text |
| WriteItolAnnotation.WriteAnnotationLabels | write_itol_annotation.py:7-11 | three header lines, then one line per record; a failing record keeps the lines before it |
| WriteItolAnnotation.LabelsReadBack | write_itol_annotation.py:9-11 | read back, the file is the header and one line per record splitting into accession and protein name |
| WriteItolAnnotation.ListColourSpec | write_itol_annotation.py:19-24 | the item scan fails exactly on a nested list; otherwise the legend entry of the last listed item, or "" |
| WriteItolAnnotation.ScanItems | write_itol_annotation.py:19-24 | the item loop computes that scan |
| WriteItolAnnotation.ColourLineOf | write_itol_annotation.py:18-27 | one record's colour line, or its error |
| WriteItolAnnotation.WriteAnnotationColours | write_itol_annotation.py:13-27 | three header lines, then one line per record; a failing record keeps the lines before it |
| WriteItolAnnotation.ColourLineOfList | write_itol_annotation.py:19-24 | a list attribute gets the colour of its last item the legend has |
| WriteItolAnnotation.ColourLineOfScalar | write_itol_annotation.py:25-27 | a scalar gets its legend entry; one the legend lacks makes the write fail |
| CheckHmms.ListInSpec | check_hmms.py:20-23 | a list is read iff all its accessions are ids, and is then their set; the failure names the file and a stray accession |
| CheckHmms.ReadList | check_hmms.py:18-23 | the loop over one list's lines |
| CheckHmms.ReadGroups | check_hmms.py:16-28 | fails iff a list fails; otherwise each profile's in-group is its list and its out-group the other ids |
| CheckHmms.GroupsSpec | check_hmms.py:16-28 | each profile named once, with the set of the last file naming it |
| CheckHmms.ScoresOfSpec | check_hmms.py:33-38 | a pair's scores are exactly its hits' bitscores |
| CheckHmms.CollectHits | check_hmms.py:32-38 | the loop tabulates every hit under its pair |
| CheckHmms.Max | check_hmms.py:45 | `max`: an element no smaller than any other |
| CheckHmms.TopScoreSpec | check_hmms.py:43-47 | 0 iff the pair has no hit; otherwise the largest bitscore of its hits |
| CheckHmms.GroupRowsCover | check_hmms.py:41-58 | each id once per profile, in-group iff listed, scored against the leave-one-out profile when in-group |
| CheckHmms.ScoreGroups | check_hmms.py:40-58 | the loops compute the rows the specification describes |
| CheckHmms.WriteScores | check_hmms.py:60-66 | the loop writes the scores file |
| CheckHmms.ScoresReadBack | check_hmms.py:60-66 | read back, the file is its header and one line per row splitting into four cells |
| CheckHmms.RowLineReadBack | check_hmms.py:66 | a row's line holds no break and splits back into its cells |
| CheckHmms.CheckHmms | check_hmms.py:12-66 | `main`: fails on the first stray accession; otherwise the scores of the profiles split as their lists say |

## Left out

- Taxonomy lookups through `NCBITaxa` and `Entrez` are inputs: organism names, lineages, the clades the taxonomy names and the downloaded GenBank entries.
- Python's `re` is modelled only for the pattern forms the scripts build: literals, the optional one-character class `[_-]?` and the optional group `(-.*-)?`, searched case-insensitively on ASCII letters.
- JSON and CSV serialisation (`to_json`, `from_json`, `json.dump`, `csv.reader`) is left out. Documents are values and files are lines.
- Subprocesses are left out: `execute` in `run_hmmscan.py`, the alignment and `hmmbuild` calls in `build_hmms.py`, and `run_hmmscan` in `check_hmms.py:68-72`. The program's exit code and output are inputs.
- The hmmscan report parse (`SearchIO`) is left out. `CheckHmms.CheckHmms` takes the hits as a list.
- Phylogenetic tree parsing and distances are left out. `find_duplicates` takes the leaf names, the distance of each adjacent pair as a real number, and the cut-off as a real number.
- DeduplicateSequences.FindDuplicates: the `float(cut_off)` conversion of the argument text is not modelled; the script raises ValueError on text that is not a number, and only once it compares a pair, so a tree with fewer than two leaves never converts it.
- Float formatting is a parameter. Bitscores are reals, and Python's `max` on NaN is not modelled.
- Globbing, `os.path.isfile` and file opening are inputs: directory listings in their given order, and the set of files present.
- Network downloads are left out.
- Text encodings are left out. Strings are character sequences, and `decode()` is the identity.
- FastaParsing.ReadFasta: a sequence line must consist of ASCII letters and '-' (`FastaParsing.IsAlpha`); Python's `str.isalpha()` also accepts every other Unicode letter, so a line such as "ÅÇ" that the script reads fails here with `NonAlphabetic`.
- Text.ParseInt: `int()` is modelled for ASCII decimal digits with single underscores between them, one sign and surrounding whitespace; Python also accepts the decimal digits of other scripts (such as "٣"), which are refused here.
- SelectInterpro.InterproSeqRecord.Attribute: `getattr` is modelled for the fields the script sets and for `name`, `dbxrefs` and `features`; the dictionary-valued `annotations` and `letter_annotations` and the record's methods, which `getattr` also finds, are reported missing here.
- Printing and logging are left out.
- The single-number region of `cut_alignment.py:13-14` is parsed into `Column(k)`, but what Biopython's `alignment[:, k]` returns (one column as text) is not modelled. The pasting step cannot use that text, so `CutAlignment.Cut` returns `Failure(ColumnRegion(k))` for the first such region.
- Crash paths are listed rather than modelled:
  - `write_fasta` is called with the wrong arity at `select_sequences_by_id.py:25`;
  - the `accessions_dir` argument at `check_hmms.py:79` and `check_hmms.py:83`;
  - the colour writer of `select_interpro_sequences.py:180-194`.
- Of `select_interpro_sequences.py`, `main` (203-219) and the writers (170-201) are not modelled. They chain the modelled operations with file output.
- Of `write_itol_annotation.py`, `main` (29-38) is not modelled:
  - the legend is taken as `ast.literal_eval` returned it;
  - legend values are taken to be text;
  - Python's equality between `True` and `1` as dictionary keys is not modelled.
- `annotate_hmmer_hits.py`, `hmmer_pipeline.py`, `write_metadata_table.py`, `build_metadata_summary.py`, `run_muscle.py` and `run_fasttree.py` are not part of this model.
- Records.ProteinRecord.AssignEnzymeType: the order of the label list is not fixed, as Python's set order is not; the contract states distinctness and membership only.
- BuildHmms.LooRequests: the order of `list(set(...))` is left open; the contract states distinctness and membership only.
- SelectInterpro.CriteriaMatchMeaning: a selection value is taken to be a list, tuple or set, so `in` is membership; a text value, which `ast.literal_eval` may also return, makes `in` a substring test (and a non-text list item a TypeError), and that case is not modelled.
- SelectInterpro.SelectionMeaning: a selection value is taken to be a list, tuple or set, so `in` is membership; a text value, which `ast.literal_eval` may also return, makes `in` a substring test (and a non-text list item a TypeError), and that case is not modelled; the selection is stated for such values only.
- SelectInterpro.SelectRecords: a selection value is taken to be a list, tuple or set, so `in` is membership; a text value, which `ast.literal_eval` may also return, makes `in` a substring test (and a non-text list item a TypeError), and that case is not modelled.
- SelectInterpro.MatchCriteria: a selection value is taken to be a list, tuple or set, so `in` is membership; a text value, which `ast.literal_eval` may also return, makes `in` a substring test (and a non-text list item a TypeError), and that case is not modelled.
- SelectSequences.CriteriaMatchMeaning: a selection value is taken to be a list, tuple or set, so `in` is membership; a text value, which `ast.literal_eval` may also return, makes `in` a substring test (and a non-text list item a TypeError), and that case is not modelled; Python's equality of `True` with `1` (and of `1` with `1.0`) is not modelled either: `JBool(true)` and `JNumber(1)` are told apart, and JSON numbers are integers only.
- SelectSequences.AccessionsMeaning: a selection value is taken to be a list, tuple or set, so `in` is membership; a text value, which `ast.literal_eval` may also return, makes `in` a substring test (and a non-text list item a TypeError), and that case is not modelled; Python's equality of `True` with `1` (and of `1` with `1.0`) is not modelled either: `JBool(true)` and `JNumber(1)` are told apart, and JSON numbers are integers only.
- SelectSequences.MatchCriteria: a selection value is taken to be a list, tuple or set, so `in` is membership; a text value, which `ast.literal_eval` may also return, makes `in` a substring test (and a non-text list item a TypeError), and that case is not modelled; Python's equality of `True` with `1` (and of `1` with `1.0`) is not modelled either: `JBool(true)` and `JNumber(1)` are told apart, and JSON numbers are integers only.
- SelectSequences.SelectAccessions: a selection value is taken to be a list, tuple or set, so `in` is membership; a text value, which `ast.literal_eval` may also return, makes `in` a substring test (and a non-text list item a TypeError), and that case is not modelled; Python's equality of `True` with `1` (and of `1` with `1.0`) is not modelled either: `JBool(true)` and `JNumber(1)` are told apart, and JSON numbers are integers only.
- BuildHmms.PerformedCovers: a build is taken to succeed and create its profile file; the script checks neither `muscle`'s nor `hmmbuild`'s exit status, and an empty set of sequences (a one-accession list with `--leave_one_out`, or a list none of whose accessions is in the FASTA file) can reach a build. The same assumption underlies `BuildHmms.BuildProfiles`.

## Findings

| source | as written | input that shows it | evidently intended | confidence | as-written member | corrected member |
|---|---|---|---|---|---|---|
| build_hmms.py:13 | the profile is named `basename.strip(".txt")`, which strips the characters '.', 't' and 'x' from both ends rather than the suffix, while `check_hmms.py:17` looks profiles up by the `splitext` stem | an accession list "tps.txt": the profile is built as "ps", and the checker looks for "tps" | the profile is named by the list's file name without its extension | not executed; high | BuildHmms.StrippedNameDiffers | HmmNames.HmmNameTxt |
| download_data_ncbi.py:50-53 | the enzyme-type column is compared with "none" before its trailing newline is removed | a table line whose last column is "none", read with its "\n" | a "none" column means the entry has no enzyme type, whatever terminator follows it | not executed; high | DownloadDataNcbi.NoneLastColumnKept | DownloadDataNcbi.EnzymeTypeFieldIgnoresTerminator |
