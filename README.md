# DRARDT missense and druggability core, modelled in Dafny

DRARDT.py is a Streamlit page. It assesses a target gene and the missense
mutations of its protein. This project models the deterministic logic behind
the page, with every web request, file read and subprocess replaced by its
result, passed in as an argument. The logic comes from `st_missense.py`,
`st_missense2.py` and `st_params.py`, plus two small rules of `st-app.py`.

The modelled logic:

- the amino-acid volume and hydrophobicity tables loaded from TSV rows (`AaProperties`);
- the FreeSASA relative-accessibility report, in two forms:
  - the line-by-line residue lookup, in both its file form and its captured-text form;
  - the parser that turns the report into records (`SasaReport`);
- the PDB coverage check over the UniProt cross-references of a protein (`UniprotXrefs`, `PdbCoverage`);
- the SimBa-NI ΔΔG estimate (`SimbaNi`), with the page's mutation-list reading, position reading and unfolding verdict;
- the DRARDT parameter scores (`DrardtParams`):
  - the STRING interactor filter;
  - the KEGG pathway count;
  - the UniProt 3D-structure count;
  - the AlphaFold score;
  - the final 0–3 DRARDT score.

The Python built-ins these functions rely on are modelled once in `PyText`:

- `str.split()`, `str.split(sep)`, `str.splitlines()`, `str.strip()` and `startswith`;
- `int()` and `float()` on strings, with `None` for the ValueError they raise;
- `str()` of an integer.

A raised Python exception is the `Raises` case of a `Result` that names ValueError, KeyError or IndexError. Floating-point values are Dafny `real`s. `float()` reads decimal notation exactly: an optional sign, digits with an optional point and an optional exponent, and surrounding whitespace.

Every modelled loop is a `method` with a `while` or `for` loop, except the list comprehension at st-app.py:148, which is a sequence comprehension in `MutationList`. Each loop method is proved equal to a recursive specification function, and the lemmas state the properties of that function:

| loop | specification function |
|---|---|
| `load_aa_properties` | `Tables` |
| `get_rsa_for_residue` | `RsaOf` |
| `parse_freesasa_output` | `RecordsOf` |
| `check_pdb_coverage` | `CoverageOf` |
| `get_string_interactors` | `StringInteractors` |
| `get_uniprot_3d` | `Uniprot3d` |

The same `get_rsa_for_residue`, `calculate_ddG` and `check_pdb_coverage` code appears in both missense files, so it is modelled once. The text form of the lookup splits the captured output into lines and then runs the same loop.

## Behaviour worth noting

- A chain range that contains `-` but does not unpack into two integers raises ValueError (`ChainSpan` gives `Malformed`); it is not skipped.
- `parse_freesasa_output` does not guard its conversions. A `RES` line with at least 11 fields whose number columns do not convert raises ValueError; it is not skipped.
- A response with no cross-reference list makes `check_pdb_coverage` return a message string as its first value. It does not return `False`.
- The parser keeps every line that starts with `RES` and has at least 11 fields, while the lookup also needs the first field to be exactly `RES`. A line such as `RESX A ALA 45 …` is therefore a record of residue 45 for the parser but offers nothing to the lookup.
- An unknown amino-acid code in `calculate_ddG` raises KeyError. A missing `results` key in `get_uniprot_3d` raises KeyError.

## Model

| member | source | states |
|---|---|---|
| PyText.StripBlank | st_missense.py:80 | `line.strip()` is empty exactly when every character is whitespace |
| PyText.FieldsOfJoin | st_missense.py:84 | `split()` of non-empty, whitespace-free tokens joined by spaces gives back the tokens |
| PyText.SplitOnLength | st_params.py:58-59 | `text.split(sep)` has one more piece than `text` has separators |
| PyText.SplitOnConcat | st-app.py:148 | splitting `a + sep + b` with no separator in `a` gives `a` followed by the pieces of `b` |
| PyText.DecimalValueDigits | st_missense.py:89 | a run of characters has a decimal value exactly when all of them are digits |
| PyText.IntRoundTrip | st-app.py:150 | `int(str(n)) == n` for every integer |
| PyText.FloatOfNat | st_missense.py:19 | `float(str(n)) == n` for every natural number |
| AaProperties.ConvertAllAt | st_missense.py:17-20 | conversion `i` is `float(V)` and `float(H)` of row `i` |
| AaProperties.LoadAaProperties | st_missense.py:10-22 | the row loop returns the tables of `Tables`, or ValueError at the first row whose `V` or `H` does not convert |
| AaProperties.RaisesValueError | st_missense.py:19-20 | the only exception the loader raises is ValueError |
| AaProperties.AbortKeepsError | st_missense.py:17-20 | once a prefix of the rows raises, the whole load raises |
| AaProperties.TablesOk | st_missense.py:17-20 | loading succeeds exactly when every row's `V` and `H` convert |
| AaProperties.TablesKeys | st_missense.py:15-20 | both dictionaries have exactly the `AA` codes of the rows as keys |
| AaProperties.TablesLastRowWins | st_missense.py:18-20 | each code maps to `float(V)` and `float(H)` of the last row carrying it |
| SasaReport.ResidueNumber | st_missense.py:78-91 | a line offers a residue number only if it starts with `RES` and has at least 11 fields |
| SasaReport.FirstIndex | st_missense.py:93-99 | the index found is the first match; no match means no element equals the target |
| SasaReport.GetRsaForResidue | st_missense.py:77-99 | the line loop returns `float(columns[5])` of the first line offering the residue number, or `None` |
| SasaReport.GetRsaForResidueInOutput | st_missense2.py:88-113 | no output or empty output gives `None`; otherwise the lookup over `splitlines()` |
| SasaReport.StopsAtFirstMatch | st_missense.py:93-99 | once a line offers the number, later lines never change the answer, even when its RSA does not convert |
| SasaReport.SkippedLineIrrelevant | st_missense.py:87-93 | a line offering no number, or another number, can be inserted anywhere without changing the answer |
| SasaReport.IgnoredLineIrrelevant | st_missense.py:80-91 | `REM`, blank, non-`RES`, short, non-`RES`-first-field and non-integer-number lines never change the answer |
| SasaReport.FloatColumnsSome | st_missense2.py:64-70 | the area columns convert exactly when each of them does |
| SasaReport.FloatColumnsValues | st_missense2.py:64-70 | converted columns keep their own values, in order |
| SasaReport.ParseFreesasaOutput | st_missense2.py:51-75 | the parse loop returns `RecordsOf` of the report's lines |
| SasaReport.RecordLines | st_missense2.py:57-59 | only lines starting with `RES` and having at least 11 fields are record lines |
| SasaReport.RecordsOfFilter | st_missense2.py:56-71 | parsing converts exactly the record lines, in input order |
| SasaReport.ConvertAllMeaning | st_missense2.py:60-71 | conversion succeeds exactly when every record line converts, one record per line |
| SasaReport.RecordsOfMeaning | st_missense2.py:56-71 | a parsed report has one record per record line, each the conversion of that line, in order |
| SasaReport.NonRecordLineSkipped | st_missense2.py:57-59 | inserting a line that is not a record line changes no parse result |
| SasaReport.TenFieldLineSkipped | st_missense2.py:59 | a `RES` line with exactly 10 fields is ignored by both the parser and the lookup |
| SasaReport.ToRecordColumns | st_missense2.py:63-65 | a record carries `int(columns[3])` as residue number and `float(columns[5])` as RSA |
| SasaReport.RecordLineResidue | st_missense.py:87-89 | a record line with `RES` first offers `int(columns[3])` |
| SasaReport.LookupAgreesWithParse | st_missense2.py:51-113 | on a report that parses and whose record lines all have `RES` as their first field, the lookup returns the RSA of the first record with that residue number |
| SasaReport.GluedMarkerDisagreement | st_missense.py:84-91 | the line `RESX A ALA 45 1 1 1 1 1 1 1` is a record line that parses to residue 45, yet the lookup offers no number for it and finds nothing for residue 45 |
| SasaReport.RenderLineFields | st_missense2.py:58 | a generated residue line starts with `RES` and splits back into its columns |
| SasaReport.TokensRecord | st_missense2.py:60-71 | the columns of a well-formed row convert to the intended record |
| SasaReport.RenderLineRecord | st_missense2.py:57-71 | a generated residue line is a record line whose record is the intended one |
| SasaReport.ReportRoundTrip | st_missense2.py:51-75 | a generated report of N rows parses into exactly the N intended records, in order |
| SasaReport.RsaText | st_missense.py:96 | `float("62.3") == 62.3` |
| SasaReport.ExampleLine | st_missense.py:84-89 | the example report line offers residue 45 with RSA column `62.3` |
| SasaReport.LookupExample | st_missense.py:77-99 | the lookup on the example line gives residue 45 an RSA of 62.3 |
| UniprotXrefs.PdbCrossReferences | st_missense.py:141-142 | a cross-reference list is read exactly when `results` is present and non-empty and its first hit has `uniProtKBCrossReferences`, and it is that hit's list |
| UniprotXrefs.ResponseWith | st_missense.py:141-142 | a response built around a list is read back as exactly that list |
| PdbCoverage.CheckPdbCoverage | st_missense.py:129-175 | the nested flag-and-break loops return `CoverageOf` |
| PdbCoverage.ScanChainsCovered | st_missense.py:154-164 | an entry's pieces cover the position exactly when some piece's range contains it and no earlier piece is malformed |
| PdbCoverage.ScanChainsNotCovered | st_missense.py:154-164 | the pieces report "not covered" exactly when none covers and none is malformed |
| PdbCoverage.ScanEntriesMeaning | st_missense2.py:155-180 | the label reported is that of the first covering entry, with all earlier entries examined; nothing is reported exactly when no entry covers |
| PdbCoverage.CoveredByFirstPdbEntry | st_missense.py:144-169 | a covered result names the earliest covering entry, and that entry is a PDB entry |
| PdbCoverage.FirstCoveringEntryReported | st_missense2.py:172-180 | the earliest covering entry is reported whatever follows it |
| PdbCoverage.NotCoveredMeaning | st_missense.py:141-175 | `(False, None)` exactly when a list exists and no entry covers; the message exactly when there is no list |
| PdbCoverage.NoRangePieceIrrelevant | st_missense.py:155-158 | a piece without `=`-pair or without `-` can be inserted without changing the scan |
| PdbCoverage.ChainSpan | st_missense.py:155-160 | a piece without `=` is never a range; otherwise a range, nothing, or ValueError as the unpacking decides |
| PdbCoverage.ChainSpanOfParts | st_missense.py:155-160 | a piece splitting into two integer bounds is read as that range |
| PdbCoverage.ChainSpanOfRange | st_missense.py:155-160 | `chain=start-end` written in decimal is read back as exactly `start..end` |
| PdbCoverage.SingleRangeEntry | st_missense.py:146-164 | an entry with one range covers exactly the positions from start to end |
| PdbCoverage.SingleEntryCoverage | st_missense.py:141-175 | a response with one such entry is covered exactly inside the range |
| PdbCoverage.EndpointsCovered | st_missense2.py:171-175 | both endpoints are covered and the position after the end is not |
| PdbCoverage.CoverageExampleInside | st_missense.py:149-164 | `A=10-200` covers position 150 and reports `PDB ID: 1ABC` |
| PdbCoverage.CoverageExampleOutside | st_missense.py:149-175 | `A=10-200` does not cover position 250 |
| PdbCoverage.PageReadsAsCovered | st-app.py:152 | Python truthiness of the first returned value: a message is true exactly when it is non-empty, and otherwise only `True` is true |
| PdbCoverage.NoCrossReferencesReadAsCovered | st-app.py:151-153 | the page reads the no-cross-references message as "covered" |
| PdbCoverage.IsCovered | st-app.py:152 | the intended reading implies the page's reading, and differs from it only on the no-cross-references message |
| PdbCoverage.IsCoveredMeansSomeEntryCovers | st-app.py:152 | with the intended reading, "covered" holds exactly when some cross-reference covers the position |
| SimbaNi.CalculateDdG | st_missense.py:115-127 | an empty mutation raises IndexError; otherwise every failure is KeyError |
| SimbaNi.DdGDefined | st_missense.py:117-125 | the estimate exists exactly when both end codes are in both tables, and it is `-1.64 + 0.019·RSA + 0.0049·ΔV - 0.12·ΔH` |
| SimbaNi.OnlyEndsMatter | st_missense2.py:128-129 | only the first and last characters of the mutation matter |
| SimbaNi.SameResidue | st_missense2.py:126-138 | a silent substitution gives `-1.64 + 0.019·RSA` |
| SimbaNi.IncreasingInRsa | st_missense2.py:136 | for a fixed mutation the estimate grows strictly with RSA |
| SimbaNi.ReverseMutation | st_missense.py:117-125 | the estimates of `XnY` and `YnX` add up to twice the silent value |
| SimbaNi.CompareMutants | st_missense.py:121-125 | two mutants of one residue differ by `0.0049·ΔV - 0.12·ΔH` of the mutant codes |
| SimbaNi.ExpectedToUnfold | st-app.py:168-171 | a mutation is expected to unfold the protein exactly when its estimate is at most -1.5 |
| SimbaNi.UnfoldThreshold | st-app.py:168-171 | a known mutation is expected to unfold exactly when `0.019·RSA + 0.0049·ΔV - 0.12·ΔH <= 0.14` |
| SimbaNi.SilentUnfoldThreshold | st-app.py:168-171 | a silent substitution is expected to unfold exactly when `19·RSA <= 140` |
| SimbaNi.AlaToGlyExample | st_missense.py:115-127 | A→G at 25% accessibility gives -1.36465, which is not expected to unfold |
| SimbaNi.MutationPositionRoundTrip | st-app.py:150 | `int(mutation[1:-1])` reads back the position written between the two codes |
| SimbaNi.MutationPosition | st-app.py:150 | a mutation of at most two characters has no position: `int("")` raises ValueError |
| SimbaNi.MutationList | st-app.py:148 | one entry per comma-separated piece, one more than the commas, each that piece stripped |
| SimbaNi.MutationListCons | st-app.py:148 | the first entry is the stripped text before the first comma |
| DrardtParams.PublicationCountScore | st_params.py:12-21 | the score is in 1..4 |
| DrardtParams.PublicationCountScoreMonotone | st_params.py:12-21 | more publications never lower the score |
| DrardtParams.PublicationCountScoreSteps | st_params.py:13-20 | score 1 up to 50, 2 up to 100, 3 up to 200, 4 beyond |
| DrardtParams.InteractorsScore | st_params.py:43-52 | the score is in 1..4 |
| DrardtParams.InteractorsScoreMonotone | st_params.py:43-52 | more interactors never lower the score |
| DrardtParams.InteractorsScoreSteps | st_params.py:44-51 | score 1 below 2, 2 below 4, 3 up to 6, 4 beyond |
| DrardtParams.KeggScore | st_params.py:61-68 | the score is in 1..3 |
| DrardtParams.KeggScoreSteps | st_params.py:61-68 | 1 for no pathway, 2 for one, 3 for more; non-decreasing |
| DrardtParams.PdbScore | st_params.py:93-101 | the score is in 1..4 |
| DrardtParams.PdbScoreSteps | st_params.py:93-101 | 1 for 0 entries, 2 for 1..3, 3 for 4, 4 for 5 or more; non-decreasing |
| DrardtParams.AF2Score | st_params.py:113-118 | 2 exactly when a prediction is given, 1 exactly when it is `None` |
| DrardtParams.DrardtScore | st_params.py:120-130 | the DRARDT score is in 0..3 for every integer input |
| DrardtParams.DrardtScoreMonotone | st_params.py:121-129 | a larger sum of scores never lowers the DRARDT score |
| DrardtParams.DrardtScoreMonotoneEach | st_params.py:120-130 | raising any one score never lowers the DRARDT score |
| DrardtParams.DrardtScoreExtremes | st_params.py:120-130 | all-lowest scores give 0, all-highest give 3 |
| DrardtParams.KeggPathwayCount | st_params.py:58-59 | `len(text.split('\n')) - 1` is never negative: it is the number of newlines of the response |
| DrardtParams.AddPartners | st_params.py:37-39 | the inner loop adds every name of `data[2:4]` other than the gene |
| DrardtParams.FilterLine | st_params.py:32-39 | one line adds its partners, or raises IndexError (short) or ValueError (bad score) |
| DrardtParams.GetStringInteractors | st_params.py:28-41 | the line loop returns `StringInteractors` of the response |
| DrardtParams.PartnersMembers | st_params.py:31-39 | a name is collected exactly when some line contributes it |
| DrardtParams.InteractorsMeaning | st_params.py:28-41 | the count is the number of names; a name is listed exactly when a non-empty line scoring above 0.7 has it in column 2 or 3 and it is not the gene; the gene is never listed |
| DrardtParams.ShortLineRaises | st_params.py:33-34 | a first line with fewer than 11 fields raises IndexError |
| DrardtParams.Describe | st_params.py:84-87 | a description exists exactly when the entry has at least three properties, and it starts with `PDB ID: <id>` |
| DrardtParams.PdbEntries | st_params.py:81-82 | the PDB entries are all of database `PDB` |
| DrardtParams.DescriptionsOk | st_params.py:81-88 | the descriptions exist exactly when every PDB entry has at least three properties |
| DrardtParams.DescriptionsLines | st_params.py:81-88 | one description per PDB entry, in order, each describing that entry |
| DrardtParams.GetUniprot3d | st_params.py:70-103 | the counting loop returns `Uniprot3d` of the response |
| DrardtParams.StructureCrossReferences | st_params.py:79-80 | a missing `results` key raises KeyError; otherwise the list is the one the coverage guard reads, or empty when that guard fails |
| DrardtParams.Uniprot3dMeaning | st_params.py:79-103 | the count is the number of PDB entries; the lines are one per entry or the single placeholder; the score is `PdbScore` of the count |
| DrardtParams.Uniprot3dWithoutEntries | st_params.py:79-101 | no `results` raises KeyError; empty results or no cross-references give count 0, the placeholder and score 1 |
| DrardtParams.AlphaFoldPrediction | st_params.py:105-111 | as written, the prediction is always a non-empty string: the entry URL for status 200, the message otherwise |
| DrardtParams.AF2ScoreIgnoresStatus | st_params.py:105-118 | as written, the AlphaFold score is 2 whatever the response status |
| DrardtParams.AlphaFoldPredictionOrNone | st_params.py:105-111 | the intended prediction is the entry URL when there is one |
| DrardtParams.AF2ScoreReflectsPrediction | st_params.py:113-118 | with the intended prediction, the score is 2 exactly for status 200 |
| DrardtParams.GeneScore | st_params.py:120-130 | the DRARDT score of a gene is in 0..3 |
| DrardtParams.LowEvidenceGeneScore | st_params.py:120-130 | a gene without an AlphaFold model, with at most 50 publications, at most one interactor, no KEGG pathway and at most four PDB entries scores 0; the as-written AlphaFold rule adds one to the sum and lifts such a gene with four PDB entries to 1 |

## Left out

- The web requests, including `requests.get` with its error statuses and JSON decoding. Their decoded results or response texts are arguments.
- `Entrez.esearch` in `get_publication_count`. The publication count is an argument.
- `run_freesasa`, i.e. the subprocess, the temporary file and the error messages. The report is an argument, as lines or as text.
- Reading the TSV file with `csv.DictReader`. The rows are an argument, so quoting, missing columns and header handling are not modelled.
- `st_uniprot.py` and `freesasa.py` are not part of this model. The Streamlit page `st-app.py` is not modelled either, except its mutation reading, coverage reading and unfolding verdict.
- The console output of `get_rsa_for_residue`, including its exposed/buried message, and the unused `results` list of `check_pdb_coverage`.
- IEEE-754 arithmetic. `float()` yields exact reals, so rounding in the ΔΔG formula and the 0.7 and -1.5 thresholds is not modelled.
- Parts of Python's `int()`/`float()` grammar: `inf`, `nan`, underscores between digits and non-ASCII digits. Those inputs read as ValueError.
- JSON `null` values in the UniProt response. A `None` field means the key is absent, so `"results": null` (count 0 in `get_uniprot_3d`) and a null `uniProtKBCrossReferences` (TypeError in `check_pdb_coverage`) are not represented.
- The order of `list(filtered_interactors)`. The interactor names are a set.
- The pandas DataFrame returned by `parse_freesasa_output`. It is a sequence of records.
- The page's per-mutation loop (st-app.py:149-173), which passes each mutation to the coverage check, the lookup and the estimate and writes the results. It is presentation; only its parsing and verdict rules are modelled.

## Findings

| source | as written | input that shows it | evidently intended | confidence | as-written member | corrected member |
|---|---|---|---|---|---|---|
| st-app.py:152 | `if is_covered:` tests the first value of `check_pdb_coverage`, which is a non-empty message string when the protein has no cross-references | a response whose `results` is empty, at any position | report "not covered" (or the message) when there is no structure at all | high, not executed | PdbCoverage.NoCrossReferencesReadAsCovered | PdbCoverage.IsCoveredMeansSomeEntryCovers |
| st_params.py:105-118 | `get_alphafold_prediction` returns the string "No AlphaFold prediction found" instead of `None`, so `get_AF2_score` always gives 2 | status code 404 | score 1 when no AlphaFold model exists | high, not executed | DrardtParams.AF2ScoreIgnoresStatus | DrardtParams.AF2ScoreReflectsPrediction |
