# AWB mail search — a Dafny model of its core

The application searches a mail cache for air waybill (AWB) numbers — shipment references such
as `235-12345678` — and looks each one up in an Excel sheet or a SQL Server table. This project
models the deterministic core of that application and proves properties of it:

- **AWB detection** (`AwbDetector`, `Registry`). It covers text cleaning, the per-carrier
  pattern registry and compiled-pattern list, line-by-line matching, code normalisation,
  validation against the carrier's prefix and length, confidence gating, context windows,
  deduplication, and the AI fall-back entries.
- **Fuzzy matching** (`FuzzyMatcher`): the best candidate above a threshold.
- **Mail cache** (`CacheManager`, `Utf8`, `Hex`). Bodies are stored as
  `compressed:` + hex(zlib(utf-8(body))), and the file is replaced through a temporary file.
  Loading restores the bodies. There is also the size threshold for cleaning up.
- **Mail model** (`MailModel`): `to_dict`/`from_dict`, with the ISO date format.
- **Batch search** (`SearchController`). It covers:
  - the worker's batching and progress events;
  - partitioning the cache into batches;
  - the per-batch filter, deduplication and confidence sort.
- **Pattern learning** (`PatternLearner`). It covers:
  - collecting known matches;
  - turning the words around a match into a context pattern;
  - counting those patterns;
  - saving, which cuts each carrier back to two patterns.
- **Pattern edit dialog** (`PatternEditDialog`): loading a pattern into the form, reading it back,
  testing a sample, and generating a regular expression.
- **SQL Server lookup** (`MssqlHelper`, `Columns`). It covers:
  - the settings check and the connection string;
  - the search query, built around the configured base query;
  - the connection pool;
  - projecting the first row onto the visible columns' display names.
- **Excel lookup** (`ExcelHelper`, `Columns`). It covers choosing the search column, finding the
  first matching record, the projection, and listing all records.
- **Error counter** (`ErrorHandler`): counts per error type, and the rule for critical errors.

Some calls the program makes to outside code become parameters:
- regular-expression matching (`finditer` results);
- `fuzz.ratio`;
- `zlib`;
- the clock;
- file and database reads;
- the AI reply;
- whether a connection answers.

Objects whose fields the program updates are classes: the detector, the cache manager, the
search worker, the pattern learner, the SQL and Excel helpers, and the error handler. Each
state-changing method is proved against a specification function of the old state.
`Wrappers`, `PyStr`, `PyValue` and `Arith` hold the shared Python semantics: `Option`/`Result`,
`str` methods, scalar values, and a few division facts.

## Model

| member | source | states |
|---|---|---|
| AwbDetector.CleanText | utils/awb_detector.py:51-59 | a non-string gives `""`; otherwise the result has no leading or trailing whitespace, no run of two whitespace characters, and no en or em dash |
| AwbDetector.CleanTextOneLine | utils/awb_detector.py:56-57 | the cleaned text contains no newline, so splitting it into lines gives exactly one line (see also lines 188-191) |
| AwbDetector.NormalizeGenericShape | utils/awb_detector.py:237-253 | for a carrier other than DHL and OZEL whose separator-free match has at least 11 characters, the code is the first 3 characters, `-`, then the next 8 |
| AwbDetector.NormalizeSeparators | utils/awb_detector.py:237-253 | apart from DHL's capture group, the code has no space or hyphen except the inserted one at index 3; DHL, OZEL and short matches give the separator-free text itself |
| AwbDetector.ValidateAwbIff | utils/awb_detector.py:255-278 | validation succeeds exactly when the code is non-empty, the carrier is known, the cleaned code has the carrier's length, and it starts with the prefix (or one of the prefixes) when there is one; it raises `KeyError` exactly when a known carrier with a non-empty entry lacks `prefix` or `length` |
| AwbDetector.ConfidenceScore | utils/awb_detector.py:305-331 | the score is always 1.0: the base score already reaches the cap, and every bonus is non-negative |
| AwbDetector.CalculateConfidence | utils/awb_detector.py:305-331 | the loop over the indicators computes `ConfidenceScore` |
| AwbDetector.EnhancedContext | utils/awb_detector.py:280-303 | `before`/`after` are the text up to 50 characters either side of the position, their concatenation is the window, and the line, line number and position are kept |
| AwbDetector.DetectMatchChoice | utils/awb_detector.py:196-229 | a record made for a match passed validation, meets its carrier's `min_confidence`, keeps the match text, and carries the fuzzy ratio exactly when the fuzzy matcher chose the match text (1.0 otherwise) |
| AwbDetector.SearchSound | utils/awb_detector.py:182-235 | every record `_search_text` returns is valid, meets its carrier's `min_confidence`, carries the searched location, and has line number 1 |
| AwbDetector.LinesSound | utils/awb_detector.py:190-231 | records from lines 1..n carry line numbers in 1..n and are sound |
| AwbDetector.Detector.SearchText | utils/awb_detector.py:182-235 | the nested loops over lines, carriers, patterns and matches compute `SearchSpec` |
| AwbDetector.Detector.SearchLines | utils/awb_detector.py:190-231 | the loop over lines appends each line's records in order |
| AwbDetector.Detector.ProcessMatch | utils/awb_detector.py:196-229 | one match gives the record of `DetectMatch` |
| AwbDetector.RemoveDuplicates | utils/awb_detector.py:339-349 | the loop with its `seen` set computes `Dedupe` |
| AwbDetector.DedupeDistinct | utils/awb_detector.py:339-349 | the kept records have distinct codes, cover every code of the input, and are input records |
| AwbDetector.DedupeKeepsFirst | utils/awb_detector.py:339-349 | the first record with each code is kept |
| AwbDetector.DedupeKeepsOnlyFirst | utils/awb_detector.py:339-349 | every kept record is the first of its code |
| AwbDetector.DedupeIdempotent | utils/awb_detector.py:339-349 | deduplicating twice equals deduplicating once |
| AwbDetector.DedupeOfDistinct | utils/awb_detector.py:339-349 | a list with distinct codes is unchanged |
| AwbDetector.DedupeConcatPrefix | utils/awb_detector.py:339-349 | the deduplicated subject records are a prefix of the deduplicated subject-plus-body records |
| AwbDetector.CompiledMembers | utils/awb_detector.py:41-49 | the compiled list holds exactly the enabled carriers, with their pattern lists |
| AwbDetector.CompiledOrder | utils/awb_detector.py:43-49 | compiling a leading part of the registry gives a leading part of the compiled list, so carriers keep registry (dictionary) order |
| AwbDetector.UnreadableFileNoMatches | utils/awb_detector.py:28-39 | a pattern file that cannot be read compiles to no carriers, and regex search over any text then finds nothing |
| AwbDetector.Detector.CompilePatterns | utils/awb_detector.py:41-49 | the loop builds the compiled list from the loaded registry |
| AwbDetector.AiEntries | utils/awb_detector.py:95-112 | one entry per AI-reported code, with the code as match text, line 0, no context, and the reply's confidence |
| AwbDetector.FindAllShape | utils/awb_detector.py:61-123 | a non-dict non-string mail gives `[]`; otherwise the subject and body records, deduplicated, with the subject's first; the AI entries, not deduplicated, only when both are empty; the codes are distinct whenever the regex search found something or there is no AI reply |
| AwbDetector.FindAllWrapsText | utils/awb_detector.py:63-66 | a plain string is searched as a body with an empty subject |
| AwbDetector.Detector.FindAllAwbs | utils/awb_detector.py:61-123 | the method computes `FindAllSpec` |
| Registry.LoadPatterns | utils/awb_detector.py:28-39 | a file that cannot be read gives an empty `patterns` section; otherwise the parsed file |
| Registry.Lookup | utils/awb_detector.py:260 | a carrier's entry is found exactly when the registry has that code, and it is that code's entry |
| Registry.LookupUnique | utils/awb_detector.py:32 | on a registry with distinct keys, as every parsed JSON object has, the entry found is the one entry of that code |
| FuzzyMatcher.FindBestMatch | utils/fuzzy_matcher.py:6-20 | the loop computes `BestMatch` |
| FuzzyMatcher.BestMatchChosen | utils/fuzzy_matcher.py:6-20 | no match gives ratio 0; a match is a candidate whose ratio is returned and reaches the threshold |
| FuzzyMatcher.BestMatchMaximal | utils/fuzzy_matcher.py:11-18 | no qualifying candidate has a higher ratio than the one returned |
| FuzzyMatcher.BestMatchNone | utils/fuzzy_matcher.py:11-20 | there is no match exactly when no candidate qualifies, and then the ratio is 0 |
| FuzzyMatcher.BestMatchEarliest | utils/fuzzy_matcher.py:16 | among candidates with the best ratio, the first one wins, since the comparison is strict |
| FuzzyMatcher.BestRatioInRange | utils/fuzzy_matcher.py:13 | the returned ratio lies in [0, 1] |
| Utf8.DecodeEncode | utils/cache_manager.py:31 | decoding the UTF-8 encoding of a string gives the string back (see also line 53) |
| Hex.FromHexToHex | utils/cache_manager.py:30 | `bytes.fromhex` undoes `bytes.hex` (see also line 54) |
| CacheManager.Truncate | utils/cache_manager.py:46-48 | the first `max_mails` mails are kept, and only when there are more |
| CacheManager.CompressMail | utils/cache_manager.py:51-54 | only a string body changes, to the tagged hex of its compressed UTF-8 bytes |
| CacheManager.DecodeCompressAll | utils/cache_manager.py:28-31 | with a lossless zlib, loading undoes the compression of every mail (see also lines 51-54) |
| CacheManager.DecodeMailsFailure | utils/cache_manager.py:28-37 | one undecodable body makes the whole load fail |
| CacheManager.LoadSpec | utils/cache_manager.py:20-37 | a missing or unreadable file gives the empty cache; without a `mails` list the document is returned as read |
| CacheManager.SaveThenLoad | utils/cache_manager.py:20-71 | loading what was saved gives the truncated mails and the ISO time stamp |
| CacheManager.CacheManager.LoadCache | utils/cache_manager.py:20-37 | the loop over the mails computes `LoadSpec` of the cache file |
| CacheManager.CacheManager.SaveCache | utils/cache_manager.py:39-71 | without `mails` it raises and nothing changes. Otherwise the data is truncated, compressed and stamped. The cache file is replaced only when writing and moving succeed, and the temporary file never survives |
| CacheManager.CacheManager.CheckCacheSize | utils/cache_manager.py:73-89 | cleanup happens exactly when the summed size in MB exceeds 100 × 0.9 |
| CacheManager.CleanupThreshold | utils/cache_manager.py:82-85 | that threshold is 94371840 bytes |
| MailModel.ToDict | models/mail_model.py:12-20 | the six keys, with the date in ISO format and the other fields as they are |
| MailModel.FromDict | models/mail_model.py:22-31 | a missing key raises; a result takes every field from its key and parses the date |
| MailModel.IsoFormatRoundTrip | models/mail_model.py:14 | `fromisoformat(isoformat(d)) == d` for every valid date-time (see also line 25) |
| MailModel.FromDictToDict | models/mail_model.py:12-31 | `from_dict(to_dict(m)) == m` |
| SearchController.ChunksFlatten | controllers/search_controller.py:29-30 | the batches, concatenated, are the mail list (see also lines 73-74) |
| SearchController.ChunksSizes | controllers/search_controller.py:29-30 | every batch is non-empty and at most the batch size; all but the last are full (see also lines 73-74) |
| SearchController.ChunksCount | controllers/search_controller.py:29-30 | there are ⌈n/size⌉ batches |
| SearchController.Partition | controllers/search_controller.py:70-74 | batch size 0 raises, a negative one gives no batches, and a positive one gives batches that concatenate to the mails |
| SearchController.TotalBatches | controllers/search_controller.py:27-29 | the corrected batch count, ⌈n/10⌉ |
| SearchController.TotalBatchesIsChunkCount | controllers/search_controller.py:29-32 | the corrected count equals the number of batches `run` submits |
| SearchController.ProgressAsWrittenTwenty | controllers/search_controller.py:27 | with 20 mails the last progress event is 66, not 100 (see also line 37) |
| SearchController.ProgressAsWrittenNeverFull | controllers/search_controller.py:27 | whenever the mail count is a positive multiple of 10, progress never reaches 100 (see also line 37) |
| SearchController.ProgressMonotone | controllers/search_controller.py:34-37 | with the corrected total, progress never decreases and ends at 100 |
| SearchController.SearchWorker.Submit | controllers/search_controller.py:29-32 | the submitted batches are the chunks of 10 |
| SearchController.FirstRaised | controllers/search_controller.py:35-39 | the number of completed batches before the first whose search raised: all earlier ones returned, and that one raised |
| SearchController.SearchWorker.Run | controllers/search_controller.py:23-41 | with the batch count corrected to the ⌈n/10⌉ batches submitted (first finding), and as many batches completing as were submitted: for completion in any order, the events are those of the batches whose search returned (`Emitted`), then either the first raising batch's progress, with its exception and no result or `finished`, or `finished` when none raised; then the last progress is 100 |
| SearchController.EmittedAll | controllers/search_controller.py:35-39 | in the events of returned batches, batch k (in completion order) owns positions 2k and 2k+1: its progress value ⌊100(k+1)/total⌋, then its result |
| SearchController.CompletedCount | controllers/search_controller.py:27-35 | as many batches complete as were submitted, ⌈n/10⌉ |
| SearchController.EmittedEndsFull | controllers/search_controller.py:37 | when every batch returned, the last progress value is 100 |
| SearchController.AsWrittenRaises | controllers/search_controller.py:103-108 | as written, the first detection that passes the confidence gate raises `AttributeError` |
| SearchController.AsWrittenNeverReports | controllers/search_controller.py:88-123 | as written, a batch that does not raise reports nothing |
| SearchController.AsWrittenSample | controllers/search_controller.py:94-108 | a one-mail batch with a valid code raises |
| SearchController.SearchBatchCorrect | controllers/search_controller.py:88-123 | the corrected batch holds only gated, valid and normalised records with distinct codes, sorted by descending confidence, and equal confidences keep their order |
| SearchController.SearchBatchComplete | controllers/search_controller.py:97-121 | the normalised code of every detection that passes the gate and the validator is among the corrected batch's records, and the record kept for a code is the one built from its first such detection (earliest mail, then earliest detection) |
| SearchController.SearchBatch | controllers/search_controller.py:88-123 | the nested loops compute the corrected batch specification |
| SearchController.ScanMail | controllers/search_controller.py:97-121 | the loop over one mail's detections computes `ScanSpec` |
| SearchController.SortDescSorted | controllers/search_controller.py:123 | the sort gives descending confidences and a permutation |
| SearchController.SortDescStable | controllers/search_controller.py:123 | records of equal confidence keep their relative order |
| SearchController.SortDistinct | controllers/search_controller.py:110-123 | sorting keeps the codes distinct and the same |
| SearchController.SearchAll | controllers/search_controller.py:67-86 | a missing `mails` key or batch size 0 raises. Otherwise the results are the batch results concatenated in completion order, a permutation of those in submission order |
| SearchController.Gather | controllers/search_controller.py:81-83 | the loop over completed futures succeeds exactly when every batch succeeded, and then gives their lists concatenated in completion order |
| SearchController.FlattenPermutation | controllers/search_controller.py:82-83 | the completion order changes the order of the results but not their multiset |
| PatternLearner.Words | utils/pattern_learner.py:65 | every word is a non-empty run of word characters (see also line 69) |
| PatternLearner.WordsOfWord | utils/pattern_learner.py:65 | a non-empty run of word characters alone is exactly one word |
| PatternLearner.WordsSplit | utils/pattern_learner.py:65 | no word spans a non-word character: the words around one are the words before it then the words after it, so the words are the maximal runs |
| PatternLearner.WordsCover | utils/pattern_learner.py:65 | the words, concatenated, are the text without its non-word characters (see also line 69) |
| PatternLearner.FilterHtmlCss | utils/pattern_learner.py:80-83 | a word is kept exactly when its lower-case form is not an HTML/CSS term |
| PatternLearner.SubjectKept | utils/pattern_learner.py:80-83 | `Subject` survives the filter because the list holds it capitalised |
| PatternLearner.CreatePatternAwb | utils/pattern_learner.py:88-92 | an AWB-shaped match ignores the context words; the pattern is its 3-digit prefix followed by the fixed tail of optional separators and two groups of four digits |
| PatternLearner.CreatePatternGeneral | utils/pattern_learner.py:94-102 | any other match gives the alternation of the kept words before it (when any), then a digit run of its digit count, then `\s*` and the alternation of the kept words after it (when any), so the pattern ends with the digit run when no word after it is kept |
| PatternLearner.ContextPatternLocal | utils/pattern_learner.py:62-74 | only the last three words before and the first three words after the match matter |
| PatternLearner.Bump | utils/pattern_learner.py:74 | the pattern's count goes up by one and no other count changes |
| PatternLearner.TallyCounts | utils/pattern_learner.py:48-53 | after analysing a series of patterns, each count grows by the pattern's occurrences (see also line 74) |
| PatternLearner.FirstWithoutUnique | utils/pattern_learner.py:117-119 | the first carrier without `patterns` is uniquely determined |
| PatternLearner.SaveSpecEffect | utils/pattern_learner.py:104-126 | carriers keep their codes and order. Those before the first one without patterns keep their first two patterns (both when they had two or more), and the rest are untouched. The file on disk changes only through a successful write, to the new in-memory file, and it is written whenever every carrier has patterns and the write succeeds; a failed write leaves it as it was |
| PatternLearner.SaveIdempotent | utils/pattern_learner.py:117-119 | saving twice leaves the in-memory file as saving once, whatever the write outcomes |
| PatternLearner.KnownOf | utils/pattern_learner.py:33-43 | the collected entry holds up to 50 characters before and after the match |
| PatternLearner.KnownSpecSound | utils/pattern_learner.py:27-45 | every collected entry belongs to a carrier and pattern of the registry and carries its 50-character windows |
| PatternLearner.CollectKnown | utils/pattern_learner.py:27-45 | the loops over carriers, patterns and matches compute `KnownSpec` |
| PatternLearner.PatternLearner.AnalyzeContext | utils/pattern_learner.py:62-74 | the context pattern of the match is counted once more |
| PatternLearner.PatternLearner.SaveLearnedPatterns | utils/pattern_learner.py:104-126 | given whether the write succeeds, the in-memory and stored files become `SaveSpec` of the old ones; counts are unchanged |
| PatternLearner.PatternLearner.LearnFromText | utils/pattern_learner.py:21-60 | without `patterns` nothing changes. Otherwise every collected match is counted, and the learner saves, with the given write outcome, exactly when its counter is non-empty |
| PatternLearner.LearningSaves | utils/pattern_learner.py:48-57 | a text with at least one match always leads to a save |
| PatternEditDialog.LoadPatternData | views/pattern_edit_dialog.py:75-95 | the form takes each value or its default, clamped into the widget's range, and the carrier becomes read-only |
| PatternEditDialog.OpenForm | views/pattern_edit_dialog.py:24-45 | every form value is in range, and the carrier is editable exactly for an empty pattern (see also lines 75-78) |
| PatternEditDialog.GetPattern | views/pattern_edit_dialog.py:116-133 | the form values, the stripped non-empty example lines, `enabled` true and the existing `patterns` |
| PatternEditDialog.SplitJoin | views/pattern_edit_dialog.py:91 | splitting the joined clean examples gives them back (see also line 123) |
| PatternEditDialog.OpenThenGet | views/pattern_edit_dialog.py:75-133 | opening an in-range pattern with clean examples and reading it back gives the same values |
| PatternEditDialog.TestPattern | views/pattern_edit_dialog.py:97-114 | valid exactly when the sample without spaces and hyphens has the length and starts with the prefix when there is one |
| PatternEditDialog.TestAgreesWithValidation | views/pattern_edit_dialog.py:103-109 | on samples without `/`, the dialog's test agrees with the detector's validation for the same prefix and length |
| PatternEditDialog.GeneratePrefixed | views/pattern_edit_dialog.py:137-143 | with a prefix, the pattern is the prefix, the separator class exactly when separators are allowed, then `\d{length - len(prefix)}` |
| PatternEditDialog.GenerateUnprefixed | views/pattern_edit_dialog.py:144-146 | without a prefix, the pattern is a digit run of the full length between non-digits, whatever the separator flag |
| Columns.VisibleColumns | utils/mssql_helper.py:192-196 | a column is listed exactly when `visible` is absent or true, with its display name |
| Columns.PutGet | utils/mssql_helper.py:198-201 | a dictionary store sets one key and leaves the others |
| Columns.ProjectGet | utils/mssql_helper.py:198-201 | the projection has one entry per display name, holding the cell of the last visible column with that name (or `''`) |
| Columns.ProjectDistinctNames | utils/mssql_helper.py:192-201 | with distinct display names, the projection lists every visible column in order |
| MssqlHelper.MissingAmong | utils/mssql_helper.py:13-14 | a field is reported exactly when its setting is missing or empty |
| MssqlHelper.MissingOrder | utils/mssql_helper.py:13-14 | missing fields come in the order server, database, username, password |
| MssqlHelper.Configure | utils/mssql_helper.py:6-19 | a non-dict raises the dictionary error. Incomplete settings raise the missing-fields error with the names joined by `, `. Otherwise the `mssql` section is used |
| MssqlHelper.ConnectionStringText | utils/mssql_helper.py:22-28 | the connection string written out |
| MssqlHelper.ConnectionStringParts | utils/mssql_helper.py:22-28 | when no setting holds `;`, splitting the string at `;` gives back its five `KEY=value` parts |
| MssqlHelper.SplitOrderSpec | utils/mssql_helper.py:139-143 | the base query is the text before the first `ORDER BY`, and the order clause is ` ORDER BY ` and the text up to any second one |
| MssqlHelper.MappedSearchable | utils/mssql_helper.py:148-153 | a column is searched exactly when `searchable` is absent or true |
| MssqlHelper.SearchableColumns | utils/mssql_helper.py:148-158 | the mapped searchable columns, else `search_column` when it is set |
| MssqlHelper.BuildQueryShape | utils/mssql_helper.py:133-181 | there is a query exactly when there is a base query and a column. It starts with the base query (top-1 removed, `;`s stripped), then ` AND (` when the base has `WHERE` and ` WHERE ` otherwise. It ends with the order clause and has one `%awb%` parameter per column |
| MssqlHelper.PlaceholdersMatch | utils/mssql_helper.py:167-182 | when the base query and column names hold no `?`, the query has exactly one `?` per parameter |
| MssqlHelper.TakeAlive | utils/mssql_helper.py:82-94 | the last live pooled connection is handed out; the dead ones after it are closed, latest first |
| MssqlHelper.ReturnSpec | utils/mssql_helper.py:110-122 | a returned connection is pooled while the pool has fewer than 10, and closed otherwise |
| MssqlHelper.PoolBounded | utils/mssql_helper.py:97 | neither operation grows the pool beyond 10 (see also line 114) |
| MssqlHelper.TakeThenReturn | utils/mssql_helper.py:82-88 | taking a live connection and returning it restores the pool (see also lines 110-115) |
| MssqlHelper.AllDead | utils/mssql_helper.py:82-104 | with every pooled connection dead, all are closed and the new connection is handed out; the pool-full error is unreachable |
| MssqlHelper.MssqlHelper.GetConnection | utils/mssql_helper.py:78-108 | the popping loop computes `GetSpec` |
| MssqlHelper.MssqlHelper.ReturnConnection | utils/mssql_helper.py:110-122 | the pool and closed list become `ReturnSpec` |
| MssqlHelper.MssqlHelper.FindAwb | utils/mssql_helper.py:124-214 | the result is the first row projected (or `{}`), and the connection goes back to the pool |
| MssqlHelper.Create | utils/mssql_helper.py:6-53 | a configuration error is raised as is. A failed connection raises the connection error. A complete configuration and a successful connection always give a helper; it holds the `mssql` section, the `datasource` section (all keys absent when missing), the connection string built from the section, the first two connections the pool opened, and no closed connections |
| ExcelHelper.FirstSearchable | utils/excel_helper.py:67-71 | the first mapping whose `searchable` is true (absent counts as false) |
| ExcelHelper.SearchColumn | utils/excel_helper.py:67-75 | that column's name, or `search_column` when there is none or its name is empty |
| ExcelHelper.FirstMatch | utils/excel_helper.py:83-90 | the first record whose cell is text whose upper-case form contains the needle |
| ExcelHelper.FindNothing | utils/excel_helper.py:57-64 | without configuration, with an empty sheet, without a usable search column, or with no matching row, the result is `{}` (see also lines 78, 108-119) |
| ExcelHelper.FindFirst | utils/excel_helper.py:78-107 | when record `i` is the first match, the result is that record under the display names, one entry per name |
| ExcelHelper.FindIgnoresCase | utils/excel_helper.py:79 | the search text's case does not matter |
| ExcelHelper.MatchIgnoresCase | utils/excel_helper.py:83-86 | the stored cell's case does not matter |
| ExcelHelper.ExcelHelper.FindAwb | utils/excel_helper.py:52-119 | the column loop with `break` and the search compute `FindSpec` |
| ExcelHelper.ProjectAll | utils/excel_helper.py:232-251 | one projected entry per record, in record order |
| ExcelHelper.ExcelHelper.LoadData | utils/excel_helper.py:28-38 | corrected to read `file_path`: the frame read, or an empty one; kept only when read |
| ExcelHelper.ExcelHelper.GetAllData | utils/excel_helper.py:224-257 | loads when nothing or an empty frame is loaded; then every record projected in order, or `[]` for an empty frame |
| ExcelHelper.AllDataAsWrittenEmpty | utils/excel_helper.py:28-38 | as written, a helper whose frame was never loaded returns no records at all (see also lines 224-253) |
| ExcelHelper.AllDataAsWrittenLosesRecords | utils/excel_helper.py:34 | a one-record workbook: the corrected load lists one record, the code as written none |
| ErrorHandler.CountsOne | utils/error_handler.py:17-22 | once past reading the error, its type's count goes up by exactly one from 0 and no other count changes |
| ErrorHandler.CountAllOccurrences | utils/error_handler.py:22 | over a series of errors, each type is counted as often as it occurred |
| ErrorHandler.HandleCountsAll | utils/error_handler.py:22 | handling one more error without a failure extends the series counted by `CountAll` by its type |
| ErrorHandler.HandledUnlessCritical | utils/error_handler.py:25-41 | when nothing fails, the result is true exactly when the type is not critical, with or without a logger |
| ErrorHandler.FailureNotHandled | utils/error_handler.py:43-45 | a failure inside the handler gives false |
| ErrorHandler.LogEntries | utils/error_handler.py:25-39 | with a logger, one error entry, plus a critical entry for a critical type; without one, nothing is logged |
| ErrorHandler.CriticalWithin | utils/error_handler.py:47-55 | a type name embedding a critical one is critical, whatever the message |
| ErrorHandler.PatternsCritical | utils/error_handler.py:49-54 | each of the four names is critical |
| ErrorHandler.ShortNotCritical | utils/error_handler.py:47-55 | a type name shorter than 11 characters is never critical |
| ErrorHandler.RecoverableExamples | utils/error_handler.py:47-55 | `ValueError`, `KeyError` and `OSError` are not critical, whatever the message |
| ErrorHandler.ErrorHandler.HandleError | utils/error_handler.py:14-45 | the result, the counts and the log become `HandleSpec` of the old state |
| ErrorHandler.ErrorHandler.SetLogger | utils/error_handler.py:10-12 | only the logger changes |

## Left out

- Regular expressions. `re.finditer`, `re.compile` and `re.search` results are parameters. The
  model does not cover regex semantics, IGNORECASE or invalid patterns (`re.error`). The
  matches are unconstrained, so the lemmas about collected matches hold for any matcher.
- `\d`, `\w`, `upper` and `lower` are modelled on ASCII characters only. `\s` and `str.isspace`
  use Python's full Unicode whitespace set.
- `fuzz.ratio` and `zlib` are parameters. The round-trip lemmas assume zlib is lossless.
- `AwbDetector.ConfidenceScore`: returns the capped value 1.0. The `except` fall-back to 0.6
  can only follow a failure inside `re`/`str`, which is not modelled.
- The AI analysis (`analyze_with_grok`) is left out. Only its parsed reply enters, as a parameter.
- File, JSON and database I/O are outcomes passed in. This covers the cache file, the pattern file
  (`stored` is the last successfully written version; `written` says whether opening and writing
  it succeeds) and the Excel workbook. A write that fails halfway and leaves a partial file is not
  modelled: a failed write leaves the file as it was. It also covers `pyodbc` query
  execution: a failed query and an empty result both give no row, which `find_awb` turns into `{}`.
- `check_cache_size` takes the file sizes as a list; `os.walk` and `cleanup_cache` are left out.
- Threads and timing. `ThreadPoolExecutor` completion order is any permutation of the batches,
  which the model states as a precondition. Signals are recorded as an event list. When a search
  raises, the executor still waits for the remaining batches before the exception leaves `run`;
  they emit nothing, and the model does not run them.
- `SearchController.Percent`: uses exact integer floor instead of IEEE arithmetic. For some values
  Python gives one less (57/100*100 is 56.99…).
- `MailModel.FromIsoFormat`: parses only the two forms `isoformat` writes, not every form
  `fromisoformat` accepts.
- `ExcelHelper.Matches`: treats the needle as a plain substring. pandas `str.contains` treats it as
  a regular expression by default. A column with no text cell at all makes pandas' `.str` raise,
  which `find_awb` also turns into `{}`; the model covers that case as "no row matches".
- The Excel sheet read in `__init__` is never `None`, so the `df is None` check is omitted.
- Dialog widgets. `QDoubleSpinBox` rounds to two decimals, and `QTextEdit` rich text is not
  modelled. The form is a value.
- Logging, printing and tracebacks are not modelled. The error log records the logger calls only.
  A `logger.critical` call that raises is not modelled; it would drop only the critical entry, as
  `handle_error` returns false for a critical type either way.
- The pattern file is modelled by its `patterns` key only. Any other top-level keys of the JSON
  object, which `save_learned_patterns` writes back unchanged, are not represented.
- `valid_patterns` in `save_learned_patterns` is computed and then discarded, so it changes
  nothing that is saved or returned and is not modelled.
- The rest of the application is not part of this model: the UI views, the Outlook and attachment
  handling, the configuration manager and the AI client.
- `save_data`, `export_awb_results`, `test_connection`, `connect` and `disconnect` of the Excel
  helper are left out. They are file I/O on the same undefined `data_source` attribute.
- The SQL helper's `get_all_data` is left out.

## Findings

| source | as written | input that shows it | evidently intended | confidence | as-written member | corrected member |
|---|---|---|---|---|---|---|
| controllers/search_controller.py:27 | `total_batches = len(mails) // 10 + 1` counts one batch too many when the count is a multiple of 10 | 20 mails: 2 batches, last progress `int(2/3*100) = 66` | `ceil(len/10)` batches, so progress ends at 100 | not executed | SearchController.ProgressAsWrittenNeverFull | SearchController.ProgressMonotone |
| controllers/search_controller.py:104-108 | `_search_batch` calls `self.awb_normalizer` and `self.awb_validator`, which `SearchController` never sets | one mail with a detection that passes the confidence gate raises `AttributeError` | normalise and validate each gated detection, then deduplicate and sort | not executed | SearchController.AsWrittenRaises | SearchController.SearchBatchCorrect |
| utils/excel_helper.py:34 | `load_data` reads `self.data_source`, which `ExcelHelper` never sets; the `AttributeError` is caught and an empty frame returned | any existing workbook: `get_all_data()` returns `[]` | read `self.file_path` and list every record | not executed | ExcelHelper.AllDataAsWrittenLosesRecords | ExcelHelper.ExcelHelper.GetAllData |
