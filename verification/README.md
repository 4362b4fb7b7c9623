# Arbitration case dashboard — ingestion, query matching and aggregates in Dafny

This project models the core of a dashboard over consumer-arbitration cases from two
forums, AAA and JAMS. It covers four parts.

- **Ingestion.** Spreadsheets whose column headers vary are read. Each logical field is
  resolved to a column through per-forum alias tables in three tiers. Every cell is
  cleaned and the rows are normalised. Duplicate cases are dropped in two passes. The
  combined frame is cleaned and enriched with outcome flags and durations. The result is
  upserted into a case store keyed by `case_id`, in batches of 500 rows when there are
  more than 1000.
- **The question box.** Five regular expressions pick the question. A handler resolves
  the name in the question to the first arbitrator (or respondent) whose name contains
  it, ignoring case. The handler then answers from the rows spelled exactly like that.
- **The aggregates.** These are per-column value counts, the settlement rate, the
  busiest arbitrators and respondents, and the statistics of one arbitrator.
- **The helpers.** These are the sidebar filter, day differences, top-N selection,
  title-casing and date formatting.

Each source file has its own modules:

| Source file | Dafny files |
|---|---|
| `data_processor.py` | `cleaners.dfy`, `column_mapping.dfy`, `normalizer.dfy`, `dedup.dfy`, `enrich.dfy`, `pipeline.dfy` |
| `query_engine.py` | `query_patterns.dfy` (the patterns and `re.search`), `query_engine.dfy` (the handlers and the dispatcher) |
| `data_analyzer.py` | `analyzer.dfy` |
| `utils.py` | `utils.dfy` |
| `database.py` | `database.dfy` |

Shared definitions live in four further files:

- `records.dfy`: cell values, the canonical case row, frames and the standard columns;
- `text.dfy`: Python's string methods on ASCII;
- `seqs.dfy`: filtering, subsequences and mapping;
- `wrappers.dfy`: `Option`.

Where the code works step by step, the model is imperative:

- the column-resolution loop;
- the duplicate-dropping scans;
- the masked flag writes on an array of rows;
- the batch-saving loop;
- the title-case loop;
- `save_data`'s update of the store, a class field.

Each method is proved equal to a specification function, and the properties are proved
about that function.

Where the code's behaviour differs from what its names, comments and docstrings suggest, the model follows the code:

- Partial column matching needs only one of the two names to be at least four characters
  long. It does not require a shared substring of four characters.
- An unrecognised disposition is lower-cased and then capitalised (`str.capitalize`). It
  is not title-cased.
- The outcome flags are exclusive only because dispositions are standardised first.
  `Enrich.ExclusiveWhen` states the general condition under which they are exclusive.
- The arbitrator required-field filter never removes a row, because the arbitrator has
  already been filled with "Unknown" (`Normalizer.ArbitratorFilterKeepsAll`).
- The respondent-specific question is never answered. Its pattern is shadowed by the
  rulings pattern, which is tried first (`QueryPatterns.ParseNeverSpecific`).
- `convert_to_title_case` keeps only "LLC", "AAA" and "JAMS" in capitals. The other
  abbreviations in its list ("Inc.", "Ltd.", "Corp.") are never equal to an upper-cased
  word (`Utils.KeptUppercase`).

## Model

| member | source | states |
|---|---|---|
| Cleaners.CleanString | data_processor.py:530-552 | null stays null; the result is stripped, its whitespace runs are single spaces, and it has the same non-space characters as the input |
| Cleaners.CleanStringIdempotent | data_processor.py:530-552 | cleaning a cleaned value changes nothing |
| Cleaners.KeepAmountChars | data_processor.py:575 | the result keeps only digits, `.` and `-` and is no longer than the input |
| Cleaners.KeptFromInput | data_processor.py:575 | every kept character occurs in the input |
| Cleaners.KeepAmountCharsConcat | data_processor.py:575 | character removal distributes over concatenation |
| Cleaners.KeepAmountCharsFixed | data_processor.py:575 | a string of kept characters is left unchanged |
| Cleaners.FirstIndexOf | data_processor.py:579 | the first position of a character, or none exactly when it does not occur |
| Cleaners.ParseNeedsDigit | data_processor.py:578-581 | `float()` succeeds only on text containing a digit, so unparseable text is absent rather than 0 |
| Cleaners.ParseNat | data_processor.py:579 | a decimal numeral reads back as its number |
| Cleaners.ParseNumeral | data_processor.py:579 | `whole.frac` reads as the whole part plus the fraction |
| Cleaners.ParseWithFraction | data_processor.py:579 | a written number followed by `.frac` reads back exactly |
| Cleaners.ParseNegative | data_processor.py:579 | a leading minus negates the value of the rest, and a failed parse stays failed |
| Cleaners.ExtractAmount | data_processor.py:554-581 | null is absent; a number is passed through; text is read only when it holds a digit |
| Cleaners.KeepAroundDropped | data_processor.py:575 | removing a non-amount character splits the kept text around it |
| Cleaners.ExtractThousands | data_processor.py:572-581 | `$T,ggg.cc` reads as T*1000 + ggg plus the cents |
| Cleaners.ExtractDollarsExample | data_processor.py:572-581 | "$12,345.67" reads as 12345.67 |
| Cleaners.ExtractNotAvailable | data_processor.py:578-581 | "N/A" reads as absent |
| Cleaners.ExtractNegativeExample | data_processor.py:572-581 | "-5" reads as -5 |
| Cleaners.ExtractDollarsAndCents | data_processor.py:572-581 | `$D.cc` for any whole number D reads back as D plus the cents |
| Cleaners.KeepDollarSign | data_processor.py:575 | a dollar sign is dropped and the kept characters after it remain |
| Cleaners.StandardizeDisposition | data_processor.py:583-613 | null stays null; otherwise the result is one of the six labels, or the input has no keyword and the result is its lower-cased form capitalised |
| Cleaners.MeritsRule | data_processor.py:599-602 | text mentioning a dismissal and then the merits is "Dismissed on the Merits" |
| Cleaners.LabelFixed | data_processor.py:596-610 | each of the six labels classifies as itself |
| Cleaners.StandardizeIdempotent | data_processor.py:583-613 | standardising a standardised disposition changes nothing |
| Cleaners.DismissedOnTheMerits | data_processor.py:599-604 | precedence: "Case Dismissed on the Merits" is not a plain dismissal |
| Cleaners.Basename | data_processor.py:84 | the part of the path after the last `/`, a suffix of the path |
| Cleaners.DetermineSource | data_processor.py:83-91 | "aaa" in the lower-cased file name gives AAA, otherwise "jams" gives JAMS; JAMS is chosen only when "jams" occurs in the name or in the previewed headers or cells |
| ColumnMapping.AliasesLong | data_processor.py:13-40 | every alias of every field of both forums has at least four characters |
| ColumnMapping.ExactTier | data_processor.py:405-408 | the first alias that is literally a column, and none exactly when no alias is |
| ColumnMapping.CaseInsensitiveTier | data_processor.py:410-415 | the column equal to the first case-insensitively present alias, and none exactly when there is no such alias |
| ColumnMapping.PartialTier | data_processor.py:417-422 | the column of the first alias-major pair that partially matches, and none exactly when no pair does |
| ColumnMapping.MapColumn | data_processor.py:390-424 | the result is always one of the columns |
| ColumnMapping.ExactFirst | data_processor.py:405-408 | the earliest alias present exactly wins over every other tier |
| ColumnMapping.CaseInsensitiveBeforePartial | data_processor.py:410-422 | without an exact alias, a case-insensitive match decides before any partial match |
| ColumnMapping.NoPartialNoLower | data_processor.py:410-422 | with long aliases, no partial match implies no case-insensitive or exact match |
| ColumnMapping.MapColumnNone | data_processor.py:390-424 | the field is unresolved exactly when no alias partially matches any column |
| ColumnMapping.IndexOf | data_processor.py:458 | the first column with the name, and none exactly when it is absent |
| ColumnMapping.ResolveColumn | data_processor.py:456-471 | the resolved position is a column |
| ColumnMapping.ResolveColumnSpec | data_processor.py:456-471 | the mapped column wins; otherwise the first column equal to the standard name ignoring case; otherwise nothing |
| Normalizer.FieldsCoverStandardColumns | data_processor.py:43-47 | the ten mapped pairs fill the standard columns in order, and Forum is the last column |
| Normalizer.Resolution | data_processor.py:444-456 | one resolved column per field, each a valid position |
| Normalizer.ResolveFields | data_processor.py:444-471 | the resolution loop computes exactly `Resolution` |
| Normalizer.TextOf | data_processor.py:509-512 | a null cell stays null and any other cell becomes text |
| Normalizer.CleanText | data_processor.py:505-512 | a null cell stays null; text comes out stripped with single spaces |
| Normalizer.DateOf | data_processor.py:515-517 | a null cell is absent and a date cell is kept |
| Normalizer.AmountOf | data_processor.py:519-522 | a null cell is absent and a number is kept |
| Normalizer.Built | data_processor.py:437-475 | one built row per spreadsheet row |
| Normalizer.BuildRows | data_processor.py:437-481 | the row-building loop gives, row by row, the normalised rows |
| Normalizer.ProcessDataframe | data_processor.py:426-490 | nothing exactly when the disposition column is not text (`value.lower()` raises on a non-object column); otherwise the rows resolved, built and filtered on Case_ID and then on the arbitrator |
| Normalizer.BlankDispositionRaises | data_processor.py:507-527 | a mapped disposition column with rows, all of them blank, makes the file raise |
| Normalizer.TextDispositionCleaned | data_processor.py:507-527 | a disposition column holding some text is an `object` column and never raises |
| Normalizer.NormalizeRowFacts | data_processor.py:474-481 | every built row carries the forum, has an arbitrator and has cleaned text fields |
| Normalizer.NormalizedRows | data_processor.py:479-488 | every output row has the forum, a Case_ID, an arbitrator and cleaned text |
| Normalizer.ArbitratorFilterKeepsAll | data_processor.py:479-488 | the arbitrator filter removes nothing; only the Case_ID filter counts |
| Normalizer.NormalizeKeepsOrder | data_processor.py:483-488 | the output is a subsequence of the built rows, and every row with a Case_ID cell survives |
| Normalizer.NoCaseIdColumn | data_processor.py:456-488 | a file with no Case_ID column yields no rows |
| Dedup.TripleKey | data_processor.py:646-652 | the second pass key exists exactly when arbitrator, respondent and filing date are all present |
| Dedup.BestIn | data_processor.py:636-639 | a member of the group, and none exactly when the group is empty |
| Dedup.BestInIsFirstMax | data_processor.py:636-639 | `idxmax`: the choice is at least as complete as its group and strictly more than the rows before it |
| Dedup.KeepMask | data_processor.py:625-663 | row by row, whether the row survives the pass |
| Dedup.MostComplete | data_processor.py:633-639 | the scan finds `BestIn` |
| Dedup.DropGroup | data_processor.py:640-643 | exactly the group's rows other than the best are unmarked |
| Dedup.DropDuplicates | data_processor.py:626-661 | the group loop computes one deduplication pass |
| Dedup.HandleDuplicatesRun | data_processor.py:615-663 | nothing exactly when two null Case_IDs stand beside a present one (the pass raises); otherwise the Case_ID pass, then the triple pass |
| Dedup.SurvivesIff | data_processor.py:633-643 | a row survives exactly when its key is null or it is its group's first most complete row |
| Dedup.DedupPassMembers | data_processor.py:626-661 | the pass keeps exactly the null-keyed rows and each group's first most complete row |
| Dedup.DedupPassKeepsGroup | data_processor.py:626-661 | every group keeps a row |
| Dedup.DedupPassDistinct | data_processor.py:626-661 | after a pass, no two rows share a non-null key |
| Dedup.DedupPassSubseq | data_processor.py:626-661 | a pass only deletes rows and never reorders them |
| Dedup.HandleDuplicatesSubseq | data_processor.py:615-663 | duplicate handling only deletes rows and never reorders them |
| Dedup.HandleDuplicatesDistinctIds | data_processor.py:615-663 | after both passes, no two rows share a Case_ID |
| Enrich.FinalCleaning | data_processor.py:665-697 | no more rows than before; each is a filled input row with a non-blank arbitrator |
| Enrich.FinalCleaningKeeps | data_processor.py:689-694 | a row whose filled arbitrator is not blank is kept |
| Enrich.MissingArbitratorKept | data_processor.py:679-694 | a missing arbitrator becomes "Unknown" and the row is kept |
| Enrich.FinalCleaningIdempotent | data_processor.py:665-697 | cleaning a cleaned frame changes nothing |
| Enrich.Prevailed | data_processor.py:299-318 | each flag is set by its mask or was already set, and is cleared by a settlement; nothing else changes |
| Enrich.CalculatePrevailedFlags | data_processor.py:279-320 | every row of the array becomes `Prevailed` of its old value |
| Enrich.SetConsumer | data_processor.py:301-305 | the consumer flag is set exactly on masked rows; nothing else changes |
| Enrich.SetBusiness | data_processor.py:308-314 | the business flag is set exactly on masked rows; nothing else changes |
| Enrich.ClearSettled | data_processor.py:317-318 | both flags are cleared exactly on settlements; nothing else changes |
| Enrich.ExclusiveWhen | data_processor.py:299-318 | without "award", or with it but without "dismiss" or "withdrawn", the two flags are never both set |
| Enrich.LabelAwardWords | data_processor.py:596-610 | only the "Awarded" label mentions an award, and it mentions neither a dismissal nor a withdrawal |
| Enrich.FlagsExclusive | data_processor.py:299-318 | for a standardised disposition, the consumer and business flags are never both set |
| Enrich.WithDuration | data_processor.py:340-348 | with both dates, closed minus filed; otherwise the old value; nothing else changes |
| Enrich.CalculateCaseDuration | data_processor.py:322-350 | every row of the array becomes `WithDuration` of its old value |
| Enrich.DurationMayBeNegative | data_processor.py:345-348 | the duration is not clamped: closed before filed gives a negative count |
| Pipeline.Enriched | data_processor.py:202-208 | one row per input row, each with flags and then duration computed |
| Pipeline.DurationIsDateDiff | utils.py:106-116 | the duration written for each row is the day difference of its dates when both exist, and the old value otherwise |
| Pipeline.ReadFile | data_processor.py:83-187 | nothing exactly when the file is unreadable or its processing raises; otherwise its normalised rows with the forum its name or content decides |
| Pipeline.CollectFrames | data_processor.py:77-187 | one frame per ingested file, in file order; files that cannot be read or that raise are skipped |
| Pipeline.ProcessFiles | data_processor.py:189-208 | the result is the concatenated frames, deduplicated, cleaned and enriched; with no frame it is empty |
| Pipeline.EnrichRows | data_processor.py:202-208 | the in-place flag and duration writes give `Enriched` |
| Pipeline.NormalizedUnflagged | data_processor.py:426-490 | every normalised row has a Case_ID and neither flag |
| Pipeline.CombinedUnflagged | data_processor.py:190-192 | every combined row has a Case_ID and neither flag |
| Pipeline.CombinedNeverRaises | data_processor.py:190-196 | the combined frame never makes the duplicate pass raise, since every row has a Case_ID |
| Pipeline.DedupedRows | data_processor.py:194-196 | after deduplication, rows are flag-free and keyed, and Case_IDs are distinct |
| Pipeline.CleanedRows | data_processor.py:194-200 | after final cleaning, rows are filled, flag-free and standardised, and Case_IDs are distinct |
| Pipeline.ProcessFilesOutcome | data_processor.py:189-208 | the output has one row per Case_ID, with filled text columns, a non-blank arbitrator and never both flags set |
| Pipeline.BatchStep | data_processor.py:225-235 | one batch adds its upsert and counters when it succeeds, and nothing when it fails |
| Pipeline.SaveBatchesAll | data_processor.py:217-242 | when no batch fails, saving in batches equals one save of all rows, counters included |
| Pipeline.SaveInBatches | data_processor.py:217-242 | the batch loop leaves the store and counters that `SaveBatches` gives |
| Pipeline.SaveToDb | data_processor.py:211-253 | chunked exactly above 1000 rows; otherwise one `save_data` with its outcome, whose total is the mapped row count |
| Database.AppColumn | database.py:160-168 | the exact column if present; otherwise the first case-insensitive one; none exactly when neither exists |
| Database.Copied | database.py:159-171 | the mapped frame has the store names, in mapping order; its height is the frame's when some column is copied and 0 when every column is a fresh null column |
| Database.ToDb | database.py:126-173 | all sixteen store columns, in mapping order; the frame's height when some application column is found, otherwise 0 |
| Database.FindLower | database.py:165-168 | the inner loop finds the first case-insensitively equal column |
| Database.FindColumn | database.py:160-168 | the exact column if present, else the first case-insensitive one, as `AppColumn` |
| Database.CopyStep | database.py:160-171 | one step of the outer loop: the copied or null column is appended, and the first copy into an empty frame widens the earlier null columns to the frame's height |
| Database.CopyColumns | database.py:159-171 | the outer loop gives the mapped height and, per store name, its copied column or nulls of that height |
| Database.MapDataframeToDb | database.py:126-173 | the renaming method computes `ToDb` |
| Database.RenameColumns | database.py:239-242 | the renaming loop computes `Renamed` |
| Database.MapDbToDataframe | database.py:206-244 | the back-renaming method computes `FromDb` |
| Database.ToDbColumns | database.py:159-171 | each store column comes from the exact application column, else a case-insensitive one, else nulls |
| Database.DbNamesDistinct | database.py:140-157 | the sixteen store names are distinct |
| Database.RenamedAll | database.py:239-242 | renaming a frame whose columns are exactly the distinct store names keeps every column, in order |
| Database.RenameBack | database.py:126-244 | for any mapping with distinct store names, the back-renaming undoes the forward one |
| Database.RoundTrip | database.py:126-244 | mapping to the store and back gives the sixteen application names over the same columns |
| Database.RoundTripKeeps | database.py:126-244 | a mapped application column survives the round trip unchanged |
| Database.UnmappedNotStored | database.py:140-157 | columns outside the mapping, such as Respondent_Attorney, do not come back |
| Database.UpsertedConcat | database.py:92-111 | saving two batches in turn equals saving their concatenation, counters included |
| Database.UpsertedKeys | database.py:92-111 | the stored keys are the old keys plus the batch's keys |
| Database.UpsertedLastWins | database.py:101-106 | for each key, the last row of the batch is what the store holds |
| Database.UpsertedUntouched | database.py:92-111 | a key the batch does not name is unchanged, or stays absent |
| Database.InsertedCount | database.py:101-111 | the store grows by exactly the number of inserts |
| Database.InsertedNewKeys | database.py:101-111 | `inserted` is the number of distinct new keys |
| Database.UpsertedKeyed | database.py:101-111 | every row stays stored under its own case_id |
| Database.ToDbSlice | data_processor.py:226-231 | mapping a slice copies the same columns, and gives the same slice of the mapped rows (no rows when nothing is copied) |
| Database.ToDbKeepsRows | database.py:126-173 | a frame with a case-id column, in any case, keeps its row count when mapped |
| Database.NothingToCopy | database.py:126-173 | a frame with no column the store knows maps to no rows, and saving it changes nothing and inserts nothing |
| Database.Stage | database.py:87-111 | succeeds exactly when every row has a case_id; then the staged store is the upsert and inserts plus updates equal the row count |
| Database.CaseStore.SaveData | database.py:72-124 | fails exactly on a row without a case_id, leaving the store unchanged; otherwise the store is upserted, and inserts plus updates equal the mapped row count |
| QueryPatterns.RunEnd | query_engine.py:21 | the end of the longest run without `?` |
| QueryPatterns.TailGroup | query_engine.py:21 | a trailing `([^?]+)` takes the whole non-empty run up to the next `?` |
| QueryPatterns.Backtrack | query_engine.py:26 | the end the first group settles on lets the rest of the pattern match |
| QueryPatterns.BacktrackFinds | query_engine.py:26 | backtracking fails only when no end works |
| QueryPatterns.BacktrackGreedy | query_engine.py:26 | the group is greedy: no larger end works |
| QueryPatterns.MatchAt | query_engine.py:21-41 | a match yields the pattern's intent with non-empty `?`-free groups, and a party of "complainant" or "consumer" |
| QueryPatterns.TimesMatch | query_engine.py:26-41 | the two "how many times has" patterns capture valid groups |
| QueryPatterns.LeftmostFrom | query_engine.py:21-41 | `re.search`: no match exactly when no position matches; otherwise the match at the leftmost matching position |
| QueryPatterns.Parse | query_engine.py:18-46 | the first pattern that matches the lower-cased query decides; none gives "not understood" |
| QueryPatterns.SpecificMatchesRulings | query_engine.py:26-41 | wherever the specific pattern matches, the rulings pattern does too |
| QueryPatterns.ParseNeverSpecific | query_engine.py:26-43 | the specific-rulings question is never dispatched |
| QueryPatterns.GreedyCountCapture | query_engine.py:21-23 | the count group runs to the `?`, so trailing words are captured with the name |
| QueryEngine.Resolve | query_engine.py:63-67 | the spelling of a cell containing the key, and none exactly when no cell does |
| QueryEngine.ResolveFirst | query_engine.py:67 | the resolved spelling is the first matching cell |
| QueryEngine.FindArbitrator | query_engine.py:60-67 | stops on a missing column, a null cell or no match; otherwise resolves to the first matching spelling |
| QueryEngine.ResolvedRows | query_engine.py:65-99 | once resolved, rows containing the key and rows with the exact spelling both exist |
| QueryEngine.ArbitratorCaseCount | query_engine.py:48-74 | "not found" exactly when nothing matches; the count is the number of containing rows, between 1 and the row count |
| QueryEngine.ArbitratorRulings | query_engine.py:76-107 | the awarded count among the exact spelling's rows, out of their total of at least 1 |
| QueryEngine.Awards | query_engine.py:134-136 | one entry per row with a present award amount, that amount, in row order; empty exactly when none is present |
| QueryEngine.ArbitratorAverageAward | query_engine.py:109-142 | "no award data" when the column is absent or all of the arbitrator's awards are absent; otherwise the award amounts of the arbitrator's rows that have one, in row order, at least one of them |
| QueryEngine.CaseNamesOf | query_engine.py:166-170 | one name per row spelled exactly like the arbitrator, that row's case name, in row order; at least one |
| QueryEngine.ArbitratorCaseList | query_engine.py:144-181 | the "no case name column" answer exactly when resolved without the column; otherwise the case name of each of the arbitrator's rows, in row order |
| QueryEngine.SpecificRulings | query_engine.py:183-225 | the respondent is resolved only after the arbitrator; the total counts rows with both exact spellings, and the awarded count is the number of those rows whose disposition is an award |
| QueryEngine.Handle | query_engine.py:22-46 | each intent goes to its handler; only unrecognised queries are not understood |
| QueryEngine.Respond | query_engine.py:6-46 | "not understood" exactly when no pattern matches; respondent answers never occur |
| QueryEngine.Reply | query_engine.py:6-225 | no reply text exactly when the handler raises |
| QueryEngine.CountCaptureNotFound | query_engine.py:21-74 | a count question whose name has no exact row match is answered "not found" |
| Utils.NarrowStep | utils.py:34-47 | each active text criterion narrows the rows by equality on its column |
| Utils.DateStep | utils.py:49-55 | the date range narrows the rows only when it has two ends and Date_Filed exists |
| Utils.NarrowedKeeps | utils.py:34-47 | applying the first k criteria in turn equals filtering by all k at once |
| Utils.FilterFrame | utils.py:6-57 | fails exactly when an active criterion's column is missing; otherwise keeps exactly the rows meeting every criterion, in order |
| Utils.FieldIndex | utils.py:34-47 | each criterion has its position in the filter order |
| Utils.KeepsIff | utils.py:34-55 | a row is kept exactly when it is in the frame and meets every active criterion and the date range |
| Utils.FilterFrameSubseq | utils.py:6-57 | the filtered frame is a subsequence of the frame |
| Utils.NoFiltersIdentity | utils.py:6-57 | with no active criterion, the frame is returned whole |
| Utils.FilterFrameTwice | utils.py:6-57 | filtering twice is filtering once |
| Utils.DateDiff | utils.py:106-116 | absent exactly when either date is absent |
| Utils.InsertDesc | utils.py:129 | insertion adds one element |
| Utils.InsertDescPerm | utils.py:129 | insertion is a permutation of the list plus the element |
| Utils.InsertDescSorted | utils.py:129 | insertion keeps the list non-increasing |
| Utils.SortDesc | utils.py:129 | the sort is a non-increasing permutation of its input |
| Utils.SortDescStable | utils.py:129 | the sort is stable: items with equal counts keep their order |
| Utils.TakePrefix | utils.py:129 | Python's `[:n]` for any n, negative included |
| Utils.TopItems | utils.py:129 | `[:n]` of the sorted items: a non-increasing sub-multiset of Python's length |
| Utils.TopItemsAreTop | utils.py:129 | every item left out counts no more than every item kept |
| Utils.TitleWord | utils.py:152-156 | a word keeps its length and its lower-case form |
| Utils.ConvertToTitleCase | utils.py:141-158 | empty text is returned as is; otherwise words are split, converted and joined with single spaces |
| Utils.TitleWords | utils.py:151-156 | the loop converts each word in place |
| Utils.KeptUppercase | utils.py:145-154 | only "LLC", "AAA" and "JAMS" can be kept upper-cased |
| Utils.TitleWordIdempotent | utils.py:152-156 | converting a converted word changes nothing |
| Utils.SplitTitleCase | utils.py:148-158 | splitting the title-cased text gives the converted words |
| Utils.TitleCaseIdempotent | utils.py:141-158 | title-casing title-cased text changes nothing |
| Utils.Padded | utils.py:88 | a zero-padded numeral of the width, all digits |
| Utils.PaddedValue | utils.py:88 | the padded numeral reads back as the number |
| Utils.FormatDate | utils.py:74-90 | absent gives ""; other values give their text; a date gives 10 characters with dashes at 4 and 7 |
| Utils.FormatDateRoundTrip | utils.py:88 | a formatted date parses back to its year, month and day |
| Analyzer.ValueCounts | data_analyzer.py:99 | no null key, and every count is at least 1 |
| Analyzer.ValueCountsAt | data_analyzer.py:99 | a value is a key exactly when it is non-null and occurs, and its count is its number of occurrences |
| Analyzer.ValueCountsSum | data_analyzer.py:99 | the counts add up to the number of non-null cells |
| Analyzer.ColumnCountsSpec | data_analyzer.py:96-109 | a missing column gives `{}`; otherwise the keys, counts and total above |
| Analyzer.CountByColumn | data_analyzer.py:86-109 | the deletions leave the value counts with no null key |
| Analyzer.DispositionDistribution | data_analyzer.py:178-199 | the disposition column's counts, as `_count_by_column` gives |
| Analyzer.SettlementRate | data_analyzer.py:111-128 | between 0 and 100; 0 without the column or without rows |
| Analyzer.SettlementRateExtremes | data_analyzer.py:118-128 | 100 exactly when every row is settled, 0 exactly when none is |
| Analyzer.Distinct | data_analyzer.py:144-147 | the distinct values of the column |
| Analyzer.DistinctKeys | data_analyzer.py:144-147 | the distinct values are exactly the keys of the value counts |
| Analyzer.PairsCount | data_analyzer.py:144-147 | each pair's count is the value's number of occurrences, at least 1 |
| Analyzer.TopByCount | data_analyzer.py:140-152 | `[]` without the column; otherwise the top-n pairs, non-increasing, each with its true count |
| Analyzer.TopArbitrators | data_analyzer.py:130-152 | the top-n arbitrators with their case counts, non-increasing, at most n |
| Analyzer.TopRespondents | data_analyzer.py:154-176 | the top-n respondents with their case counts, non-increasing, at most n |
| Analyzer.ArbitratorStatistics | data_analyzer.py:201-241 | `{}` exactly when the column is missing or the name has no rows; otherwise the total, with each table present exactly when its column is |
| Analyzer.ArbitratorRespondents | data_analyzer.py:237-239 | respondent counts are over the arbitrator's own rows and add up to at most the total |
| Analyzer.CalculateMetrics | data_analyzer.py:17-64 | the row count, the five column counts and a settlement rate between 0 and 100 |
| Text.LowerMeaning | query_engine.py:18 | `str.lower` leaves no upper-case letter, maps each upper-case letter to its lower-case letter, keeps every other character, and is idempotent |
| Text.LowerCapitalize | data_processor.py:613 | capitalising does not change the lower-case form |
| Text.StripStripped | data_processor.py:547 | `strip` leaves no outer whitespace and changes nothing on stripped text |
| Text.CollapseNormal | data_processor.py:550 | after `re.sub(r'\s+', ' ')`, every whitespace character is a single space between non-spaces |
| Text.CollapseFixed | data_processor.py:550 | a normal string is left unchanged |
| Text.NonSpaceCollapse | data_processor.py:550 | collapsing keeps the non-space characters |
| Text.Split | utils.py:148 | `str.split()` gives non-empty words without whitespace |
| Text.SplitOfJoin | utils.py:148-158 | splitting words joined by single spaces gives the words back |
| Text.SearchDecides | data_processor.py:599 | the substring scan decides `in` |
| Text.DigitsOfNat | query_engine.py:72 | a written count reads back as the count |

## Left out

- Reading files is not modelled: Excel and `openpyxl` I/O, file sizes, and the chunked reading of large files with its per-chunk error skipping. A file is given as its header and cells, or as unreadable. The whole sheet is processed at once, so a raise while processing loses the whole file, where the chunked path would lose only the chunk that raised.
- Progress reporting and `print` diagnostics are not modelled.
- Normalizer.ProcessDataframe: pandas infers each column's dtype, and only `object` columns are cleaned. The model decides the dtype from the cells alone: a column is not `object` when its cells are all numbers and blanks, all dates and blanks, or all booleans. Only the disposition column's dtype changes the outcome in the model (a non-`object` one raises). A numeric Case_ID or name column is not cleaned or turned into text by the source, so the key 123 and the key "123" stay different there; the model turns every present text-field cell into text through the `str()` parameter.
- Database.CaseStore.SaveData: the failure message stands for the database driver's `str(e)`, which `save_data` passes on unchanged. The driver's wording is not part of this model; the model reports one fixed not-null-constraint text.
- Dedup.HandleDuplicatesRun: the raise is modelled as no result. Its message, and the per-file or per-chunk reporting around it, are not modelled.
- The SQL transport is not modelled. The store is a map from `case_id` to the stored row. A row without a `case_id` is the only database error modelled; other `SQLAlchemyError`s are not.
- `load_from_database`, `load_data`'s query filters, `clear_data`, `get_stats`, `table_exists` and `_define_table` are not part of this model. Only the renaming they rely on is (`MapDbToDataframe`).
- Conversions the model cannot see are parameters: `str()` of a non-text cell, `pd.to_datetime` on text, and the `$,.2f` money formatting in replies.
- Floating point is not modelled: amounts are exact reals. `mean()` is not computed: the average-award answer carries the award amounts it averages.
- `format_currency` is not modelled; it is pure floating-point formatting.
- The metrics `total_claim_amount` and `avg_claim_amount`, the statistics `avg_claim_amount` and `avg_award_amount`, and `_calculate_avg_consumer_claim` are not modelled, for the same reason.
- Dates are whole day numbers. Time of day is not modelled, so `.dt.days` has nothing to truncate. `format_date` formats calendar dates with years 1–9999 and zero-pads the year to four digits.
- Text is ASCII. `lower`, `upper`, `capitalize`, `split`, `strip` and `\s` use their ASCII meaning, with the ASCII characters Python counts as whitespace (space, tab to carriage return, and the separators 0x1C to 0x1F); there is no Unicode case mapping or whitespace.
- `str.contains` with a name that holds regex metacharacters (such as the `.` in "John L. Smith") is taken literally. pandas would read it as a regular expression.
- Raised exceptions are modelled as answers. A `KeyError` for a missing column becomes `MissingColumn`, and the `ValueError` of masking with a column that has nulls becomes `NullInMask`. The caller's catch-all that turns them into an error message is not modelled.
- Analyzer.CountByColumn: `value_counts()` already drops nulls. So the `None` and `NaN` deletions never find a key, and the `'Unknown' == 0` deletion never fires. The model keeps those deletions; they remove nothing.
- Analyzer.TopByCount: `value_counts()` orders equal counts by an order pandas does not promise. The model uses first appearance, and the stable sort keeps that order.
- Utils.FilterFrame: a date range is a sequence of day numbers. An absent range and an empty one behave the same (the filter is skipped), as they do in the source.
- The visualisation module, the Streamlit app and the sample-data generator are not part of this model.
