# Mixamo downloader and annotation tools, modelled in Dafny

This project models the core of the Mixamo downloader in Dafny and proves properties of the model. The core covers three parts:

- **Catalog collector.** `download_all_annotations` asks the Mixamo products API for the catalog, one query per letter, per digit and for the empty query. It merges every animation it sees into one catalog keyed by id. It also records each id's occurrences and the repeated ids whose data differ. The merge stops early once the catalog holds the announced total or after five queries in a row add nothing. Module `Annotations` models it. `src/download_mixamo_annotations.py` is a translated copy of `src/download_annotations.py`: its functions are the same line for line, 20 lines earlier. Both are modelled by the one module. The table cites the original; each cited range sits 20 lines earlier in the copy.
- **Export worker.** `MixamoDownloader` does one of three things: exports the character in T-pose, exports every animation of a dictionary file, or exports the animations matching a search query.
  - For each animation it builds the export payload and submits it. A 429 on submission gets one retry.
  - It then polls the job monitor at most 120 times. The job's download link is saved under the animation's description.
  - Module `Payloads` models the payload builders. Module `Downloader` models the export state machine, the query collector, the id map and the worker object.
- **Description fixer.** `fix_duplicate_values.main` runs these steps:
  1. It replaces `/` with `-` and `"` with `'` in the animation descriptions.
  2. It groups the ids by description. It appends the last three characters of the id to every shared description.
  3. If duplicates survive, it renames them again, largest group first, with a six-character or full-id suffix.
  4. It saves the file sorted by id and reports the number of duplicate entries that remain.

  Module `FixDuplicates` models this.

Shared modules:

- `Wrappers`: `Option`.
- `JsonValues`: JSON values with Python's `.get` and truthiness.
- `Text`: `str.replace`, `s[-n:]`, `rsplit`, string ordering, `int()`/`str()` of integers, and `split`/`join`.
- `OrderedMaps`: a Python `dict` with insertion order.

The model replaces the outside world as follows:

- Every network reply is an input: a page reply, a product reply, a sequence of poll replies, a download outcome.
- The disk is a `set<FilePath>` of the files present.
- The worker's `task` counter stands in for its progress signal.

Where the code and its prose description differ, the model follows the code:

- A 429 returned while polling still uses up one of the 120 polls. The counter is increased before the request, in `src/downloader.py:671-685`.
- A job that reports "completed" on the 120th poll counts as a timeout, and no link is returned. The retry-limit check at `src/downloader.py:713-715` comes before the link is read.

One property of the fixer is only observed, not promised: an id of six characters or fewer has a full-id suffix equal to its six-character suffix. The fallback therefore cannot separate such ids (`FixDuplicates.ShortIdMayCollide` exhibits one). The program does not promise uniqueness. It counts the remaining duplicate entries at the end, and the model proves that count is zero exactly when no description is shared.

## Model

| member | source | states |
|---|---|---|
| Annotations.CompareAnimations | src/download_annotations.py:100-127 | The records are identical iff no key's `.get` differs iff the difference list is empty. The list holds exactly the differing keys, each once. |
| Annotations.DifferencesEmptyIff | src/download_annotations.py:111-127 | No difference exactly when every key (from either record) has the same `.get` value. |
| Annotations.DifferencesReflexive | src/download_annotations.py:114-127 | A record compared with itself has no differences. |
| Annotations.DifferencesSymmetric | src/download_annotations.py:114-125 | Swapping the records swaps the two sides of every difference. |
| Annotations.NullMatchesMissing | src/download_annotations.py:117-120 | A key explicitly null in one record and missing from the other is not a difference (`.get` gives None for both). |
| Annotations.PagesFrom | src/download_annotations.py:140-159 | Reference definition of how many pages are read: stop at a failed page, stop after a page whose announced count the next page number exceeds, otherwise go on. The count never exceeds the replies. |
| Annotations.FetchByLetter | src/download_annotations.py:140-159 | The loop reads exactly `PagesFrom` pages and returns their results concatenated (`Fetched`). Reading stops at the first failed page or once the page number reaches the announced page count. Every page read was announced. |
| Annotations.EmptyValid | src/download_annotations.py:188-193 | The empty catalog, occurrences and divergence list satisfy the collector invariant. |
| Annotations.MergeRecord | src/download_annotations.py:232-261 | Merging one animation with an id keeps the invariant. It is new iff its id was not catalogued; only then is it stored. Its occurrence is appended, the fetch total goes up by one, and one divergence entry is added iff it repeats an id with different data. |
| Annotations.ValidFirst | src/download_annotations.py:259-261 | Storing a first-seen animation keeps the collector invariant. |
| Annotations.ValidLater | src/download_annotations.py:246-258 | Recording a repeated id (and its divergence, if any) keeps the collector invariant. |
| Annotations.MergeQuery | src/download_annotations.py:228-261 | After one query the catalog extends the old one by exactly the ids seen. New plus duplicate counts equal the animations with an id. Each id's occurrences are the old ones followed by this query's, in order. Divergences only grow. |
| Annotations.MergeNext | src/download_annotations.py:231-261 | One loop step (skipping an animation without id, or merging it) extends the loop invariant by one animation. |
| Annotations.ProgressStep | src/download_annotations.py:237-261 | Merging the next animation with an id advances every part of the loop invariant by one. |
| Annotations.StartedStep | src/download_annotations.py:206-217 | A query run only when neither stop test fires keeps the stop rule. New totals add up, and the barren run restarts on any new animation. |
| Annotations.RunQuery | src/download_annotations.py:226-267 | One query keeps the invariant. Its `fetched` is the number of records its replies yield, and `new + duplicate` the number carrying an id. The catalog gains exactly the new ids of those records, grows by the `new` count and only extends. Each id's occurrences gain that query's records with the id, in order. Divergences only grow. |
| Annotations.QueryStep | src/download_annotations.py:206-267 | Merging the next query of the list keeps `Gathered`, extended by one query: ids, occurrences and the per-query statistics. |
| Annotations.StatTotals | src/download_annotations.py:194-267 | One more query adds its new count to the catalog size, and extends the barren run when it added nothing or resets it otherwise. |
| Annotations.DownloadAllAnnotations | src/download_annotations.py:174-275 | No first page means no result. Otherwise the total is `num_results` (default 0), the collector invariant holds, the queries follow the stop rule, and the catalog size is the sum of the new counts. The result is `Gathered` from the replies: the catalog's ids are those of the records fetched by the executed queries, each id's occurrences are all its records in query and page order, and every query's statistics agree with its replies. |
| Annotations.CatalogKeepsFirst | src/download_annotations.py:226-253 | In a gathered collector each catalog record is the first occurrence of its id over the executed queries. |
| Annotations.NoQueryAfterTotalReached | src/download_annotations.py:207-211 | Once the catalog reaches the announced total, no further query runs. |
| Annotations.NoQueryAfterBarrenRun | src/download_annotations.py:213-217 | After five consecutive queries that add nothing, no further query runs. |
| Annotations.BarrenRunCounts | src/download_annotations.py:271-275 | The no-new counter is at least the length of the trailing run of queries that added nothing. |
| Payloads.TPosePayload | src/downloader.py:351-379 | The T-pose payload has exactly the five fields, with the character id and name, type "Character" and a null hash. |
| Payloads.LastValues | src/downloader.py:571-572 | The parameter values exist iff every parameter's last element parses as an integer; the result is those integers, in order. |
| Payloads.AnimationPayload | src/downloader.py:522-613 | A built payload has exactly the five export fields. It carries the character id, the description-derived product name and the fixed preferences. A payload is built only together with a product name. |
| Payloads.PayloadBuilt | src/downloader.py:541-595 | For a product reply with status 200 and an object body, a payload is built exactly when `details.gms_hash` is a truthy object whose rewrite succeeds. It then is the export payload of the character id, the description (or `animation_<id>`), the product's `type` (default "Motion") and the rewritten hash. |
| Payloads.ExportPayload | src/downloader.py:589-595 | The export payload has the five fields and carries the given hash as its one-element `gms_hash`. |
| Payloads.NoPayloadWithoutHash | src/downloader.py:563-568 | A product without a truthy `details.gms_hash` gives no payload. |
| Payloads.NoPayloadWithoutProduct | src/downloader.py:541-543 | A failed product request or a non-object reply gives neither payload nor name. |
| Payloads.ProductNameIsDescription | src/downloader.py:550 | The product name is the description, or `animation_<id>` when there is none. |
| Payloads.PayloadHash | src/downloader.py:563-594 | A built payload's hash is the product's `gms_hash` rewritten. |
| Payloads.RewriteHashFacts | src/downloader.py:570-586 | `RewriteHash`, when it succeeds: the rewritten hash holds the comma-joined last parameter values, `overdrive` 0, and a two-integer trim (default `[0, 100]`). Every other key is kept. |
| Payloads.ParamsSplit | src/downloader.py:571-580 | Splitting the params string at commas gives back each parameter's value rendered in decimal. |
| Payloads.ParamsRoundTrip | src/downloader.py:572-577 | Splitting the params string and parsing each part gives back the integers joined. |
| Downloader.FirstDecisive | src/downloader.py:668-700 | The index of the first poll that ends the loop (completed or failed), or 120 when none does within the budget. |
| Downloader.ExportAnimation | src/downloader.py:615-733 | One post, or two after a 429. At most 120 polls, exactly the number the monitor loop makes. The link is the export state machine's result. |
| Downloader.FailureGivesNoLink | src/downloader.py:698-700 | A job reported failed before any completion gives no link. |
| Downloader.CompletionOnLastPollTimesOut | src/downloader.py:712-715 | Completion on the 120th poll is treated as a timeout: no link, and all 120 polls are made. |
| Downloader.EarlyCompletionGivesLink | src/downloader.py:717-721 | Completion on poll k < 119 returns that reply's `job_result` after k+1 polls. |
| Downloader.RejectedSubmissionIsNotPolled | src/downloader.py:643-660 | A submission rejected (non-200/202, or 429 twice) is never polled and gives no link. |
| Downloader.IdMap | src/downloader.py:456-461 | The id map exists iff every collected animation has a hashable `id` and a `description`, and it is a well-formed ordered dictionary. |
| Downloader.IdMapContents | src/downloader.py:456-461 | The keys are exactly the ids seen, ordered by first occurrence. Each id maps to the description of its last animation. |
| Downloader.BuildIdMap | src/downloader.py:456-461 | The loop builds the id map, or the empty map when an animation has no usable id. |
| Downloader.GetQueriedAnimationsData | src/downloader.py:381-478 | An unusable first page or missing `num_pages` gives the empty map. Otherwise the result is the id map of the pages collected, failed pages skipped. |
| Downloader.FailedPageIsSkipped | src/downloader.py:422-454 | A failed page adds nothing, and collection goes on with the next page. |
| Downloader.StopIndex | src/downloader.py:206-216 | The position of the first stop request among the items, or the item count when none comes. |
| Downloader.MixamoDownloader.constructor | src/downloader.py:59-88 | The worker starts with its path, mode and query, `task` 1 and no product name. |
| Downloader.MixamoDownloader.DownloadAnimation | src/downloader.py:735-785 | Counts one task. With a truthy link the file appears once it has been opened for writing: after a complete download, and also after a write that fails midway, which leaves a partial file. A timeout, a failed request or a failed `open` leaves no file, and neither does a falsy link. |
| Downloader.MixamoDownloader.RunItem | src/downloader.py:220-265 | Per animation: no payload, directory failure, file already present (skipped) or exported. The product name is updated when one was read. The outcome is the one its replies and the files present determine, and the files afterwards gain the output file only for an export whose link is truthy and whose download leaves a file. |
| Downloader.MixamoDownloader.Run | src/downloader.py:129-272 | With no character nothing happens. In T-pose mode the T-pose file is exported unless present, and it appears when the link is truthy and the download leaves a file. Otherwise the items of the dictionary or query map are processed up to the stop position, one task each, and each item's outcome and the files after it are those its replies determine. |
| Downloader.MixamoDownloader.RunItems | src/downloader.py:205-265 | Items are processed until the first stop request, one task each. Item k's outcome is the one its replies and the files before it determine, and the files after it are those that outcome leaves. |
| Downloader.ReportStep | src/downloader.py:205-265 | Processing one more item extends the per-item record of outcomes and files by that item. |
| Downloader.ItemsReportFiles | src/downloader.py:205-265 | After the item loop the disk holds the initial files plus exactly the files of exports with a truthy link whose download left a file. |
| OrderedMaps.OrderedMap.Put | src/fix_duplicate_values.py:122 | Assignment replaces the value. A new key is appended at the end, and a present key keeps its place. |
| OrderedMaps.FromPairs | src/downloader.py:460-461 | Assigning pairs in order gives a well-formed dictionary. |
| OrderedMaps.FromPairsKeys | src/downloader.py:457-461 | The keys are exactly the keys assigned. |
| OrderedMaps.FromPairsOrder | src/downloader.py:457-461 | The keys are ordered by their first assignment. |
| OrderedMaps.FromPairsValues | src/downloader.py:457-461 | Each key holds its last assigned value. |
| Text.Replace | src/fix_duplicate_values.py:43 | `str.replace` of one character: same length, each occurrence replaced, all else kept. |
| Text.ReplaceRemoves | src/fix_duplicate_values.py:40-44 | After replacing c by a different character, c no longer occurs and other characters are unaffected. |
| Text.ReplaceAbsent | src/fix_duplicate_values.py:41-44 | Replacing an absent character changes nothing. |
| Text.Last | src/fix_duplicate_values.py:120 | `s[-n:]`: the last n characters, or all of a shorter string. |
| Text.LastIndex | src/fix_duplicate_values.py:151 | The position of the last occurrence of a character, or -1 when absent. |
| Text.RSplitBaseOfSuffixed | src/fix_duplicate_values.py:151 | `rsplit(c, 1)[0]` of `base + c + suffix` is `base` when the suffix has no c. |
| Text.StrLtIrreflexive | src/fix_duplicate_values.py:174 | Python's string order is irreflexive. |
| Text.StrLtTotal | src/fix_duplicate_values.py:174 | Python's string order is total on distinct strings. |
| Text.StrLtTransitive | src/fix_duplicate_values.py:174 | Python's string order is transitive. |
| Text.StrLtAsymmetric | src/fix_duplicate_values.py:174 | Python's string order is asymmetric. |
| Text.Digits | src/downloader.py:577 | `str()` of a natural number is a non-empty string of digits. |
| Text.DigitsValueOfDigits | src/downloader.py:572-577 | Reading back the digits of n gives n. |
| Text.ParseDecimal | src/downloader.py:572-577 | `ParseInt`, Python's `int()` of a string: `int(str(i)) == i` for every integer, negative ones included. |
| Text.SplitJoin | src/downloader.py:577 | Splitting a comma-join of comma-free parts gives back the parts. |
| Text.DecimalHasNoComma | src/downloader.py:577 | An integer's decimal string contains no comma. |
| FixDuplicates.SanitisedRemoves | src/fix_duplicate_values.py:39-64 | Sanitising keeps the keys and their order and removes every occurrence of the character. Values without it are unchanged. |
| FixDuplicates.SanitisePass | src/fix_duplicate_values.py:39-45 | The loop rewrites every value containing the character and counts exactly those values. |
| FixDuplicates.SanitiseEntry | src/fix_duplicate_values.py:41-44 | One loop step rewrites the next value and keeps the count. |
| FixDuplicates.CountWithPositive | src/fix_duplicate_values.py:39-45 | The count is positive iff some value contains the character. |
| FixDuplicates.SanitisedUnchanged | src/fix_duplicate_values.py:40-44 | Without the character anywhere, sanitising changes nothing. |
| FixDuplicates.BothSanitised | src/fix_duplicate_values.py:39-64 | Both passes keep a well-formed file with the same keys in the same order. |
| FixDuplicates.ChangesMadeIff | src/fix_duplicate_values.py:72 | Changes were made iff some original value contains `/` or `"`. |
| FixDuplicates.GroupByValue | src/fix_duplicate_values.py:75-77 | The loop builds the value-to-ids grouping. |
| FixDuplicates.AddToGroup | src/fix_duplicate_values.py:76-77 | Appending one id extends the grouping by one entry. |
| FixDuplicates.GroupsContents | src/fix_duplicate_values.py:75-77 | A value is grouped iff some id has it; its group lists those ids in file order. |
| FixDuplicates.GroupsContentsAt | src/fix_duplicate_values.py:75-77 | The same, for one value. |
| FixDuplicates.IdsWithMembers | src/fix_duplicate_values.py:75-77 | A value's group holds exactly the ids whose value it is. |
| FixDuplicates.IdsWithMember | src/fix_duplicate_values.py:75-77 | The same, for one id. |
| FixDuplicates.DuplicateItems | src/fix_duplicate_values.py:80 | Every selected group exists in the grouping and has more than one id. |
| FixDuplicates.DuplicateItemsComplete | src/fix_duplicate_values.py:80 | Every group of more than one id is selected. |
| FixDuplicates.FlattenSound | src/fix_duplicate_values.py:106-112 | Each (id, value) update entry comes from a selected group containing the id. |
| FixDuplicates.FlattenComplete | src/fix_duplicate_values.py:106-112 | Every id of every selected group has an update entry. |
| FixDuplicates.TargetIsShared | src/fix_duplicate_values.py:75-112 | Each update entry names an id whose value is shared with another id. |
| FixDuplicates.SharedIsTarget | src/fix_duplicate_values.py:75-112 | Each id whose value is shared gets an update entry. |
| FixDuplicates.TargetsAreShared | src/fix_duplicate_values.py:75-112 | The update entries are exactly the ids with shared values, with those values. |
| FixDuplicates.IdsWithSome | src/fix_duplicate_values.py:75-77 | A value has a non-empty group iff some id carries it. |
| FixDuplicates.IdsWithTwo | src/fix_duplicate_values.py:80 | A group has more than one id iff two distinct positions carry the value. |
| FixDuplicates.IdsWithTwoSound | src/fix_duplicate_values.py:80 | A group of more than one id shows two positions carrying the value. |
| FixDuplicates.IdsWithTwoComplete | src/fix_duplicate_values.py:80 | Two positions carrying a value make its group larger than one. |
| FixDuplicates.DuplicatesFoundIff | src/fix_duplicate_values.py:127-131 | Some group is selected iff some value is shared, which is the `Counter` test. |
| FixDuplicates.SuffixedAt | src/fix_duplicate_values.py:117-122 | The first phase keeps the keys and gives each listed id `value-<last 3 of id>`. All other values are kept. |
| FixDuplicates.Phase1Effect | src/fix_duplicate_values.py:106-122 | The first phase suffixes exactly the ids whose value is shared. |
| FixDuplicates.SuffixPass | src/fix_duplicate_values.py:117-122 | The loop performs the first phase. |
| FixDuplicates.InsertBySize | src/fix_duplicate_values.py:148 | Inserting a group into the ordering neither loses nor adds groups. |
| FixDuplicates.InsertBySizeDescending | src/fix_duplicate_values.py:148 | Insertion keeps the groups ordered by decreasing size. |
| FixDuplicates.InsertBySizeStable | src/fix_duplicate_values.py:148 | Insertion puts the group behind the groups of its own size. |
| FixDuplicates.SortBySize | src/fix_duplicate_values.py:148 | The ordering is a permutation of the groups. |
| FixDuplicates.SortBySizeDescending | src/fix_duplicate_values.py:148 | The groups come largest first (`reverse=True`). |
| FixDuplicates.SortBySizeStable | src/fix_duplicate_values.py:148 | Groups of equal size keep their order (Python's sort is stable, also in reverse). |
| FixDuplicates.OtherValuesMembers | src/fix_duplicate_values.py:158 | The other values are exactly the values of the other ids. |
| FixDuplicates.Renamed | src/fix_duplicate_values.py:151-163 | The new value is the six-character or the full-id candidate. The six-character one is used only when no other id holds it. For an id longer than six, the full id is used only when another id does hold it. |
| FixDuplicates.LongIdCandidatesDiffer | src/fix_duplicate_values.py:154-161 | For an id longer than six characters, the two candidates differ. |
| FixDuplicates.BaseOfSuffixed | src/fix_duplicate_values.py:151 | Removing the suffix added in the first phase gives back the original value, when the id's last three characters contain no `-`. |
| FixDuplicates.ShortIdMayCollide | src/fix_duplicate_values.py:154-163 | For a two-character id the fallback may equal another id's current value. |
| FixDuplicates.RenamingsEffect | src/fix_duplicate_values.py:141-166 | The second phase keeps the keys and renames each listed id to one of its two candidates. All other values are kept. |
| FixDuplicates.RenamingsKeys | src/fix_duplicate_values.py:165 | Renaming keeps the keys and their order. |
| FixDuplicates.RenamingsAt | src/fix_duplicate_values.py:148-166 | The second phase's effect on one id. |
| FixDuplicates.RenamePass | src/fix_duplicate_values.py:147-166 | The loop performs the second phase and counts one per listed id. |
| FixDuplicates.RenameOne | src/fix_duplicate_values.py:151-165 | One rename step. |
| FixDuplicates.FlattenSameMembers | src/fix_duplicate_values.py:145-149 | Reordering the groups does not change which (id, value) entries are renamed. |
| FixDuplicates.InsertKey | src/fix_duplicate_values.py:174 | Inserting a key neither loses nor adds keys. |
| FixDuplicates.SortKeys | src/fix_duplicate_values.py:174 | The sorted keys are a permutation of the keys. |
| FixDuplicates.InsertKeySorted | src/fix_duplicate_values.py:174 | Inserting a new key keeps the keys strictly sorted. |
| FixDuplicates.SortKeysSorted | src/fix_duplicate_values.py:174 | Distinct keys sort into strictly increasing order. |
| FixDuplicates.SortedByKey | src/fix_duplicate_values.py:174 | The sorted dictionary is well formed. |
| FixDuplicates.SortedKeys | src/fix_duplicate_values.py:174 | The saved keys are exactly the file's keys, strictly increasing. |
| FixDuplicates.ValuesUpToSize | src/fix_duplicate_values.py:180-181 | The set of values is no larger than the entry count. It is as large exactly when no value repeats. |
| FixDuplicates.DuplicateEntriesZeroIff | src/fix_duplicate_values.py:180-190 | The duplicate-entry count is non-negative and zero exactly when no value is shared. |
| FixDuplicates.FixDescriptions | src/fix_duplicate_values.py:39-177 | The whole run: sanitise, stop when nothing changed, save sorted when there are no duplicates, otherwise run both phases and save sorted. |
| FixDuplicates.SanitiseBoth | src/fix_duplicate_values.py:39-72 | Both sanitising passes, and whether they changed anything. |
| FixDuplicates.Disambiguate | src/fix_duplicate_values.py:106-166 | Phase 1, the `Counter` test and phase 2. |
| FixDuplicates.DisambiguatedKeys | src/fix_duplicate_values.py:106-166 | Both phases keep the keys and their order. |
| FixDuplicates.Phase2Effect | src/fix_duplicate_values.py:131-166 | The second phase gives each id still shared after the first phase one of its two candidates. All other values are kept. |
| FixDuplicates.Phase2OnlyIfDuplicates | src/fix_duplicate_values.py:127-131 | When the first phase left no duplicates, its result is final. |
| FixDuplicates.FixedUnchangedIff | src/fix_duplicate_values.py:72-87 | `Fixed`, the whole run of `main` on the loaded file: the file is left untouched iff no value contains `/` or `"` and no value is shared. |
| FixDuplicates.FixedSavesSorted | src/fix_duplicate_values.py:89-177 | Whenever the file is saved, it holds exactly the original ids, strictly sorted. |
| FixDuplicates.FixedReport | src/fix_duplicate_values.py:180-190 | After sanitising alone no value is shared. After the phases, the reported duplicate-entry count is zero exactly when no value is shared. |
| FixDuplicates.SameEntriesDuplicates | src/fix_duplicate_values.py:180-181 | Reordering the keys without changing the entries cannot create shared values. |
| FixDuplicates.SortedUniqueness | src/fix_duplicate_values.py:174-181 | Sorting by key neither creates nor removes shared values. |

## Left out

- HTTP requests, the proxy test, headers and timeouts: every reply is an input, and an exception is one more reply kind (a failed page, a failed poll).
- Sleeping and delays (`time.sleep`, the 30-second back-off, the poll interval): they affect timing only.
- Logging and console output, including the last-ten/first-five listings of the collector and the fixer's printed counts. `processed_count` is only returned by `FixDuplicates.RenamePass`.
- Qt signals other than the `task` counter, which stands in for the progress signal.
- JSON parsing and dumping, file writing, `os.path.getsize` and `os.makedirs`: the disk is the set of files present, a partially written file included. A directory failure is an input flag of an item.
- Command-line parsing, environment files and the scripts' `__main__` blocks.
- `get_primary_character_id` and `get_primary_character_name`: their results are parameters of `Downloader.MixamoDownloader.Run`.
- `get_all_animations_data`: the dictionary read from the file is a parameter of `Downloader.MixamoDownloader.Run`.
- The statistics, saving and report steps of `download_all_annotations` after `src/download_annotations.py:277`: they only print and write files.
- JSON numbers with a fraction: the model has integers only.
- Python's `True == 1` equality across types.
- Downloader.Entry: an id that is not a string, integer or boolean makes the record unusable, as the `try` around the dictionary build turns the `TypeError` into the empty map.
- Annotations.MergeRecord: a truthy array or object id is used as a catalog key like any other id. Python raises `TypeError` (unhashable type) at `src/download_annotations.py:240` and the whole run stops there; the model does not capture that abort, so `MergeQuery`, `RunQuery` and `DownloadAllAnnotations` also catalogue such records.
- `int()` of strings with surrounding whitespace or `_` separators: the parser accepts an optional `+` or `-` followed by digits.
- A `params` value that is an object (Python would iterate over its keys): the model treats it as an error.
- The file path is a pair of directory and product name, not a rendered string.
- Downloader.MixamoDownloader.Run: in T-pose mode the directory is created outside the `try` block (`src/downloader.py:163`). A failure there is not modelled.
- Downloader.MixamoDownloader.Run: a missing output path (None) is modelled as the empty string.
- FixDuplicates.FixDescriptions: the values are strings. Other JSON values in the file are not modelled.
- Annotations.CompareAnimations: the order of the differences list follows Python's set order, which is unspecified. The model proves only which differences are listed, and that each field appears once.
