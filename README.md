# smart-mermaid core, modelled in Dafny

Smart Mermaid is a web application. It turns a natural-language description into a Mermaid diagram, which can then be rendered as Mermaid or hand-drawn. This project models the parts of the application that keep state and make decisions, and proves properties about them:

- **Application store** (`Store`). It holds the editor, UI, configuration and usage state, plus the undo/redo command log. The log is a list of code snapshots with a cursor and is capped at 50 snapshots.
- **Version store** (`HistoryRecords`, `History`). Named versions of a diagram live in an insertion-ordered table, capped at 100 records. The model covers:
  - automatic, manual and restore saves;
  - eviction of the oldest record;
  - search and filters, and comparison;
  - statistics;
  - JSON/CSV export, import and cleanup.
- **Memory helpers** (`MemoryOptimizer`):
  - the render cache, which keeps the five newest insertions before every write;
  - the text and history truncation helpers.
- **Batch processor** (`Batch`):
  - the life cycle of a batch task;
  - the task table;
  - batch conversion, with cancellation;
  - batch template application, with progress;
  - placeholder substitution.
- **Template catalogue** (`TemplateCatalogue`). The sixteen built-in templates in nine categories, with the category listing, search and lookup.
- **Keyboard shortcuts** (`KeyboardShortcuts`):
  - the chord table;
  - how a key event becomes a chord string;
  - the dispatch of the matched action to the store.
- **Generate button** (`Page`). The daily usage counter and the guards of the generate button.
- **Version-history dialog** (`HistoryDialog`):
  - the two-version compare selection;
  - tag parsing;
  - the manual-save guard;
  - the filters the dialog hands to search.

Shared modules model the JavaScript built-ins the code relies on:

- `Wrappers`: `Option` and `Result`.
- `Text`: `trim`, ASCII `toLowerCase`, `includes`, `split`, `join`, global literal replace, match counting and decimal rendering.
- `InsertionMap`: a JavaScript `Map`, as a sequence of entries in insertion order with unique keys.
- `Sorting`: a stable sort by non-increasing key.

How the code's shape carries over:

- Objects whose methods update fields in place are Dafny classes with `modifies` clauses. These are `AppStore`, `HistoryManager`, `MemoryMonitor`, `BatchTask`, `BatchProcessor` and `UsageStorage`.
- Each loop of the code is a `while` or `for` loop. Its invariants tie the state to an index-based fold that mirrors the iteration.
- Pure code is functions and lemmas.

Inputs the code takes from outside become parameters:

- the clock and generated ids;
- the formatted time strings;
- the replies of the AI service;
- the outcome of the character-limit check;
- the unlimited-access flag;
- when a cancellation arrives.

## Model

| member | source | states |
|---|---|---|
| Store.SliceTo | stores/app-store.js:60 | `slice(0, end)` is a prefix of the snapshots, of length `end` when `end` is within bounds |
| Store.Pushed | stores/app-store.js:59-75 | after a write, the new snapshot is last and the cursor is on it |
| Store.PushedRecords | stores/app-store.js:59-67 | a write keeps exactly the snapshots up to the cursor, appends the new one, and drops the front one only when the list would pass 50 |
| Store.WellFormedPreserved | stores/app-store.js:4-75 | at most 50 snapshots, with the cursor `-1` on an empty log and a valid index otherwise: write, undo, redo and clear all keep this |
| Store.OneShiftOnly | stores/app-store.js:64-67 | only one front snapshot is dropped, so a log already over the cap stays over it |
| Store.WriteAfterUndoDiscardsFuture | stores/app-store.js:59-62 | `[A,B,C]`, then undo, then write `D`, gives `[A,B,D]` with the cursor at 2 and nothing to redo |
| Store.UndoRedoRoundTrip | stores/app-store.js:146-168 | undo then redo restores the cursor and the current code |
| Store.RedoUndoRoundTrip | stores/app-store.js:146-168 | redo then undo restores the cursor |
| Store.NothingToUndoOrRedoOnShortLog | stores/app-store.js:170-178 | a log with zero or one snapshot can neither undo nor redo |
| Store.PushedCursorAtEnd | stores/app-store.js:69-75 | after a write there is nothing to redo; undo is possible exactly when an older snapshot survives |
| Store.ToggledRenderMode | stores/app-store.js:103-105 | the result is `mermaid` exactly for `excalidraw`; anything else gives `excalidraw` |
| Store.ToggleTwice | stores/app-store.js:103-105 | toggling twice is the identity exactly on the two known modes |
| Store.DecrementedUsage | stores/app-store.js:141-143 | never below 0; one less when positive |
| Store.AppStore.constructor | stores/app-store.js:10-47 | the initial editor, UI, configuration, usage (5) and empty log |
| Store.AppStore.SetInputText | stores/app-store.js:50-52 | only `editor.inputText` changes |
| Store.AppStore.SetMermaidCode | stores/app-store.js:54-76 | the log becomes `Pushed(old log, (code, now))`, the editor shows the code, and the invariant is kept |
| Store.AppStore.SetDiagramType | stores/app-store.js:78-80 | only `editor.diagramType` changes |
| Store.AppStore.SetStreamingContent | stores/app-store.js:82-84 | only `editor.streamingContent` changes |
| Store.AppStore.SetIsStreaming | stores/app-store.js:86-88 | only `editor.isStreaming` changes |
| Store.AppStore.ToggleLeftPanel | stores/app-store.js:95-97 | only the panel flag flips |
| Store.AppStore.SetRenderMode | stores/app-store.js:99-101 | only `ui.renderMode` changes |
| Store.AppStore.ToggleRenderMode | stores/app-store.js:103-105 | only `ui.renderMode` changes, to its toggled value |
| Store.AppStore.SetIsGenerating | stores/app-store.js:107-109 | only `ui.isGenerating` changes |
| Store.AppStore.SetShowLimitDialog | stores/app-store.js:119-121 | only `ui.showLimitDialog` changes |
| Store.AppStore.SetAIConfig | stores/app-store.js:124-126 | stores the configuration and sets `hasCustomConfig` to whether one was given |
| Store.AppStore.SetRemainingUsage | stores/app-store.js:137-139 | only the remaining count changes |
| Store.AppStore.DecrementUsage | stores/app-store.js:141-143 | the remaining count becomes `max(0, n - 1)` |
| Store.AppStore.Undo | stores/app-store.js:146-156 | a no-op unless the cursor is past 0; otherwise the cursor steps back and the editor shows that snapshot; the snapshots never change |
| Store.AppStore.Redo | stores/app-store.js:158-168 | a no-op unless the cursor is before the last snapshot; otherwise it steps forward and shows that snapshot |
| Store.AppStore.ClearHistory | stores/app-store.js:180-182 | empties the log and leaves the editor, its code included, untouched |
| Store.AppStore.ResetAll | stores/app-store.js:197-216 | the editor and the log go back to their initial values; of the UI only `isGenerating` and `isFixing` are reset |
| HistoryRecords.OrString | lib/history-manager.js:13-23 | `value \|\| fallback` on strings: the value unless it is absent or empty |
| HistoryRecords.OrNumber | lib/history-manager.js:14 | `value \|\| fallback` on numbers: the value unless it is absent or 0 |
| HistoryRecords.NewRecord | lib/history-manager.js:12-26 | the constructor: `autoSaved` only for a literal `true`; `parentId` is never `''`; every defaulted text field is non-empty |
| HistoryRecords.NewRecordNormal | lib/history-manager.js:12-26 | with a non-empty generated id and a non-zero clock, every constructed record has no falsy defaulted field |
| HistoryRecords.FromJSONToJSON | lib/history-manager.js:31-54 | `fromJSON(r.toJSON())` gives back `r` for every such record |
| HistoryRecords.EmptyIdReplaced | lib/history-manager.js:13 | a record whose id is empty does not survive the round trip: it gets a fresh id |
| HistoryRecords.DefaultsOfEmptyData | lib/history-manager.js:12-26 | with no data, every field takes its default |
| HistoryRecords.ShortTitle | lib/history-manager.js:66-68 | titles up to 30 characters are kept; longer ones become their first 30 characters plus `...` |
| HistoryRecords.CountNonBlank | lib/history-manager.js:74 | the count of non-blank lines is at most the number of lines |
| HistoryRecords.Complexity | lib/history-manager.js:80-85 | complexity is at least the line count |
| HistoryRecords.CountNonBlankAppend | lib/history-manager.js:74 | the count of non-blank lines adds up over concatenated line lists |
| HistoryRecords.CodeLineCountJoin | lib/history-manager.js:73-75 | the line count of two texts joined by a newline is the sum of their counts |
| HistoryRecords.ComplexityJoin | lib/history-manager.js:80-85 | the complexity of two texts joined by a newline is the sum of their complexities |
| HistoryRecords.CodeLineCountOneLine | lib/history-manager.js:73-75 | a single line counts 1 unless it trims to nothing |
| HistoryRecords.ArrowsExample | lib/history-manager.js:82 | `A[x]-->B[y]` has one arrow |
| HistoryRecords.LinesExample | lib/history-manager.js:74 | `A[x]-->B[y]` has one line |
| HistoryRecords.NodesExample | lib/history-manager.js:83 | `A[x]-->B[y]` has two bracketed labels |
| HistoryRecords.ComplexityExample | lib/history-manager.js:80-85 | `A[x]-->B[y]` has complexity 4 |
| History.AllRecords | lib/history-manager.js:236-239 | every stored record, ordered by non-increasing timestamp (a permutation of the table's values) |
| History.AllRecordsStored | lib/history-manager.js:236-239 | the listed records have distinct ids, and each is what `get` returns for its id |
| History.AllRecordsMembers | lib/history-manager.js:236-239 | a record is listed exactly when it is stored |
| History.LatestRecord | lib/history-manager.js:244-247 | `null` exactly for an empty store; otherwise a stored record with the greatest timestamp |
| History.OldestUpTo | lib/history-manager.js:217-226 | the scan's state: the chosen record is strictly older than `now`, no scanned record is older, and ties go to the first |
| History.WithoutOldestStored | lib/history-manager.js:217-231 | eviction keeps the table well-formed and removes at most one record |
| History.AddedStored | lib/history-manager.js:203-212 | `addRecord` keeps the table well-formed |
| History.EvictionRemovesOldest | lib/history-manager.js:217-231 | eviction deletes exactly the earliest record that is strictly older than `now`, the first one on ties |
| History.NoEvictionWithoutCandidate | lib/history-manager.js:218-230 | when no record predates `now`, nothing is evicted |
| History.AddExistingId | lib/history-manager.js:203-212 | saving under a stored id replaces that record in place; the size and key order are unchanged |
| History.AddNewIdBelowCap | lib/history-manager.js:203-212 | below the cap, a new id is appended at the end |
| History.AddedSize | lib/history-manager.js:203-231 | `addRecord` ends at most one over the cap, and at the cap when ids are non-empty and the new record predates `now` |
| History.NewRecordCanBeEvicted | lib/history-manager.js:203-231 | at the cap, a new record older than every stored one is evicted at once |
| History.AutoSaveRecord | lib/history-manager.js:143-158 | the auto-saved record copies the editor's code, input and type and the render mode, and is marked automatic |
| History.ManualSaveRecord | lib/history-manager.js:171-189 | the manual record: given title or a dated default, and the description, tags and editor content |
| History.RestoreRecordOf | lib/history-manager.js:286-300 | the restore record copies the original's content, points back at it, and is manual |
| History.AutoSaveAddsOne | lib/history-manager.js:125-166 | when the editor changed, `autoSave` adds exactly one automatic record |
| History.RestoreKeepsOriginal | lib/history-manager.js:270-308 | restoring leaves the original record in place and links the new one to it |
| History.ManualSaveCanEvictItself | lib/history-manager.js:171-231 | at the cap, when every stored record is newer than the save's clock reading and the clock has moved on by the eviction, the saved record itself is evicted |
| History.AutoSaveCanEvictItself | lib/history-manager.js:125-231 | the same for an automatic save |
| History.RestoreCanEvictItself | lib/history-manager.js:203-308 | the same for the record a restore adds |
| History.Select | lib/history-manager.js:317-346 | a record is kept exactly when it matches the query and every filter |
| History.SelectSorted | lib/history-manager.js:313-347 | filtering keeps the newest-first order |
| History.SelectAll | lib/history-manager.js:319 | an empty query with no filters keeps everything |
| History.SearchProperties | lib/history-manager.js:313-347 | search returns exactly the stored records that satisfy the query and every filter, newest first; with an empty query and no filters it is `getAllRecords()` |
| History.NonBooleanAutoSavedMatchesNothing | lib/history-manager.js:328-329 | an `autoSaved` filter holding a string matches no record under `===` |
| History.Compare | lib/history-manager.js:352-376 | fails unless both ids are stored; otherwise it returns both records and their differences |
| History.CompareSymmetric | lib/history-manager.js:352-376 | swapping the ids keeps the flags and the time difference, and negates the size differences |
| History.CompareWithItself | lib/history-manager.js:352-376 | a record compared with itself differs in nothing |
| History.DiffFlags | lib/history-manager.js:363-373 | each flag is exactly a field inequality, and the time difference is 0 exactly for equal timestamps |
| History.CountAutoSaved | lib/history-manager.js:390 | the automatic count is at most the total |
| History.CountManual | lib/history-manager.js:391 | the manual count is at most the total |
| History.CountRecent | lib/history-manager.js:392-394 | the windowed counts are at most the total |
| History.RoundedMean | lib/history-manager.js:395-397 | `Math.round(sum / n)` becomes the nearest integer, with halves rounded up |
| History.AutoSavedPlusManual | lib/history-manager.js:390-392 | automatic plus manual is the total |
| History.CountRecentMonotone | lib/history-manager.js:392-394 | a wider window counts at least as many records |
| History.TallyCounts | lib/history-manager.js:408-414 | the tally holds each type once, with its number of records |
| History.MostUsedTypesShape | lib/history-manager.js:415-417 | at most five entries, by non-increasing count, from the front of the sorted tally |
| History.MostUsedTypesCounts | lib/history-manager.js:408-418 | each listed count is the number of records of that type |
| History.MostUsedTypesLeftOut | lib/history-manager.js:408-418 | no type left out is more frequent than a listed one |
| History.GetStatistics | lib/history-manager.js:381-403 | total is the size; automatic plus manual is the total; today ≤ week ≤ month ≤ total; the newest record is the latest |
| History.CsvLines | lib/history-manager.js:445-462 | one header line and one line per record |
| History.CsvLineSingle | lib/history-manager.js:457-459 | a quoted line of single-line fields holds no line break |
| History.CsvHeaderSingle | lib/history-manager.js:446 | the header line holds no line break |
| History.CsvRowSingle | lib/history-manager.js:447-455 | a row of single-line fields is one line |
| History.CsvOneLinePerRecord | lib/history-manager.js:445-462 | when no field holds a line break, the CSV splits back into the header and one line per record |
| History.ExportHistory | lib/history-manager.js:423-440 | succeeds exactly for `json` and `csv` in any case; the JSON export holds every record, newest first, as `toJSON` writes it, and their total |
| History.ImportUpTo | lib/history-manager.js:478-495 | imported plus skipped is the number of items handled |
| History.ImportLoop | lib/history-manager.js:478-495 | the loop over the items ends in the table and counts of `ImportUpTo` |
| History.SetNewStored | lib/history-manager.js:484-486 | storing a new id keeps the table well-formed and every other record in place |
| History.ImportUpToStored | lib/history-manager.js:467-503 | import keeps the table well-formed and never overwrites a stored id |
| History.ImportedIdsPresent | lib/history-manager.js:467-503 | after import every item's id is stored |
| History.ImportKnownIds | lib/history-manager.js:467-503 | items whose ids are all stored import nothing and leave the table alone |
| History.ImportTwice | lib/history-manager.js:467-503 | importing the same payload twice imports nothing the second time |
| History.ReimportOwnExport | lib/history-manager.js:423-503 | importing the store's own JSON export imports nothing |
| History.ImportExportInto | lib/history-manager.js:423-503 | importing the JSON export into any table stores exactly the ids of that table and of the exporting store |
| History.ImportExportAfterDeletes | lib/history-manager.js:423-503 | after records are deleted, importing the earlier export stores exactly the ids present at export time |
| History.CleanupUpTo | lib/history-manager.js:518-535 | the removed count is at most the number of records visited |
| History.CleanupLoop | lib/history-manager.js:518-531 | the loop over the newest-first list ends in the table and count of `CleanupUpTo` |
| History.CleanupSize | lib/history-manager.js:508-538 | removed plus remaining is the original size |
| History.CleanupKeeps | lib/history-manager.js:508-538 | a record survives exactly when none of the age, count, automatic or manual conditions held at its turn |
| History.CleanupDefaultsDropAutoSaved | lib/history-manager.js:509-514 | with the default options every automatic record is removed, whatever its age |
| History.CleanupStored | lib/history-manager.js:508-538 | cleanup keeps the table well-formed |
| History.HistoryManager.constructor | lib/history-manager.js:92-99 | the manager starts with no records |
| History.HistoryManager.GetRecord | lib/history-manager.js:252-254 | found exactly when the id is stored, with that id |
| History.HistoryManager.RemoveOldestRecord | lib/history-manager.js:217-231 | the table becomes `WithoutOldest(old, now)`, the loop's result |
| History.HistoryManager.AddRecord | lib/history-manager.js:203-212 | the table becomes `Added(old, record, now)` and stays well-formed |
| History.HistoryManager.DeleteRecord | lib/history-manager.js:259-265 | reports whether the id was stored, and removes it |
| History.HistoryManager.AutoSave | lib/history-manager.js:125-166 | skips an empty editor and an unchanged editor; otherwise adds the auto-saved record, stamped by one clock reading, with any eviction at a second reading |
| History.HistoryManager.ManualSave | lib/history-manager.js:171-198 | adds and returns the manual record, stamped by one clock reading, with any eviction at a second reading |
| History.HistoryManager.RestoreRecord | lib/history-manager.js:270-308 | fails and changes nothing for an unknown id; otherwise loads the record into the store and adds the restore record, each at its own clock reading: the store's snapshot, the new record and the eviction |
| History.HistoryManager.ImportHistory | lib/history-manager.js:467-503 | fails when `records` is not an array; otherwise the table and counts are those of the import loop |
| History.HistoryManager.Cleanup | lib/history-manager.js:508-538 | the table and the removed count are those of the cleanup loop; removed plus remaining is the old size |
| MemoryOptimizer.Trimmed | lib/memory-optimizer.js:68-77 | the cache keeps its newest five insertions, as a suffix, unchanged when it has five or fewer |
| MemoryOptimizer.TrimmedProperties | lib/memory-optimizer.js:68-77 | trimming keeps keys unique and every surviving entry unchanged |
| MemoryOptimizer.CachedProperties | lib/memory-optimizer.js:82-93 | after `cacheRender(k, v)` the cache is well-formed, holds at most six entries, and `getCachedRender(k)` is `v` |
| MemoryOptimizer.RewriteKeepsPosition | lib/memory-optimizer.js:82-86 | rewriting a surviving key keeps the key order, so eviction is by first insertion |
| MemoryOptimizer.NewKeyAppended | lib/memory-optimizer.js:82-86 | a new key goes after the surviving keys |
| MemoryOptimizer.MemoryMonitor.constructor | lib/memory-optimizer.js:19-24 | the cache starts empty |
| MemoryOptimizer.MemoryMonitor.CleanupRenderCache | lib/memory-optimizer.js:68-77 | the deletion loop leaves exactly `Trimmed(old cache)` |
| MemoryOptimizer.MemoryMonitor.CacheRender | lib/memory-optimizer.js:82-86 | trim, then store; the at-most-six bound is kept |
| MemoryOptimizer.MemoryMonitor.GetCachedRender | lib/memory-optimizer.js:91-93 | defined exactly for cached keys |
| MemoryOptimizer.LimitTextSize | lib/memory-optimizer.js:111-120 | the result is the prefix of length `min(len, maxSize)`, with a negative size counting as 0 |
| MemoryOptimizer.LimitTextSizeBound | lib/memory-optimizer.js:111-120 | with the default size, the result is within 50000 characters, and a short text is unchanged |
| MemoryOptimizer.LimitTextSizeIdempotent | lib/memory-optimizer.js:111-120 | truncating twice is truncating once |
| MemoryOptimizer.SliceFrom | lib/memory-optimizer.js:131 | `slice(start)` is a suffix |
| MemoryOptimizer.CleanupHistory | lib/memory-optimizer.js:125-132 | the result is a suffix of the records |
| MemoryOptimizer.CleanupHistoryKeepsNewest | lib/memory-optimizer.js:125-132 | for a positive size, exactly the last `min(len, maxSize)` records |
| MemoryOptimizer.CleanupHistoryZero | lib/memory-optimizer.js:131 | a size of 0 keeps every record (`slice(-0)`) |
| MemoryOptimizer.CleanupHistoryNegative | lib/memory-optimizer.js:131 | a negative size `-m` keeps the records from position `m` on |
| TemplateCatalogue.LookupOr | lib/templates/index.js:462 | `table[key] \|\| fallback` |
| TemplateCatalogue.KnownCategories | lib/templates/index.js:6-481 | every category of the catalogue has a non-empty name and icon |
| TemplateCatalogue.UnknownCategoryFallbacks | lib/templates/index.js:450-481 | an unknown category is named by its key and gets the 📊 icon |
| TemplateCatalogue.KnownCategoryName | lib/templates/index.js:450-463 | a known category gets its listed name |
| TemplateCatalogue.TemplateCategories | lib/templates/index.js:438-445 | one entry per category key, in order, with count, name and icon |
| TemplateCatalogue.CategoryCountsSum | lib/templates/index.js:438-445 | the counts add up to the number of templates |
| TemplateCatalogue.Tagged | lib/templates/index.js:499-503 | each result carries its template, category key and category name |
| TemplateCatalogue.Flatten | lib/templates/index.js:492-506 | one entry per template |
| TemplateCatalogue.FilterMatches | lib/templates/index.js:494-498 | a result is kept exactly when its name, description or a tag contains the query |
| TemplateCatalogue.FlattenMembers | lib/templates/index.js:492-506 | the flattening lists exactly the catalogue's templates, each with its own category |
| TemplateCatalogue.SearchMembers | lib/templates/index.js:486-509 | nothing for an empty query; otherwise exactly the matching templates, with category key and name |
| TemplateCatalogue.SearchFollowsCategoryOrder | lib/templates/index.js:492-506 | hits follow category order |
| TemplateCatalogue.SearchOneCategory | lib/templates/index.js:493-505 | within a category, hits keep template order |
| TemplateCatalogue.FindById | lib/templates/index.js:516 | `find` by id: a template with that id, or none exactly when no template has it |
| TemplateCatalogue.FindByIdFirst | lib/templates/index.js:516 | the template found is the first of the category's templates with that id: every template before it has another id |
| TemplateCatalogue.GetTemplateIn | lib/templates/index.js:514-517 | `null` exactly for an unknown category; otherwise the template with that id, or `undefined` when none has it |
| TemplateCatalogue.GetTemplateOfMember | lib/templates/index.js:514-517 | every template is found under its category key |
| TemplateCatalogue.CategorySizes | lib/templates/index.js:6-433 | nine categories of sizes 3, 3, 3, 2, 1, 1, 1, 1, 1 |
| TemplateCatalogue.CatalogueSize | lib/templates/index.js:6-433 | sixteen templates in all |
| Batch.BatchTask.constructor | lib/batch-processor.js:36-47 | a new task is pending, with progress 0 and no result, error or times |
| Batch.BatchTask.Start | lib/batch-processor.js:49-52 | processing from any status, with the start time set |
| Batch.BatchTask.Complete | lib/batch-processor.js:54-59 | completed from any status, with the result and progress 100 |
| Batch.BatchTask.Fail | lib/batch-processor.js:61-65 | failed from any status, with the error; progress is kept |
| Batch.BatchTask.Cancel | lib/batch-processor.js:67-70 | cancelled from any status |
| Batch.FinishedFlags | lib/batch-processor.js:377-379 | one flag per task: completed, failed or cancelled |
| Batch.Keep | lib/batch-processor.js:375-383 | the walk never grows the table |
| Batch.KeepMembers | lib/batch-processor.js:375-383 | exactly the unflagged entries survive |
| Batch.KeepUnique | lib/batch-processor.js:375-383 | removal keeps keys unique |
| Batch.KeepStep | lib/batch-processor.js:376-381 | each step deletes the visited entry when flagged and keeps it otherwise |
| Batch.WalkKeeps | lib/batch-processor.js:376-381 | after visiting `i` entries the table is the kept part of those entries followed by the unvisited ones |
| Batch.DeleteFinished | lib/batch-processor.js:376-381 | the deleting walk over the entries ends in `Keep(table, flags)` |
| Batch.KeepUnfinished | lib/batch-processor.js:375-383 | what is kept is exactly the pending and processing tasks |
| Batch.FindTemplateIn | lib/batch-processor.js:390-396 | a template with the id from some category, or none exactly when no category holds it |
| Batch.FindTemplateFirstCategory | lib/batch-processor.js:390-396 | the template found is the first match of some category |
| Batch.Placeholder | lib/batch-processor.js:406 | `{{key}}` is four characters longer than the key |
| Batch.SubstitutedNoPlaceholders | lib/batch-processor.js:401-411 | code without any of the placeholders is unchanged (so is any code for an empty parameter object) |
| Batch.SubstitutionChains | lib/batch-processor.js:405-408 | a value can introduce a placeholder that a later key rewrites |
| Batch.SubstitutedOneKey | lib/batch-processor.js:405-408 | with one key, every `{{key}}` becomes the value and the text around the placeholders is kept, when that text holds no `{` |
| Batch.SubstitutedOwnPlaceholders | lib/batch-processor.js:405-408 | values equal to their own placeholders leave the code unchanged |
| Batch.Progress | lib/batch-processor.js:147 | `Math.round((i+1)/total*100)`, on exact rationals with halves rounded up |
| Batch.ProgressBounds | lib/batch-processor.js:147 | progress is within 0..100 and is 100 after the last item |
| Batch.ProgressMonotone | lib/batch-processor.js:147 | progress never goes down |
| Batch.Handled | lib/batch-processor.js:106-107 | the loop handles every item, or stops right after the item during which a cancellation arrived |
| Batch.ConvertResult | lib/batch-processor.js:129-143 | success exactly for a generated reply; the result carries the item's id and text |
| Batch.ConvertResultsInOrder | lib/batch-processor.js:103-148 | one result per handled item, in input order |
| Batch.ResultName | lib/batch-processor.js:257 | the result name is never empty |
| Batch.AppliedResult | lib/batch-processor.js:255-261 | the result carries the substituted code, the template id and `params.id` |
| Batch.AppliedResultsInOrder | lib/batch-processor.js:244-273 | one result per parameter set, in order |
| Batch.BatchProcessor.constructor | lib/batch-processor.js:77-82 | an empty task table over the built-in catalogue |
| Batch.BatchProcessor.TaskOf | lib/batch-processor.js:361-363 | a task exactly for a stored id |
| Batch.BatchProcessor.AddTask | lib/batch-processor.js:87-92 | stores a new pending task under the id |
| Batch.BatchProcessor.CancelTask | lib/batch-processor.js:344-356 | only a processing task is cancelled, which changes its status and end time and nothing else; unknown ids and any other status leave the task untouched |
| Batch.BatchProcessor.ClearCompletedTasks | lib/batch-processor.js:375-383 | the walk deletes exactly the completed, failed and cancelled tasks and keeps the order of the rest |
| Batch.BatchProcessor.ApplyTemplateParameters | lib/batch-processor.js:401-411 | the code after replacing each `{{key}}`, key by key |
| Batch.BatchProcessor.BatchConvert | lib/batch-processor.js:97-157 | one result per handled item, in order; the task ends completed with progress 100, even after a cancellation |
| Batch.BatchProcessor.ApplyAll | lib/batch-processor.js:244-273 | one result per parameter set; progress reaches 100 when there was any |
| Batch.BatchProcessor.BatchApplyTemplate | lib/batch-processor.js:231-282 | an error and a failed task exactly when no template has the id; otherwise one result per parameter set, in order, and the task completes |
| KeyboardShortcuts.Modifiers | hooks/use-keyboard-shortcuts.js:185-189 | at most four modifiers |
| KeyboardShortcuts.KeyName | hooks/use-keyboard-shortcuts.js:192-197 | only the space bar and the arrow keys are renamed |
| KeyboardShortcuts.Matched | hooks/use-keyboard-shortcuts.js:173-208 | an action runs exactly when the hook is enabled, the event is not an unmodified key in a text field, and the chord is in the table; the action is the table's |
| KeyboardShortcuts.KeysLackA | hooks/use-keyboard-shortcuts.js:11-41 | no table key contains `a`, so none has `alt` |
| KeyboardShortcuts.EveryKeyHasCtrlOrCmd | hooks/use-keyboard-shortcuts.js:11-41 | every table key starts with `ctrl+` or `cmd+` |
| KeyboardShortcuts.NoKeyHasCtrlAndCmd | hooks/use-keyboard-shortcuts.js:11-41 | no table key starts with `ctrl+cmd+` |
| KeyboardShortcuts.NoAltChordMatches | hooks/use-keyboard-shortcuts.js:185-204 | a chord with alt held matches nothing |
| KeyboardShortcuts.NoCtrlAndCmdChordMatches | hooks/use-keyboard-shortcuts.js:185-204 | a chord with ctrl and meta both held matches nothing |
| KeyboardShortcuts.TwinsShareAction | hooks/use-keyboard-shortcuts.js:11-41 | `ctrl+X` is in the table exactly when `cmd+X` is, with the same shortcut |
| KeyboardShortcuts.TwinEntries | hooks/use-keyboard-shortcuts.js:11-41 | the table alternates each `ctrl+` key with its `cmd+` twin |
| KeyboardShortcuts.ChordSplits | hooks/use-keyboard-shortcuts.js:185-201 | splitting the chord on `+` gives the modifiers and the key back |
| KeyboardShortcuts.ModifiersMembers | hooks/use-keyboard-shortcuts.js:186-189 | each modifier name is listed exactly when its key is held |
| KeyboardShortcuts.ChordDeterminesEvent | hooks/use-keyboard-shortcuts.js:185-201 | equal chords mean equal modifiers and key names |
| KeyboardShortcuts.CtrlZUndoes | hooks/use-keyboard-shortcuts.js:13 | Ctrl+Z undoes, inside a text field too |
| KeyboardShortcuts.CmdShiftZRedoes | hooks/use-keyboard-shortcuts.js:18 | Cmd+Shift+Z redoes |
| KeyboardShortcuts.ExecuteAction | hooks/use-keyboard-shortcuts.js:94-157 | undo and redo touch the store only when possible; callbacks run only when given; save without a callback autosaves non-empty code; each action's store change and effect |
| KeyboardShortcuts.BuildChord | hooks/use-keyboard-shortcuts.js:185-201 | the pushes build exactly `Chord(ev)` |
| KeyboardShortcuts.HandleKeyDown | hooks/use-keyboard-shortcuts.js:173-209 | the action run is `Matched(enabled, ev)`; with no match, nothing changes |
| Page.Remaining | app/page.js:88-93 | `max(0, limit - today's count)`, with a missing day counting 0 |
| Page.Incremented | app/page.js:76-86 | today gains an entry, and no other day is added |
| Page.IncrementedCounts | app/page.js:76-86 | today's count goes up by one and every other day is unchanged |
| Page.RemainingAfterIncrement | app/page.js:76-93 | each use takes one off what remains, down to 0 |
| Page.FreshDayAllowsLimit | app/page.js:69-93 | on a fresh day exactly `limit` uses are allowed |
| Page.UsageStorage.constructor | app/page.js:65 | the counter over the given data and limit |
| Page.UsageStorage.GetRemainingUsage | app/page.js:88-93 | what remains today, never negative |
| Page.UsageStorage.CheckUsageLimit | app/page.js:69-74 | true exactly when a use remains |
| Page.UsageStorage.IncrementUsage | app/page.js:76-86 | the data becomes `Incremented(old data, today)` |
| Page.ReplyOutcome | app/page.js:297-325 | generated exactly for a reply with no error and non-empty code |
| Page.ApplyReply | app/page.js:297-320 | the outcome is `ReplyOutcome(reply)`; only a generated diagram updates the code and the log, and it counts a use only without unlimited access |
| Page.InputGuardsComeFirst | app/page.js:271-291 | blank or over-long text is turned away whatever the usage and access level |
| Page.UnlimitedIgnoresUsage | app/page.js:283-291 | with unlimited access the usage never stops a click |
| Page.GeneratedNeedsEveryGuard | app/page.js:271-320 | a generated diagram needs text, within the limit, and a use left or unlimited access |
| Page.RunGeneration | app/page.js:293-325 | the flags, the editor, the log and the usage after the service call, for each outcome |
| Page.HandleGenerateClick | app/page.js:271-318 | rejected input changes nothing; the limit, checked on the day read before the call, only opens the dialog; only a generated diagram updates the code and counts a use on the day read after the reply, and only without unlimited access |
| HistoryDialog.Without | components/history-dialog.jsx:192 | `filter(id => id !== x)` keeps exactly the other ids |
| HistoryDialog.ToggleCompare | components/history-dialog.jsx:189-199 | a selected id is removed; otherwise it is appended when fewer than two are selected, or replaces the first |
| HistoryDialog.WithoutDistinct | components/history-dialog.jsx:192 | removal keeps the selection duplicate-free |
| HistoryDialog.ToggleCompareKeepsSelectionSmall | components/history-dialog.jsx:189-199 | the selection never exceeds two ids and stays duplicate-free |
| HistoryDialog.ToggleCompareTwice | components/history-dialog.jsx:191-194 | toggling a new id twice, with room, restores the selection |
| HistoryDialog.TrimNonEmpty | components/history-dialog.jsx:109 | no parsed tag is empty |
| HistoryDialog.ParseTags | components/history-dialog.jsx:109 | every tag is non-empty and holds no comma |
| HistoryDialog.TrimNonEmptyLacks | components/history-dialog.jsx:109 | trimming adds no character to a piece |
| HistoryDialog.ParseJoinedTags | components/history-dialog.jsx:109 | clean tags joined with commas parse back to themselves |
| HistoryDialog.BlankFieldNoTags | components/history-dialog.jsx:109 | an empty field and `" , "` give no tags |
| HistoryDialog.ManualSaveRequest | components/history-dialog.jsx:102-110 | refused exactly when the title trims to nothing; otherwise the untrimmed title, the description and the parsed tags |
| HistoryDialog.DialogFilters | components/history-dialog.jsx:53-58 | the saved-kind choice is passed as a string |
| HistoryDialog.DialogFiltersHideEverything | components/history-dialog.jsx:96-99 | as written, every choice of the saved-kind select, the default included, gives an empty list |
| HistoryDialog.IntendedFilters | components/history-dialog.jsx:233-245 | `true`/`false` become booleans; `all` is no filter |
| HistoryDialog.SelectEverything | lib/history-manager.js:317-346 | filters that every record passes keep everything |
| HistoryDialog.IntendedDefaultShowsAll | components/history-dialog.jsx:53-58 | with the intended filters the default lists every record, newest first |
| HistoryDialog.IntendedKindSelects | components/history-dialog.jsx:233-245 | with the intended filters, choosing a kind lists exactly the records of that kind that match the rest |
| Text.Trim | app/page.js:272 | `trim` leaves no leading or trailing whitespace, and is empty exactly for all-whitespace text |
| Text.SplitJoin | components/history-dialog.jsx:109 | splitting a join of comma-free pieces recovers them |
| Text.ReplaceAllAbsent | lib/batch-processor.js:407 | a global replace of an absent pattern changes nothing |
| Text.ReplaceAllWithItself | lib/batch-processor.js:407 | replacing a pattern by itself changes nothing |
| Text.ReplaceAllJoin | lib/batch-processor.js:407 | when no piece holds the pattern's first character, a global replace of pieces joined by the pattern joins them by the value |
| Text.CountMatchesPositive | lib/history-manager.js:82 | `match(/-->/g)` finds something exactly when the text includes `-->` |
| Text.CountMatchesJoin | lib/history-manager.js:82 | a pattern without a newline never matches across one, so the matches in two texts joined by a newline add up |
| Text.CloseBracketJoin | lib/history-manager.js:83 | the lazy `.*?` stops at a line break, so the closing `]` of a label is found on its own line |
| Text.CountBracketNodesJoin | lib/history-manager.js:83 | the `[...]` labels in two texts joined by a newline add up |
| InsertionMap.SetProperties | lib/history-manager.js:204 | `Map.set` keeps keys unique, stores the value, leaves other keys alone, and keeps an existing key's position |
| InsertionMap.DeleteProperties | lib/history-manager.js:259-265 | `Map.delete` keeps keys unique, removes the key, and shrinks by one exactly when it was present |
| Sorting.SortDesc | lib/history-manager.js:237-238 | the sort orders by non-increasing key and is a permutation |
| Sorting.SortStable | lib/history-manager.js:237-238 | the sort is stable |

## Left out

- Persistence: `localStorage`, `saveToStorage`/`loadFromStorage`, the store's `persist`/`partialize` and the `usageData` JSON. Each store starts from, and ends in, its in-memory value.
- Clocks, ids and randomness are parameters: `Date.now()`, `toLocaleString` and the `Math.random` ids.
- `getRandomTemplate` is not modelled, because it is random.
- `lib/utils.js` (`isWithinCharLimit`) and the configuration service (`hasUnlimitedAccess`) are not part of this model. Their results are boolean parameters of `Page.HandleGenerateClick`.
- The generation service's streaming is not modelled. The text its chunk callback leaves in the editor is the `streamed` part of the reply.
- Toast messages are modelled only in `KeyboardShortcuts.Executed`. The dialogs and toasts of the other React components are left out.
- The platform-dependent help text of `showShortcutHelp` is left out. `ShowHelp` only records that help was shown.
- Listener registration and the autosave-restore effects of the keyboard hook are left out, as is `setInterval` auto-saving (`initAutoSave`/`stopAutoSave`).
- KeyboardShortcuts.Matched: the table is looked up as a plain list of its twenty keys. The original's object lookup would also find names inherited from `Object.prototype`, such as `constructor`, if a key event ever produced one as its chord.
- `batchExport` and `batchValidate` are not modelled: they call into Mermaid rendering and export libraries. The abort controllers of `cancelTask` are left out too.
- Batch.BatchProcessor.BatchApplyTemplate: there is no cancellation check inside its loop. The loop awaits nothing, so no cancellation can arrive while it runs, and its `catch` branch (a failure inside `applyTemplateParameters`) is not modelled.
- Batch.BatchProcessor.ApplyTemplateParameters: keys are matched literally. A regular-expression metacharacter in a key, or a `$` pattern in a value, behaves differently in the original.
- Batch.Progress and History.RoundedMean compute exact rational rounding with halves up. Floating-point `Math.round` can differ at representation boundaries.
- Text.Lower lowercases ASCII letters only; Unicode case mapping is not modelled.
- `getMemoryUsage`, `shouldCleanup`, `forceGC`, `cleanupMermaidDOM`, `useMemoryOptimization`, `debounce` and `throttle` are left out: they are DOM, timer or `performance.memory` code.
- MemoryOptimizer.LimitTextSize: `null` and `undefined` texts are not modelled; only the empty string stands for a falsy text.
- The `metadata` bag of a history record is left out; the core never reads it.
- HistoryRecords.ShortTitle: lengths count code points, where JavaScript's `length` and `substring` count UTF-16 units. A title of 16 emoji is 32 units long, so the original cuts it to 30 units plus `...`, splitting a surrogate pair; the model keeps it whole.
- MemoryOptimizer.LimitTextSize: the limit counts code points, not the UTF-16 units that JavaScript's `length` and `substring` count.
- History.Diff: the `sizeDiff` lengths count code points, not UTF-16 units.
- TemplateCatalogue.GetTemplateIn: the category table is a list of its own keys. In the original the object lookup also finds `Object.prototype` names, so `getTemplate('constructor', id)` throws a `TypeError` (`find` is not a function) where the model reports an unknown category.
- TemplateCatalogue.CategoryName: for a category such as `constructor`, the original returns the inherited function instead of the key; the model returns the key.
- TemplateCatalogue.CategoryIcon: the same inherited names are not modelled; the model returns the fallback icon for them.
- History.TallyUpTo: the tally is an insertion-ordered list. The original's plain object lists integer-like diagram types first in `Object.entries`, and a type such as `constructor` starts from an inherited function instead of 0.
- HistoryRecords.NewRecord: imported fields are typed. `autoSaved` is a boolean or missing and `tags` a list of strings or missing, where the original's `data.autoSaved || false` and `data.tags || []` keep any truthy value from an imported file, such as `"yes"` or a non-array.
- History.ExportHistory: `getFormattedTime` and the export timestamp are parameters, and `JSON.stringify` formatting is not modelled.
- Page.HandleGenerateClick: `incrementUsage` and the `getRemainingUsage` right after it each read the date; the model takes both readings as the same day, `today`.
- Page.UsageStorage.constructor: `parseInt` of the environment limit is not modelled. The limit is an integer parameter, 5 when unset (`Page.DefaultUsageLimit`). The stored counts are taken to be integers.
- `compareRecords`, `exportHistory` and `importHistory` report errors by throwing. Here they return a `Result` error.

## Findings

| source | as written | input that shows it | evidently intended | confidence | as-written member | corrected member |
|---|---|---|---|---|---|---|
| components/history-dialog.jsx:53-58 with lib/history-manager.js:328-329 | The dialog passes the saved-kind select value (`'all'`, `'true'`, `'false'`, all strings) as `filters.autoSaved`. Search then tests `record.autoSaved === value` against a boolean, so the filtered list is always empty. | Any non-empty store, with the dialog's default filters (`autoSaved: 'all'`) and an empty query. | `'all'` applies no kind filter; `'true'` and `'false'` select automatic and manual saves. | not executed | HistoryDialog.DialogFiltersHideEverything | HistoryDialog.IntendedDefaultShowsAll |
