# Task manager core in Dafny

This project models the engine of a small browser to-do application:

- **The `TaskStore` class in `store.js`.** It keeps the collection of tasks, a filter state (keyword, tag, status) and a sort state (key, order). It can:
  - list the tasks that pass the filter, in sorted order;
  - find a task by id;
  - tally the tasks by status;
  - add, update, delete and toggle tasks, writing the collection to its repository after each change.
- **The CSV export of `utils.js`.** `escapeCsvField` quotes a field, and `generateCsv` turns the collection into a header line plus one line per task, joined with CRLF.

The project has these modules:

| module | file | contents |
|---|---|---|
| `Wrappers` | `wrappers.dfy` | `Option`. |
| `Seqs` | `seqs.dfy` | Counterparts of JavaScript's `filter`, `map`, `join` and `split` (split on a single character). |
| `Text` | `text.dfy` | `toLowerCase`, `includes`, and `<` on strings. |
| `Tasks` | `tasks.dfy` | The task record and its status. |
| `Store` | `store.dfy` | The filter predicate, the comparator, a sort specified by its result, the tally, and the `TaskStore` class. |
| `StoreProps` | `store_props.dfy` | Properties that span several operations. |
| `Utils` | `utils.dfy` | The CSV writer. |
| `CsvReader` | `csv_reader.dfy` | A reference reader for the CSV dialect the writer emits. |
| `CsvRoundTrip` | `csv_round_trip.dfy` | Proof that reading back the output of `generateCsv` gives the header row and each task's values, unchanged. |

The class has these parts:

- **Fields.** `TaskStore` holds `tasks`, `filter` and `sort`.
- **Mutating methods.** They reassign these fields, and each `ensures` states the whole new state.
- **Persisted collection.** A ghost field `persisted` records the collection last handed to `repository.saveAll`. Each mutating method states whether it saved and what it saved.
- **Queries.** The read-only queries are functions that read the object. Each is specified against a pure function of the fields (`Visible`, `SortTasks`, `Tally`, `IndexOf`), and the properties are proved about those functions.

## Behaviour of the code worth knowing

- **`setSort`.** The doc comment's example value `created_at_desc` (`store.js:88`) is split at every `_` (`store.js:91`), and the first two pieces are kept.
  - So that value yields key `created` and order `at`.
  - No task has a `created` field, so every pair compares equal and the view keeps collection order: oldest first, where newest first was asked for.
  - `StoreProps.CreatedAtDescValue` and `StoreProps.CreatedAtDescKeepsOrder` state this.
  - A value without `_` leaves `order` undefined. It is modelled as `None` and sorts descending.
- **`toggleTaskStatus`.** It maps every status other than `done` to `done`, so a `doing` task becomes `done` (`store.js:144`).

## Model

| member | source | states |
|---|---|---|
| `Store.TaskStore.constructor` | store.js:5-10 | A new store has no tasks, the filter keyword `''`, tag `''`, status `all`, and the sort `created_at` / `desc`. |
| `Store.TaskStore.Init` | store.js:15-17 | The collection becomes what the repository returned: the stored collection, or `[]` when storage is empty or unreadable (repository.js:13-21). Filter and sort are unchanged. |
| `Store.TaskStore.GetFilteredAndSortedTasks` | store.js:23-56 | The view holds each task that passes the filter as often as the collection does, and nothing else. It is ordered by the comparator. It is the filtered collection itself when that is already in order. |
| `Store.Visible` | store.js:25-36 | Every kept task passes the keyword, tag and status tests. Each passing task is kept with its multiplicity, and every failing task is dropped. |
| `Store.Matches` | store.js:25-35 | The filter passes a task when all three tests pass. An empty filter passes every task. A task that passes a status filter other than `all` has that status. |
| `Store.KeywordMatch` | store.js:26-28 | A task passes exactly when the keyword is empty, or the lowered keyword occurs at some offset of the lowered title or of some lowered tag. |
| `Store.TagMatch` | store.js:30-31 | A tag filter equal to one of the task's tags passes it. A task without tags passes only the empty tag filter. |
| `Store.StatusMatch` | store.js:33 | Status `all` passes every task. A status that is not `all`, `todo`, `doing` or `done` passes none. |
| `Store.MergeFilter` | store.js:83 | Each key supplied by `setFilter` overwrites its slot. Every other slot keeps its old value. |
| `Store.TaskStore.SetFilter` | store.js:82-84 | The filter becomes the merge of the old filter and the patch. Tasks, sort and the persisted collection are unchanged. |
| `StoreProps.DefaultFilterShowsAll` | store.js:8 | Under the default filter the filtered collection is the whole collection, in the same order. |
| `Tasks.StatusName` | store.js:33 | A status is stored as one of `todo`, `doing` or `done`. |
| `Tasks.StatusNameInjective` | store.js:33 | Two statuses have the same stored name exactly when they are the same status. |
| `StoreProps.StatusOnlyMatches` | store.js:33 | A filter with only a status passes a task exactly when the task has that status. |
| `StoreProps.VisibleSingleton` | store.js:25-36 | One task is kept exactly when it passes the filter. |
| `StoreProps.StatusViewCountIsStat` | store.js:25-36 | With only a status filter, the number of tasks shown equals that status's count in `getStats`. |
| `StoreProps.VisibleLastCount` | store.js:25-36 | Appending a task adds one to a status view exactly when the task has that status. |
| `Text.Lower` | store.js:27 | `toLowerCase` keeps the length and lowers each character. |
| `Text.LowerChar` | store.js:27 | Upper-case ASCII letters map to their lower-case letters. Every other character is unchanged. |
| `Text.Contains` | store.js:27-28 | `includes`: a contained string is no longer than the text, and the empty string is contained everywhere. |
| `Text.ContainsAt` | store.js:27-28 | A string contains every substring found at some offset. |
| `Text.ContainsOffset` | store.js:27-28 | A contained substring is found at some offset: the converse of `ContainsAt`. |
| `Text.ContainsIff` | store.js:27-28 | `includes` holds exactly when the substring occurs at some offset. |
| `Store.FieldValue` | store.js:41-42 | `task[key]`: `undefined` for a key naming no field. A string for every field but `due`. Under `due`, a string exactly when the task has a `due` value, and truthy exactly when it has a deadline. |
| `Store.Truthy` | store.js:46-47 | `undefined` and `''` are falsy, and every non-empty string is truthy. |
| `Store.ValueLess` | store.js:50-51 | `<` never holds with `undefined` on either side, and never between equal values. |
| `Text.LexLess` | store.js:50-51 | `<` on strings: never between equal strings, never below the empty string, and the empty string is below every non-empty one. |
| `Store.Compare` | store.js:40-53 | The comparator returns -1, 0 or 1. Sorting by `due`, a task without a deadline compares as 1 (after), and a dated task against an undated one as -1 (before). |
| `StoreProps.CompareByValue` | store.js:50-52 | When both values are strings (any key but `due`, or `due` with both tasks dated), the comparator returns 0 exactly for equal values. It returns -1 exactly when `a`'s value is below `b`'s under `asc` (above it under any other order), and 1 exactly in the opposite case. |
| `Store.BeforeIrreflexive` | store.js:40-53 | The comparator never places a task before itself. |
| `Store.BeforeTransitive` | store.js:40-53 | "Must come before" under the comparator is transitive. |
| `Text.LexLessIrreflexive` | store.js:50-51 | No string is below itself under `<`. |
| `Text.LexLessTransitive` | store.js:50-51 | `<` on strings is transitive. |
| `Text.LexLessAsymmetric` | store.js:50-51 | Two strings are never each below the other. |
| `Text.LexLessTotal` | store.js:50-51 | Two different strings are ordered one way or the other. |
| `Text.LexLessAt` | store.js:50-51 | Strings that agree up to a position and differ there are ordered by the character at that position. |
| `Store.Insert` | store.js:40-53 | Inserting keeps the order and adds exactly one element. An element that need not precede any other goes to the end. |
| `Store.SortTasks` | store.js:40-53 | The sort result is a permutation of its input and is ordered by the comparator. An input already in order is returned unchanged. |
| `Store.HeadFirst` | store.js:40-53 | In an ordered sequence nothing after the head must come before it. |
| `Store.ConsInOrder` | store.js:40-53 | An ordered tail stays ordered below a head that nothing must precede. |
| `Store.FrontInOrder` | store.js:40-53 | A task that must precede the head of an ordered sequence can go in front of it, and the sequence stays ordered. |
| `Store.HeadStaysInOrder` | store.js:40-53 | The head of an ordered sequence may stay in front of any ordered rearrangement of its tail plus one element that does not precede the head. |
| `StoreProps.DatedBeforeUndated` | store.js:44-48 | Sorted by `due`, every task with a deadline precedes every task without one, in either order. |
| `StoreProps.DatedInDueOrder` | store.js:44-51 | Sorted by `due`, deadlines are ascending for order `asc` and descending for every other order. |
| `StoreProps.FieldInOrder` | store.js:50-51 | Sorted by any field but `due`, the field's values ascend for order `asc` and descend for every other order. |
| `StoreProps.DefaultSortNewestFirst` | store.js:9 | The initial sort lists the tasks newest first, by `created_at`. |
| `StoreProps.UndatedKeepOrder` | store.js:44-47 | Sorted by `due`, in either order, the undated tasks keep their collection order. |
| `StoreProps.InsertDatedKeepsUndated` | store.js:44-47 | Inserting a dated task leaves the undated tasks as they were. |
| `StoreProps.InsertUndatedAtEnd` | store.js:46 | Sorting by `due`, an undated task is inserted after all the others, so it also becomes the last undated task. |
| `StoreProps.FilterSnoc` | store.js:25 | Filtering with one more passing element at the end adds it at the end. |
| `Seqs.FilterLast` | store.js:25 | The last element ends the filtered sequence exactly when it passes. |
| `StoreProps.SortPairSwaps` | store.js:40-53 | Two tasks of which the second must come first are swapped by the sort. |
| `StoreProps.DueAscendingSwaps` | store.js:44-51 | Two dated tasks sorted ascending by `due` come out earlier deadline first. |
| `StoreProps.FirstBeforeFifth` | store.js:50 | `2024-01-01` is below `2024-01-05` under `<`. |
| `StoreProps.DueAscendingExample` | store.js:44-51 | Deadlines 2024-01-05 and 2024-01-01, sorted `due_asc`, come out 2024-01-01 first. |
| `StoreProps.UnknownKeyKeepsOrder` | store.js:41-52 | A sort key that names no task field leaves the collection in its order. |
| `Store.TaskStore.GetTaskById` | store.js:63-65 | Gives nothing exactly when no task has the id. Otherwise it gives the first task with that id. |
| `Store.IndexOf` | store.js:117 | `findIndex`: absent exactly when no task has the id. Otherwise it is the position of the first task with it. |
| `Store.TaskStore.GetStats` | store.js:71-76 | Each status's count is the number of tasks with that status. The three counts add up to the number of tasks. |
| `Store.Bump` | store.js:73 | `acc[task.status]++` adds one to that status's count and leaves the other counts unchanged. |
| `Store.Tally` | store.js:72-75 | The three counts of the reduction add up to the number of tasks. |
| `Store.TallyCountsStatuses` | store.js:72-75 | Each count of the reduction is the number of tasks with that status. |
| `Store.Statuses` | store.js:73 | The statuses of the collection, in collection order. |
| `Store.ParseSort` | store.js:91 | The key is the text before the first `_`, or all of the value when it has none. The order is absent exactly when there is no `_`. Otherwise the order is the text between the first `_` and the next `_` or the end. |
| `Store.TaskStore.SetSort` | store.js:90-93 | The sort state becomes the parsed value. Tasks, filter and the persisted collection are unchanged. |
| `StoreProps.ParseSortOfJoined` | store.js:91 | A value made of `_`-free parts joined by `_` sorts by its first part, in the order of its second part. |
| `StoreProps.DueAscValue` | store.js:91-92 | `due_asc` parses to key `due`, order `asc`. |
| `StoreProps.CreatedAtDescValue` | store.js:88-92 | `created_at_desc` parses to key `created`, order `at`. |
| `StoreProps.CreatedAtDescKeepsOrder` | store.js:88-92 | Sorting with the parsed `created_at_desc` keeps collection order. |
| `Seqs.Split` | store.js:91 | `split` on one character gives at least one part. No part holds the separator, and joining the parts with it gives the input back. |
| `Seqs.SplitJoin` | store.js:91 | Splitting undoes joining when no part holds the separator. |
| `Seqs.SplitPrefix` | store.js:91 | A separator-free run followed by the separator splits off as the first part. |
| `Seqs.SplitNoSeparator` | store.js:91 | A string without the separator splits into itself alone. |
| `Seqs.JoinHead` | utils.js:56 | Joining puts exactly one separator between the first part and the rest. |
| `Store.TaskStore.AddTask` | store.js:99-110 | The new task goes at the end, with the given id and fields, status `todo`, and both timestamps equal. It can be found by its id. Unique ids stay unique. The new collection is saved. |
| `Store.TaskStore.UpdateTask` | store.js:116-126 | An unknown id changes and saves nothing. Otherwise the first task with the id is replaced by its merge with the patch, and the collection is saved. Unique ids stay unique. |
| `Store.Merge` | store.js:119-123 | Patched fields overwrite, the others are kept, `created_at` is kept, and `updated_at` becomes now. |
| `Store.TaskStore.DeleteTask` | store.js:132-135 | The collection becomes the tasks with other ids, and is saved even when nothing was removed. Unique ids stay unique. |
| `Store.RemoveId` | store.js:133 | Only tasks with another id remain, with their multiplicities. An absent id changes nothing. |
| `Store.RemoveIdHead` | store.js:133 | Removal decides the first task and then the rest. |
| `Store.RemoveIdKeepsUnique` | store.js:133 | Removing by id keeps ids unique. |
| `Store.UniqueIdsCons` | store.js:133 | A task whose id is not in a unique-id collection can be put in front of it. |
| `StoreProps.RemoveIdAppend` | store.js:133 | Removal distributes over concatenation, so survivors keep their relative order. |
| `StoreProps.RemoveIdIdempotent` | store.js:133 | Deleting the same id twice is deleting it once. |
| `Seqs.Filter` | store.js:25 | `filter` keeps only elements that pass, each passing element with its multiplicity. |
| `Seqs.FilterAppend` | store.js:133 | Filtering distributes over concatenation. |
| `Seqs.FilterKeepsAll` | store.js:25 | A filter every element passes changes nothing. |
| `Seqs.FilterIdempotent` | store.js:133 | Filtering twice is filtering once. |
| `Store.TaskStore.ToggleTaskStatus` | store.js:141-148 | An unknown id changes and saves nothing. Otherwise the first task with the id has its status toggled and `updated_at` set to now, and the collection is saved. |
| `Store.Toggled` | store.js:144-145 | `done` becomes `todo`, and every other status becomes `done`. Only `status` and `updated_at` change. |
| `StoreProps.ToggleTwice` | store.js:144 | Toggling twice restores `todo` and `done`. `doing` goes to `done`, then to `todo`. |
| `StoreProps.ToggleMovesOneCount` | store.js:141-148 | A toggle moves one task from its old status's count to its new one. |
| `Store.TaskStore.GetAllTasks` | store.js:154-156 | Returns the whole collection in storage order, whatever the filter and sort. |
| `StoreProps.BuyMilkScenario` | store.js:99-148 | On a fresh store, adding a task, toggling it twice and deleting it gives the stats 1 todo, then 1 done, then 1 todo, then none. |
| `Utils.DoubleQuotes` | utils.js:30 | Every double quote is doubled, adding one character per quote. Quote-free text is unchanged. |
| `Utils.UndoubleDouble` | utils.js:30 | Reading doubled quotes back undoes the doubling. |
| `Utils.NeedsQuoting` | utils.js:28 | A value that needs no quoting has no comma, so splitting it at commas gives it back whole. The empty value needs no quoting. |
| `Utils.EscapeCsvField` | utils.js:22-34 | `null`/`undefined` gives the empty field. Text without a comma, quote or LF is kept as it is. Otherwise the text is wrapped in quotes with its quotes doubled, and the body reads back to the text. |
| `Utils.EscapeCommaExample` | utils.js:28-31 | `a,b` is written as `"a,b"`. |
| `Utils.EscapeQuoteExample` | utils.js:28-31 | `a"b` is written as `"a""b"`. |
| `Utils.EscapePlainExamples` | utils.js:23-33 | `null` gives the empty field. `plain` and text with a lone CR are written unquoted. |
| `Utils.HeaderNeedsNoQuoting` | utils.js:42 | No column name needs quoting. |
| `Utils.HeaderLine` | utils.js:56 | The header line splits at commas into exactly the seven column names. |
| `Utils.RowValues` | utils.js:44-53 | The seven values of a task's row, in column order. Tags are joined with `;`, a missing or empty deadline is `''`, and the status is its stored name. |
| `Tasks.DueText` | utils.js:48 | `task.due \|\| ''`: the deadline when present and non-empty, else `''`. |
| `Utils.EscapeAll` | utils.js:54 | Each value is passed through `escapeCsvField`. |
| `Utils.EscapeRow` | utils.js:54 | `values.map(escapeCsvField).join(',')`: when no value needs quoting, splitting the line at commas gives the values back. |
| `Seqs.Map` | utils.js:43 | `map` keeps the length and applies the callback at each position. |
| `Seqs.MapSnoc` | utils.js:43 | Mapping one more element at the end adds its image at the end. |
| `Seqs.MapCons` | utils.js:56 | Mapping one more element at the front adds its image at the front. |
| `Seqs.MapCompose` | utils.js:43-54 | Mapping with a composition is mapping twice. |
| `Utils.TaskLines` | utils.js:43-55 | One escaped line per task, in collection order. |
| `Utils.TaskLinesSnoc` | utils.js:43-55 | One more task adds its line last. |
| `Utils.GenerateCsv` | utils.js:41-57 | An empty collection gives just the header line. |
| `Utils.GenerateCsvSnoc` | utils.js:56 | One more task appends CRLF and its line, never a trailing line break. |
| `Seqs.JoinSnoc` | utils.js:56 | Joining one more part appends the separator and the part. |
| `Seqs.JoinLength` | utils.js:54 | `join`: the result's length is the parts' lengths plus one separator between each pair of neighbours. |
| `CsvReader.ReadBare` | utils.js:33 | Reference reader, the inverse of the unquoted branch: a bare field ends at the first comma, CR-LF or end of text (no field end occurs inside it), and the field and the rest give the input back. |
| `CsvReader.ReadQuotedBody` | utils.js:30-31 | Reference reader, the inverse of the quote doubling: when the body is closed, it ends at a quote, and what remains is the input's suffix after that quote, shorter than the input. |
| `CsvReader.ReadQuotedBodyClose` | utils.js:31 | A single quote not followed by another quote closes the body. |
| `CsvReader.ReadQuotedBodyQuote` | utils.js:30 | A doubled quote is read as one quote of the value. |
| `CsvReader.ReadQuotedBodyChar` | utils.js:30 | Any other character is read as itself. |
| `CsvReader.ReadField` | utils.js:22-34 | Reference reader, the inverse of `escapeCsvField`: a field that does not start with a quote is read bare, and any field read leaves the rest at a field end. |
| `CsvReader.ReadRecord` | utils.js:54 | Reference reader, the inverse of `join(',')`: a record has at least one field and ends at CR-LF or the end of the text. |
| `CsvReader.ReadRecords` | utils.js:56 | Reference reader, the inverse of `join('\r\n')`: a document has at least one record, each with at least one field. |
| `CsvRoundTrip.ReadBareUnquoted` | utils.js:33 | A value kept unquoted is read back whole, up to the next field end. |
| `CsvRoundTrip.ReadQuotedBodyDoubled` | utils.js:30-31 | A quoted body with doubled quotes reads back to the original value. |
| `CsvRoundTrip.FieldRoundTrip` | utils.js:22-34 | Every escaped value, followed by a field end, reads back to itself and the rest. |
| `CsvRoundTrip.QuotedFieldRoundTrip` | utils.js:28-31 | Every quoted value reads back to itself. |
| `CsvRoundTrip.BareFieldRoundTrip` | utils.js:33 | Every unquoted value reads back to itself. |
| `CsvRoundTrip.EscapeRowCons` | utils.js:54 | An escaped row is its first escaped field, a comma, and the escaped rest. |
| `CsvRoundTrip.RecordRoundTrip` | utils.js:54 | A row of values written by `map(escapeCsvField).join(',')` reads back to the same values. |
| `CsvRoundTrip.Lines` | utils.js:54-56 | One escaped line per record. |
| `CsvRoundTrip.RecordsRoundTrip` | utils.js:56 | Records written as escaped lines joined with CRLF read back to the same records. |
| `CsvRoundTrip.HeaderLineIsEscaped` | utils.js:42-56 | The header line is the header row passed through `escapeCsvField`, since no name needs quoting. |
| `CsvRoundTrip.Rows` | utils.js:43-55 | The value rows, one per task, in collection order. |
| `CsvRoundTrip.Table` | utils.js:41-56 | The header row, then each task's values. Every row has seven fields. |
| `CsvRoundTrip.TaskLinesAreLines` | utils.js:43-55 | The task lines are the escaped value rows. |
| `CsvRoundTrip.ExportLines` | utils.js:56 | The header line and the task lines are the escaped table. |
| `CsvRoundTrip.GenerateCsvRoundTrip` | utils.js:41-57 | Reading `generateCsv`'s output gives back the header row and each task's seven values, whatever the titles, tags and deadlines contain. |

## Left out

- **Other files.** `view.js` and `main.js` (DOM rendering and event wiring) and `repository.js` (`localStorage` JSON storage) are not part of this model.
  - The repository appears only as the value handed to `Init` and as the ghost field `persisted`, which stands for the argument of `saveAll`. `Init` requires that value to be the persisted collection or `[]`.
  - A failed save is not modelled.
- **Other `utils.js` functions.** `formatDate`, `downloadFile` and `sanitizeHTML` depend on the clock's time zone and the DOM, and are not modelled.
- **Ids and timestamps.** `crypto.randomUUID()` and `new Date().toISOString()` become the parameters `freshId` and `now`. `AddTask` requires the id to be unused, which a random UUID is with overwhelming probability.
- `Text.Lower`, `Text.LowerChar`: lower only the ASCII letters A-Z, and keep every other character. JavaScript's `toLowerCase` also lowers non-ASCII capitals such as `Ä`. Unicode case mapping is not modelled.
- `Text.LexLess`: compares characters as Dafny `char`s. JavaScript compares UTF-16 code units, which differs only for characters outside the Basic Multilingual Plane.
- `Store.SortTasks`: specified by its result (a permutation, ordered by the comparator, unchanged when already ordered), not by the exact sequence of swaps in the engine's `sort`.
  - When sorting by `due`, two undated tasks each claim to go after the other (the comparator returns 1 both ways). No total order honours that, so the model uses "must come before" (a -1 result) as the ordering. `StoreProps.UndatedKeepOrder` proves that undated tasks keep their collection order. For other ties the contract does not state that collection order is kept.
  - `Store.TaskStore.GetFilteredAndSortedTasks` inherits this.
- `Tasks.Status`: the model assumes a task's status is `todo`, `doing` or `done`. The source keeps it as a free string: `updateTask` spreads whatever it is given, and `init` loads whatever storage holds. For any other value, `getStats` (`store.js:73`) increments a missing key and records `NaN`, which the model cannot express.
- `Store.FieldValue`: a sort key naming an inherited JavaScript property (such as `constructor`) is read as `undefined`. An array-valued key (`tags`) is compared through its comma-joined text.
- `Store.TaskStore.AddTask`: `taskData` can supply only `title`, `due` and `tags`. Extra keys, and an `id` in `taskData`, which would override the generated one because it is spread after it, are not modelled. `status` and both timestamps are written after the spread, so `taskData` cannot override them.
- `Store.TaskStore.UpdateTask`: the patch can set only `title`, `due`, `tags` and `status`. Extra keys, and a `created_at` in `taskData`, are not modelled. `updated_at` is written after the spread, so `taskData` cannot override it.
- `Store.TaskStore.ToggleTaskStatus`: the source mutates the task object in place, so an array returned earlier by `getAllTasks` or `getFilteredAndSortedTasks` sees the change. The model replaces the element of a value sequence, and that aliasing is not captured.
- `Store.TaskStore.GetAllTasks`: returns the collection as a value. The source returns the live array, which later mutations change.
- `Utils.RowValues`: a non-array `tags` field, exported as `''`, cannot occur in the model's task record.
- `Utils.HeaderLine`: the header is stated as the line that splits at commas into the seven column names. This fixes the line uniquely, but the model does not state it as a literal string.
- `Utils.EscapeCsvField`: values are strings or absent. The `String(field)` conversion of numbers and other objects is not modelled.
- `Utils.NeedsQuoting`: a lone CR does not force quoting, as in the source. RFC 4180's grammar for unescaped fields (TEXTDATA, section 2) admits no CR, so such a field is outside that grammar. The reference reader ends records only at CR-LF, so such a field still reads back.
