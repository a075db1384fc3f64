# Blackboard aggregator core, modelled in Dafny

This project models the two pieces of logic at the heart of a browser
extension that collects a Blackboard site's announcements, assignments and
other items into one stored snapshot. It also models how the extension
downloads the assignments' attachments.

- **The aggregation run** (`runAggregation` in `background.js`):
  - load the stored snapshot;
  - seed the set of seen identity keys `type|course|title` and the course set from it;
  - walk the discovered courses and their listed items in order, skipping items whose key was seen, opening the detail view of announcements and assignments, and appending one record per captured item;
  - isolate every failure to its course or item;
  - run a final first-write-wins dedupe over each collection;
  - write the snapshot and always send the tab back to the page the run started from.

  The pure decisions of the course page reader are part of the model: the category of a block and the CSS selector of an item's link. So is the empty snapshot `CLEAR_DATA` writes.
- **The attachment download planner** (`popup.js`):
  - `sanitizePathPart`;
  - collecting the selected assignments' attachments, deduplicated by URL;
  - building each `course/assignment/file` path with a per-name collision counter;
  - the click handler's loop that counts successes and failures.

The browser is an oracle given as data, and the run is a pure fold over it:

- For every course, the listing is either a timeout or the item summaries in page order.
- For every item, opening its detail view gives one of: the link was missing, the detail view timed out, or the detail payload.
- Reading the stored snapshot either fails or gives a snapshot.
- The run's effect on the tab is a trace of `Navigate(url)` and `Click(selector)` events.
- Each browser download answer is an oracle `ok(i)`.
- The URL pathname of each attachment is an input (`None` when the URL does not parse).

A JavaScript field that may be absent or falsy is a string, with `""` standing for it. The code tests such fields for truthiness, with one exception: the course filter of popup.js:199 compares `item.course === selectedCourse`, where an absent course and `""` differ (see `Downloads.Candidates` under "## Left out"). A stored collection that is not an array is the empty sequence, because the code treats the two alike.

Files, in dependency order:

| file | module | what it holds |
|---|---|---|
| options.dfy | `Options` | `Option` |
| text.dfy | `Text` | `trim`, ASCII `toUpperCase`, `includes`, `lastIndexOf`, decimal counters |
| first_wins.dfy | `FirstWins` | first-write-wins dedupe by key, generic; the left-to-right scan and a reference definition from the back |
| store.dfy | `Store` | records, snapshot, identity key, `dedupeCollection`, the insertion-ordered course set, the cleared snapshot |
| page_reader.dfy | `PageReader` | block classification, click-selector escaping, item summaries |
| engine.dfy | `Engine` | `runAggregation` as a fold over the oracle |
| run_properties.dfy | `RunProperties` | whole-run properties: append-only, prior records kept, failure isolation, skip-on-seen |
| sanitize.dfy | `Sanitize` | `sanitizePathPart` and a one-pass automaton defining the same replacement |
| downloads.dfy | `Downloads` | `collectDownloadableAttachments` |
| filenames.dfy | `Filenames` | `buildDownloadFilename`: extension, numbering, counter map, path layout |
| batch_download.dfy | `BatchDownload` | the download click handler: naming a batch and counting outcomes |

## Model

| member | source | states |
|---|---|---|
| PageReader.Classify | background.js:132-139 | a block holds announcements iff its upper-cased id contains `::AN`; it holds assignments iff the id does not contain `::AN` but contains `::AS`; otherwise it holds other items |
| PageReader.ClassifyIgnoresCase | background.js:135-137 | the category does not depend on the letter case of the block id |
| PageReader.UnescapeEscape | background.js:145 | escaping every `:` as `\:` loses nothing: the row id can be read back |
| PageReader.EscapeColons | background.js:145 | the escaped id is no shorter than the id, does not start with `:`, and has a `\` in front of every `:` |
| PageReader.ClickSelector | background.js:145 | no contract of its own: ClickSelectorRoundTrip and ClickSelectorInjective state that building `#<escaped id> > span > a` is reversible and injective |
| PageReader.ClickSelectorRoundTrip | background.js:145 | building `#<escaped id> > span > a` is reversible: the row id is read back from the selector by undoing the colon escape |
| PageReader.ClickSelectorInjective | background.js:145 | distinct row ids get distinct click selectors |
| PageReader.RowItems | background.js:141-152 | a block gives at most one summary per row |
| PageReader.RowItemsOne | background.js:142-151 | a single row gives its summary when it has a link and a non-empty id, and nothing otherwise |
| PageReader.RowItemsAppend | background.js:141-152 | rows are reported in block order: the summaries of two runs of rows are those of the first followed by those of the second |
| PageReader.SummaryWellFormed | background.js:143-150 | a row with a link and a non-empty id yields a summary with a trimmed title and a selector that reads back to a non-empty row id |
| PageReader.ListedRowReported | background.js:142-151 | every row with a link and a non-empty id is reported |
| PageReader.ReportedRowListed | background.js:142-151 | every reported summary comes from such a row |
| PageReader.ExtractCourseItems | background.js:127-156 | no contract of its own: ExtractCourseItemsOne, ExtractCourseItemsAppend, ExtractReportsListedRows and ExtractedWellFormed specify it |
| PageReader.ExtractCourseItemsOne | background.js:130-152 | a single block gives its rows' summaries under its own category |
| PageReader.ExtractCourseItemsAppend | background.js:127-156 | blocks are reported in page order: the summaries of two runs of blocks are those of the first followed by those of the second |
| PageReader.ExtractedWellFormed | background.js:127-156 | every summary of the page has a trimmed title, a selector that reads back to a non-empty row id, and the category of some block of the page |
| PageReader.ExtractReportsListedRows | background.js:127-156 | a summary is reported iff some block has a row with a link and an id that yields it under that block's category |
| FirstWins.KeepFirst | background.js:304-313 | the deduplicated sequence has no key twice and has exactly the keys of its input |
| FirstWins.KeepFirstIsFirstsByPrefix | background.js:309-311 | the left-to-right scan equals the definition from the back: an element is kept iff no earlier element has its key |
| FirstWins.KeepsFirstOccurrence | background.js:309-311 | the first element carrying a key is the one kept |
| FirstWins.KeepFirstAfterAppend | background.js:305-312 | the scan of `p + s` is the scan of `p` followed by the scan of `s` with the keys of `p` already taken |
| FirstWins.KeepFirstIdempotent | background.js:302-314 | deduplicating twice is deduplicating once |
| Store.WithType | background.js:306-310 | the record's type is its own when truthy, else the fallback, and no other field changes |
| Store.Canonical | background.js:305-307 | the typed records a pass considers are all complete, no more than the input, and include every complete typed input record |
| Store.CanonicalFrom | background.js:305-310 | every record a pass considers is a typed input record |
| Store.Dedupe | background.js:302-314 | after `dedupeCollection` no two records share a key, every record is complete, and the keys are exactly those of the complete input records |
| Store.DedupeAppend | background.js:302-314 | deduplicating `p + s` keeps deduplicated `p` unchanged in front; a record of `s` survives only under a key new to `p` |
| Store.DedupeByPrefix | background.js:309-311 | a record is kept iff no earlier complete record carries its key, in first-occurrence order |
| Store.DedupeIdempotent | background.js:302-314 | running the dedupe pass on its own output changes nothing |
| Store.KeyCollision | background.js:308 | two complete records with different course/title pairs can share a key, and the pass then keeps only the first |
| Store.Insert | background.js:221 | `Set.add` keeps the old entries in order, adds the name once, adds nothing else, and keeps the set free of duplicates |
| Store.InsertAll | background.js:203 | adding a list of names keeps the old entries in front, contains every added name, contains nothing else, and keeps the set free of duplicates |
| Store.InsertAllPresent | background.js:212 | adding names the set already holds changes nothing |
| Store.InsertAllFresh | background.js:203 | building the set from names without repeats keeps them all, in their order |
| Engine.CapturedRecord | background.js:271-279 | the appended record's key is the item's key; it carries the course name and the item's category |
| Engine.ProcessItem | background.js:234-295 | a seen key changes nothing, not even the trace; a captured item appends exactly one record to its category's collection, leaves the others alone and adds its key to the seen set; a failing item changes no collection and no seen key; for an unseen announcement or assignment the tab is clicked and, if it left the listing, sent back to the course, while an unseen `other` item leaves the tab alone |
| Engine.ProcessItems | background.js:234-296 | the item loop never changes the course set and never forgets a seen key |
| Engine.ProcessCourse | background.js:220-233 | the course name is registered first; a course whose listing times out changes no collection and no seen key |
| Engine.ProcessCourses | background.js:219-300 | the course list only grows, holds every discovered course name, stays free of duplicates, and seen keys are never forgotten |
| Engine.SeedCourses | background.js:203-217 | the seeded course set is free of duplicates and holds every stored course name and the course of every complete stored record |
| Engine.SeedCoursesOfListed | background.js:203-217 | a stored course list without repeats that already names the course of every complete stored record is seeded unchanged, order included |
| Engine.Seed | background.js:194-217 | no contract of its own: SeedCollection, SeedSeesStored and SeedCourses state what seeding produces |
| Engine.SeedCollection | background.js:194-201 | the course loop starts from unchanged copies of the stored collections |
| Engine.SeedSeesStored | background.js:205-212 | the key of every complete stored record, in any collection, is seen before the first course is visited |
| Engine.Finish | background.js:316-319 | no contract beyond its shape (each collection deduplicated with its own fallback type, the course set and timestamp written as they are): FinishCollections and FinishSound state what is written |
| Engine.FinishCollections | background.js:302-319 | every written collection has unique keys and only complete records, and its keys are exactly those of the complete records the run gathered, typed with the collection's fallback |
| Engine.FinishSound | background.js:316-319 | the written snapshot has unique keys and complete records in every collection, and is sound whenever the course set has no name twice |
| Engine.Completed | background.js:219-323 | a run over a readable store ends idle with a snapshot written and the tab back at the origin; the snapshot has unique keys, complete records and unique course names, keeps every prior course, lists every discovered course and carries the run's timestamp |
| Engine.Run | background.js:183-331 | the last tab action is the return to the origin; no courses, or an unreadable store, gives an error, nothing written and only that navigation; the status is idle iff a snapshot is written; a written snapshot has unique keys, complete records and unique course names, covers prior and discovered courses, and carries the run's timestamp |
| RunProperties.AppendOnlyTrans | background.js:267-282 | growing by new-key records twice in a row is growing by new-key records |
| RunProperties.ProcessItemExtends | background.js:236-282 | one item grows only its own category's collection, by at most one record of that collection's type under a key new to the seen set; the other collections are unchanged and no key other than the item's is added |
| RunProperties.ProcessCoursesExtends | background.js:219-300 | the course loop only appends to the collections, under distinct keys that were not seen before |
| RunProperties.DedupeAppendOnly | background.js:302-314 | deduplicating an append-only collection gives the deduplicated original followed by the complete added records |
| RunProperties.DedupeKeepsPrior | background.js:302-318 | in that case the deduplicated original stays in front, all its keys survive, and every later record has the collection's type and a new key |
| RunProperties.RunKeepsPrior | background.js:194-319 | nothing is lost from the stored snapshot: each written collection starts with the deduplicated stored one, keeps every complete stored key, and adds only records of its own type under keys no stored record carried |
| RunProperties.ProcessItemsAppend | background.js:234 | the item loop splits at any point |
| RunProperties.ProcessItemsCongruent | background.js:234-296 | what the item loop does to the data depends only on the collections and the seen keys |
| RunProperties.FailedItemIsolated | background.js:284-285 | an item that fails leaves the data exactly as if it had not been listed, so the items after it are processed as they would have been |
| RunProperties.ProcessCoursesAppend | background.js:219 | the course loop splits at any point |
| RunProperties.FailedCourseIsolated | background.js:225-229 | a course whose listing never appears leaves the data as if it had not been discovered |
| RunProperties.RunIgnoresFailedCourse | background.js:297-299 | a run with an unreachable course writes the same collections as the run without it and still lists the course's name |
| RunProperties.LaterSameKeySkipped | background.js:219-240 | once item j1 of course m1 is captured, every later item, in the same course or any later one, whose key is the same string does nothing at all, in the state in which the run handles it |
| RunProperties.StoredKeySkipped | background.js:205-240 | in every state in which the seeded run handles an item, an item whose key a complete stored record carries does nothing at all |
| RunProperties.ProcessCoursesOnlyListed | background.js:221 | the course loop adds no course name other than the discovered ones |
| RunProperties.ClearedSeedsNothing | background.js:398 | seeding from the `CLEAR_DATA` snapshot starts with no course and no seen key |
| RunProperties.ClearedRunCourses | background.js:398 | after `CLEAR_DATA`, a run writes exactly the discovered course names: a name is written iff some discovered course carries it |
| RunProperties.ClearedRunRecords | background.js:398 | after `CLEAR_DATA`, every record a run writes into a collection carries that collection's type |
| Sanitize.SkipForbidden | popup.js:182 | drops exactly the maximal run of forbidden characters at the front |
| Sanitize.ReplaceRuns | popup.js:182-188 | the replacement is no longer than its input and starts with the input's first character, or `_` when that one is forbidden |
| Sanitize.ReplaceRunsClean | popup.js:181-188 | no forbidden character survives the replacement |
| Sanitize.ReplaceRunsLast | popup.js:181-188 | the replacement ends with the input's last character, or `_` when that one is forbidden |
| Sanitize.ReplaceRunsIsScrub | popup.js:182 | the run replacement equals a one-pass automaton in which a forbidden character emits `_` only when it starts a run |
| Sanitize.ReplaceRunsOfClean | popup.js:188 | a string without forbidden characters is left as it is |
| Sanitize.ReplaceRunsOfRun | popup.js:182 | a run of forbidden characters, however long, becomes a single `_` |
| Sanitize.SanitizePart | popup.js:181-189 | the result is never empty, trimmed and free of forbidden characters; it is the scrubbed trimmed input if that is not blank, else the scrubbed trimmed fallback if that is not blank, else `文件` |
| Sanitize.SanitizeOfClean | popup.js:183-188 | a trimmed, clean, non-empty part is kept as it is |
| Sanitize.SanitizeIdempotent | popup.js:181-189 | sanitizing a sanitized part changes nothing, whatever the fallback |
| Downloads.EntriesOf | popup.js:201-213 | an assignment's entries have a url and carry the assignment's course and title |
| Downloads.Candidates | popup.js:198-203 | every candidate has a url and a course the filter selects |
| Downloads.ScanAttachments | popup.js:200-213 | scanning one assignment's attachments extends the first-per-url list and the seen set exactly as if the earlier entries and this assignment's entries were scanned in one pass |
| Downloads.CollectAttachments | popup.js:191-218 | no data gives nothing; otherwise the result is the first entry for each url among the selected assignments' attachments, in order; no url twice; every entry has a url and a course the filter selects |
| Filenames.UrlExtension | popup.js:226-235 | a non-empty extension is `.` and a suffix the pathname ends with, after a `.`, holding no `.`, `\` or `/` |
| Filenames.ExtensionOfMatch | popup.js:229-232 | conversely, a pathname ending in such a suffix gives exactly that extension |
| Filenames.HasExtensionIff | popup.js:237 | the name ends in `.` and 1 to 6 ASCII letters or digits iff the check says it has an extension |
| Filenames.FallbacksNeverApply | popup.js:224 | the `\|\| defaultName` and blank-core fallbacks never fire; the core is the sanitized name, with the URL extension appended only when the name has none |
| Filenames.RawName | popup.js:224 | the raw name is the sanitized text: non-empty, trimmed and free of forbidden characters, so the `\|\| defaultName` fallback never applies |
| Filenames.FileCore | popup.js:237-241 | a name starting with a non-space is kept, gaining the URL extension only when it has none of its own; a blank name with nothing to append becomes the default name |
| Filenames.InsertionPoint | popup.js:246-247 | the tag goes at the last `.` when its index is above 0, and at the end otherwise: the end is chosen only when no character after the first is a `.` |
| Filenames.Numbered | popup.js:245-252 | the first use keeps the name; a later use inserts the tag `(count+1)` at the insertion point and keeps everything else in place |
| Filenames.NumberedInjective | popup.js:245-252 | different uses of one name get different file names |
| Filenames.NumberedCanMeetAnotherName | popup.js:243-252 | numbering is per name: the second `a.pdf` is named `a(2).pdf`, a name another attachment may already carry |
| Filenames.BuildFilename | popup.js:243-253 | the counter of the attachment's key goes up by exactly one and no other counter changes |
| Filenames.SplitOnJoin | popup.js:255 | splitting `a/b` at `/`, where `a` has no `/`, gives `a` and then the parts of `b` |
| Filenames.PathParts | popup.js:220-256 | the path splits at `/` into exactly the sanitized course, the sanitized assignment, and the numbered file name; no part contains `/` |
| BatchDownload.Keys | popup.js:290-292 | the batch's counter keys, one per attachment, in order |
| BatchDownload.NamingTallies | popup.js:243-253 | each naming step raises exactly the counter of its own attachment's key |
| BatchDownload.Fold | popup.js:288-299 | one name per attachment; the counters and the names themselves are stated by FoldCounts and FoldName |
| BatchDownload.FoldCounts | popup.js:288-299 | after a batch, each key's counter is the number of attachments that carried it |
| BatchDownload.FoldName | popup.js:290-292 | the i-th name is built with the counters the earlier attachments left |
| BatchDownload.PlanName | popup.js:288-299 | the i-th attachment goes under its two folder names, and its file name is numbered by how many earlier attachments of the batch share its key |
| BatchDownload.NameAndTry | popup.js:286-299 | every attachment is named and tried once, in order; the successes are the oracle's yes answers and successes plus failures is the batch size |
| BatchDownload.DownloadAll | popup.js:286-299 | the handler's loop names with `buildDownloadFilename` and counts every attempt exactly once |
| BatchDownload.KeepFirstEmpty | popup.js:276-280 | the collected list is empty iff no selected attachment has a url |
| BatchDownload.DownloadClick | popup.js:270-311 | no data gives the no-data outcome; no selected attachment with a url gives the nothing-to-download outcome; otherwise every collected attachment is tried once and successes plus failures is their number, above 0 |

## Behaviour worth knowing

- The identity key is the joined string `type|course|title`, not the triple. A course name or title containing `|` can make two different items share a key. The dedupe pass then keeps only the first (`Store.KeyCollision`). The model follows the code. Distinct keys still imply distinct triples, so no two records of one written collection share a triple. Across collections nothing is promised: a stored snapshot holding the same record in two collections is written back that way.
- The collision counter numbers repeats of one file name only. It does not track the paths it produced, so two attachments can be planned under the same path (`Filenames.NumberedCanMeetAnotherName`). What happens then is up to the browser's download manager, which is not part of this model.

## Left out

- Chrome APIs (`chrome.storage`, `chrome.tabs`, `chrome.scripting`, `chrome.downloads`, runtime messaging): they become oracle inputs and the navigation trace.
- Downloads.Candidates: a stored assignment without a `course` is selected by a filter of `""`, while popup.js:199 excludes it, because `undefined === ""` is false. The model has no absent course distinct from `""`. A run never writes such a record: every written record is complete, so its course is non-empty (`Engine.FinishSound`). The difference can arise only from a stored snapshot the program did not write.
- `waitForElement` polling and `navigateAndWait` (background.js:76-107): these are real-time waits. Their outcome is part of the oracle. The 15-second timeout and the polling interval are not modelled.
- A failing navigation back to the course listing after a detail view (background.js:288-293): it is only logged and has no effect on the data. The trace records the attempt.
- Failing storage writes: the model assumes every `chrome.storage.local.set` succeeds. That covers the snapshot write at background.js:322 and every `setStatus` (background.js:61-64), called at 187, 222, 246 and 323. A failure at 187 would end the run, at 222 the course, and at 246 the item, even an `other` item, which the model always captures. A failure at 323 would leave a written snapshot under an error status, so `Engine.Run`'s "idle iff written" holds only under this assumption.
- CSS selector semantics: the click selector escapes only `:` (background.js:145), as the source does. A browser reads `#a.b > span > a` as id `a` with class `b`, and ids holding `.`, `#`, `[`, whitespace or `\`, or starting with a digit, are read likewise differently. `RowIdOfSelector` only undoes the colon escape; the model proves the construction reversible and injective, not that a browser selects that row.
- The fire-and-forget launch of a run and the missing re-entrancy guard: only concurrency is involved.
- The DOM reading of `extractData_Courses`, `extractData_AnnouncementDetails` and `extractData_AssignmentDetails`: detail payloads are opaque data.
- Logging, `Date`, `toISOString` and `toLocaleString`: the run's timestamp is a parameter, and status message texts are not modelled.
- `new URL` parsing: the pathname is an input.
- Popup rendering, the course dropdown, JSON export and `logs.js`: these are UI only.
- The download handler's summary text, button disabling and its catch-all (popup.js:282-284, 301-310): no step of the modelled loop throws.
- Text.Upper: maps ASCII letters only. JavaScript's `toUpperCase` also maps other letters, some to two characters (`ß` to `SS`), and some to ASCII (`ſ`, U+017F, to `S`). So the classification can differ from the source's: a block id `::aſ` holds assignments in the source (background.js:137), but `PageReader.Classify` puts it under other items.
- Idempotent re-run (running twice against an unchanged site writes the same collections): not proved. The lemmas only cover what one run does.
- Engine.ProcessItems: its own contract only says the course set is unchanged and seen keys are kept. What it does to the data is stated by RunProperties.ProcessItemsExtends, FailedItemIsolated and LaterSameKeySkipped.
