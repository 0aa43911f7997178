# RERA Odisha project scraper: a Dafny model of its bookkeeping

The scraper opens the project list of the RERA Odisha site in a browser. For
each of the first `num_projects_to_process` cards it:

- reads the card title;
- opens the project's details page and reads three labelled fields;
- switches to the promoter tab and reads two more;
- goes back to the list.

One row per project goes into `all_projects_scraped_data`, which is then
written as a seven-column table. This project models the part of that program
that is its own logic rather than the browser's:

- `sanitize_filename`: remove forbidden characters, then replace spaces, then
  truncate to 100 characters (module `Filename`);
- the defaulting rule of `get_field_value`: the stripped text, or the default
  when nothing was found or only whitespace was (module `FieldValue`, with the
  `strip()` it relies on in `Text`);
- the row bookkeeping of `process_multiple_projects` (module `Scraper`), which
  covers:
  - how each row starts;
  - which stage fills which column;
  - when a row is appended, once or twice;
  - when the loop stops early.

The browser is abstracted per loop index by an `ItemOutcome`. It records:

- whether each navigation or wait succeeded;
- how many cards the list showed;
- the raw card title;
- the label/value pairs of the two scraped sections.

The loop itself is the imperative method `ProjectLoop`, and
`ProcessMultipleProjects` wraps it with the first load of the list page. The
loop is proved equal to the functional reference `Run`, which is defined index
by index from `ItemStep`, and the row-accounting properties are lemmas about
`Run`.

The comments at scraping.py:266 and :291 describe one append per project,
whether the item succeeded or failed. The code departs from one row per
requested index in three ways, and the model follows the code:

- When the return to the list (scraping.py:271-275) fails after the append at
  :267, the item-level handler appends the same dictionary again at :292. That
  index then contributes two equal rows (`DoubleAppendOnFailedReturn`).
- When re-syncing to the list page (:125-135) fails, the row appended at :292
  has not yet received its identifier, which is only stored at :164. That row is
  all "N/A" (`ListFailureRowIsBlank`), and the positional `Project_Loop_<i+1>`
  is only a log and screenshot name.
- The card-count check (:141-144) comes after the re-sync, so a re-sync that
  fails at an index past the last card still appends a blank row. If recovery
  works, the loop goes on to the next index (`ResyncFailurePastLastCard`,
  `FlakyResyncExample`). With 4 cards and n = 6, a flaky re-sync at index 4
  gives 5 rows.

## Model

| member | source | states |
|---|---|---|
| Text.Strip | scraping.py:30 | the result has no whitespace at either end, is no longer than the input, and is empty exactly when the input is all whitespace |
| Text.StripPadded | scraping.py:30 | stripping removes exactly the whitespace padding around a trimmed core and never any of the core |
| Text.StripTrimmed | scraping.py:30 | a string with no whitespace at either end is left unchanged |
| Text.StripIdempotent | scraping.py:30 | stripping twice is stripping once |
| Text.TrimStartAt | scraping.py:30 | the leading-whitespace cut is exactly at the first character that is not whitespace |
| Text.TrimEndAt | scraping.py:30 | the trailing-whitespace cut is exactly after the last character that is not whitespace |
| Text.DecimalString | scraping.py:114 | `{i + 1}` renders as a non-empty string of decimal digits with no leading zero |
| Text.ParseDecimalString | scraping.py:114 | reading the rendering back gives the number, so the rendering is unambiguous |
| Filename.RemoveForbiddenPermitted | scraping.py:13 | after removal no character of the class `<>:"/\|?*` or U+0000-U+001F remains, and the string is no longer |
| Filename.RemoveForbiddenKeepsPermitted | scraping.py:13 | every occurrence of every permitted character survives removal |
| Filename.RemoveForbiddenConcat | scraping.py:13 | removal works character by character, so it distributes over concatenation and keeps the order of the survivors |
| Filename.RemoveForbiddenClean | scraping.py:13 | a string with no forbidden character survives whole |
| Filename.RemoveForbiddenAll | scraping.py:13 | a string of forbidden characters only disappears |
| Filename.ReplaceSpaces | scraping.py:15 | the same length, each space turned into `_`, every other character kept in place |
| Filename.ReplaceSpacesConcat | scraping.py:15 | replacement distributes over concatenation |
| Filename.RemoveReplaceCommute | scraping.py:13-15 | the two steps commute, because neither produces what the other acts on |
| Filename.SanitizeFilename | scraping.py:10-17 | the result is at most 100 characters, has no forbidden character and no space, and its length is min(100, number of surviving characters) |
| Filename.SanitizeFilenameAt | scraping.py:10-17 | character k of the result is character k of the removal result, with a space turned into `_` |
| Filename.SanitizeFilenameFixesSanitized | scraping.py:10-17 | a string that is already a valid name comes back unchanged |
| Filename.SanitizeFilenameIdempotent | scraping.py:10-17 | sanitizing twice is sanitizing once |
| Filename.SanitizeFilenameIgnoresForbiddenPrefix | scraping.py:13-17 | truncation happens after removal, so forbidden characters do not use up the 100-character budget |
| Filename.RemoveForbiddenExample | scraping.py:13 | removal turns "A/B: C*D  E" into "AB CD  E" |
| Filename.SanitizeFilenameExample | scraping.py:10-17 | "A/B: C*D  E" becomes "AB_CD__E": the colon is removed before the space after it becomes `_` |
| FieldValue.GetFieldValue | scraping.py:19-35 | nothing found (no element, or the query raised) gives the default; whitespace-only text gives the default; otherwise the result is the stripped text, non-empty and trimmed |
| FieldValue.GetFieldValuePadded | scraping.py:30-32 | a value found with whitespace around it is returned as its core |
| FieldValue.GetFieldValueTrimmed | scraping.py:19-35 | with a trimmed non-empty default such as "N/A", the result is always trimmed, and looking it up again returns it unchanged |
| Scraper.InitialRecord | scraping.py:119 | every row starts with exactly the seven `csv_headers` columns, each "N/A" |
| Scraper.NameFromCard | scraping.py:150-161 | a title that is not blank once stripped gives the stripped title as raw name and its sanitized form as identifier; a missing or blank title gives `Project_Loop_<i+1>` and "N/A" |
| Scraper.ProjectLoopIdentifierInjective | scraping.py:114 | different loop indices get different positional identifiers |
| Scraper.HeaderCount | scraping.py:60-68 | the header list names each of the seven columns once, so every row has seven fields |
| Scraper.HeaderNameInjective | scraping.py:60-68 | different columns have different header texts |
| Scraper.NamedRecordFields | scraping.py:164-165 | after the card stage the row holds the card's identifier and raw name, and "N/A" in the five scraped columns |
| Scraper.WithDetailsFields | scraping.py:196-215 | the details stage sets exactly the three details columns to the defaulted lookups of their labels, or leaves the row unchanged when the container is missing |
| Scraper.WithPromoterFields | scraping.py:249-264 | the promoter stage sets exactly the two promoter columns in the same way |
| Scraper.ItemRecordFields | scraping.py:119-264 | the final row of an index, column by column, for every way the stages can end |
| Scraper.ItemRecordHasHeaderKeys | scraping.py:119 | whatever happens at an index, its row has exactly the seven columns |
| Scraper.RowNamesItsCard | scraping.py:164-165 | once a card is reached, the row carries that card's identifier and raw name whatever fails later |
| Scraper.DetailsFailureIsLocal | scraping.py:196-215 | a missing details container leaves only the three details columns at "N/A"; every other column, the number of rows appended and whether the loop goes on are as if it had been found |
| Scraper.PromoterFailureIsLocal | scraping.py:249-264 | the same for the promoter container and its two columns |
| Scraper.ListFailureRowIsBlank | scraping.py:125-135 | a failed re-sync to the list appends one all-"N/A" row |
| Scraper.DoubleAppendOnFailedReturn | scraping.py:267-292 | when the return to the list fails after the append, two equal rows are appended, and the loop stops exactly when recovery fails |
| Scraper.ItemFailureAppendsPartialRow | scraping.py:280-308 | an item-level failure before the append appends the partial row once, and the loop stops exactly when recovery fails |
| Scraper.ExhaustedAppendsNothing | scraping.py:141-144 | when the list has no card for index i, neither that index nor any later one appends a row |
| Scraper.RunFromAfterStep | scraping.py:112-308 | one loop pass keeps the loop invariant: the rows so far plus the rows still to come equal the whole run |
| Scraper.ProcessProject | scraping.py:113-308 | one loop body appends exactly the rows of `ItemStep` and breaks exactly when `ItemStep` halts |
| Scraper.ProjectLoop | scraping.py:112-308 | the loop collects exactly `Run(env, n)` |
| Scraper.ProcessMultipleProjects | scraping.py:70-308 | a failed first load gives no rows and otherwise the rows are `Run(env, n)`; every row has the seven columns; there are at most 2n rows |
| Scraper.RunShape | scraping.py:112-308 | every row of a run has the seven columns, and a run has at most two rows per requested index |
| Scraper.RunRecordsHaveHeaderKeys | scraping.py:119 | every row from index i on has exactly the seven columns |
| Scraper.RowAccounting | scraping.py:267-292 | rows = attempted indices + doubly appended indices, with doubled ≤ attempted ≤ the number of requested indices |
| Scraper.NoDoubles | scraping.py:267-292 | with no failed return after an append, no index is counted twice |
| Scraper.OneRowPerAttempt | scraping.py:267-292 | with no failed return after an append, there is exactly one row per attempted index |
| Scraper.RowsWhenAllSucceed | scraping.py:141-144 | when the list shows `cards` cards at every index, every re-sync works, no return to the list fails after an append, and every item failure is recovered from, the run has min(n, cards) rows (4 cards and n = 6 give 4 rows) |
| Scraper.SuccessfulItemAppendsOnce | scraping.py:267-278 | an index whose stages all work, return to the list included, appends its row once and the loop goes on |
| Scraper.ResyncFailurePastLastCard | scraping.py:125-144 | a re-sync failure at an index with no card still appends one blank row, and with recovery the loop goes on |
| Scraper.FlakyResyncExample | scraping.py:125-144 | with one card and two indices, a flaky re-sync at index 1 gives two rows |
| Scraper.HaltIgnoresLaterIndices | scraping.py:305-308 | once an index stops the loop, later indices have no effect: the rows are those of the run cut off after it |
| Scraper.RunPrefix | scraping.py:112-308 | rows appear in index order: a run over fewer indices is a prefix of a run over more |

## Left out

- Browser and page access is not modelled: Selenium, XPath and CSS queries,
  `normalize-space`, clicks, scrolling, waits and their timeouts. Each
  stage's success and the text the page offers are inputs (`ItemOutcome`).
- Sleeps and `print` logging are not modelled. They change nothing in the rows.
- Screenshots are not modelled as actions. The one in the item handler
  (scraping.py:284-289) is guarded and cannot affect the rows. The ones in the
  details and promoter handlers (scraping.py:213 and :262) are not guarded. If
  one raises, the item handler takes over, and that is the outcome
  `detailsPageOpened == false` or `promoterTabOpened == false`. The locality
  lemmas `DetailsFailureIsLocal` and `PromoterFailureIsLocal` therefore assume
  that the handler's screenshot succeeds.
- Creating the screenshot directory (scraping.py:48-52) and quitting the driver
  (scraping.py:343-346) are I/O and are left out.
- Hiding the navigation bar (scraping.py:82-109) is left out. Every failure in
  it is caught, and it does not touch the rows.
- Writing the CSV file (scraping.py:312-331) is I/O and is left out. The model
  stops at the rows that would be written, in order. In the code the write sits
  inside the outer `try`, so an exception outside the item handler skips it;
  only the failed first load is modelled as such an exception.
- Both rows of a double append are the same dictionary object. The model has
  values, not references. Nothing mutates the dictionary after the second
  append, so the two rows are equal.
- Strip: Python's `str.strip()` whitespace is taken to be the code points 9-13,
  28-32, U+0085 and U+00A0. Other Unicode spaces (U+2000-U+200A, U+3000, …) are
  not treated as whitespace.
- Scraper.Lookup: the XPath label query is abstracted as a map lookup on the
  normalised label text, with an exact match. Python string semantics beyond
  `seq<char>` equality are not modelled.
