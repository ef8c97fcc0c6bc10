# News browser core, modelled in Dafny

This project models the logic at the heart of the news browser, a static web
application that reads daily JSON news feeds ("facts" documents of the
ElizaOS council knowledge base), browses an archive of past days, lets the
reader curate items by drag and drop into a new document, and shows the
latest feed as a grid of tiles in a live viewer. Around that logic sits DOM, `fetch` and `localStorage`
glue; the model covers the logic and leaves the glue out.

The modules follow the program's files:

| module | source | flavour in the model |
|---|---|---|
| `Json` | JavaScript values read from `JSON.parse` | datatype, truthiness, `===`, property lookup |
| `JsText` | string built-ins the core uses | functions: `includes`, `trim`, `split`, `replace`, `parseInt` |
| `DataUtils` | utils/dataUtils.js | feed normaliser (a method with its loop, proved against a function) and field probing |
| `StorageService` | services/storageService.js | pure add and remove on the curated list |
| `DateService` | services/dateService.js | listing parse and newest-first sort (a method with its loop), URLs, display format |
| `DateUtils` | utils/dateUtils.js | date in a title to Unix seconds, with ECMAScript's `Date.UTC` written out |
| `FilterManager` | refactored/filterManager.js | the `'all'` sentinel filter list and the section visibility rule (a class) |
| `Curation` | the grouping of generateCuratedJson in scripts/app.js and script.js | grouping loop, category look-up, the curated document |
| `ScriptsApp` | scripts/app.js | the browser whose "today" state is the live feed (a class) |
| `RootApp` | app.js | the archive-only browser (a class) |
| `Script` | script.js | drag and drop, splice removal, curated display, date header (a class) |
| `LiveViewer` | live/livenewsviewer.js | HTML escaping, headline, stats counts, tiles, slide index (a class) |

Things the program takes from its environment are parameters of the model:
"today" (`getCurrentDate()`), `JSON.stringify`, `String()` of a non-string,
`toLowerCase`, the outcome of `localStorage` writes (`saved`), the answer to
`confirm()`, the directory listing a fetch returns (or its failure), and the
date the user picks in the calendar.

The live viewer's own `convertJsonFormat` (live/livenewsviewer.js:19-69) is the
same code as utils/dataUtils.js:10-60, so `DataUtils.Convert` and
`DataUtils.ConvertJsonFormat` model both; `LiveViewer` uses them. A load of a feed is modelled as the URL
the handler passes to its loader.

JavaScript details kept in the model: reading a property of `null` throws
(outcomes such as `CuratedThrows`, `DisplayThrows`, `HeaderThrows`, or `None`);
`===` compares primitives by value while two arrays or objects from a parse
are never the same object; `splice` with a negative index counts from the
end; `Date.UTC` maps the years 0 to 99 onto 1900 to 1999 and rolls months and
days over.

## Model

| member | source | states |
|---|---|---|
| Json.Lookup | utils/dataUtils.js:23 | a property read finds the first member with that key, and is undefined exactly when no member has it |
| Json.SetField | utils/dataUtils.js:19-20 | assigning a member sets that key and no other; an existing key keeps its place |
| JsText.Contains | refactored/filterManager.js:99 | `includes` is true exactly when the term occurs at some index |
| JsText.Trim | refactored/filterManager.js:74 | `trim` drops leading and trailing white space and nothing inside |
| JsText.Split | utils/dateUtils.js:61 | one piece more than separators, pieces free of the separator, joining them gives the input back |
| JsText.ReplaceAllOneChar | live/livenewsviewer.js:380-384 | a global replace of a one-character pattern changes exactly the positions holding that character |
| JsText.NatToString | services/dateService.js:70-72 | `String(n)` is a nonempty digit string, of one digit exactly when n < 10 |
| JsText.NatToStringRoundTrip | services/dateService.js:70-72 | `String(n)` has no leading zero and `parseInt` reads it back as n |
| JsText.DigitsValueConcat | services/dateService.js:68 | `parseInt` of a concatenation is the first part shifted by the second's width plus the second |
| JsText.DigitsValueBound | services/dateService.js:68 | `parseInt` of k digits is below 10^k |
| JsText.LexLessIsNumericLess | services/dateService.js:36 | on digit strings of one width, string order is numeric order |
| JsText.LexLessConcat | services/dateService.js:36 | string order of equal-width prefixes decides before the suffixes |
| DataUtils.Humanize | utils/dataUtils.js:29 | the title keeps the key's length, turns each `_` into a space, upper-cases a letter that starts a word and leaves every other character alone |
| DataUtils.CategoryFor | utils/dataUtils.js:23-56 | array value is the content; then an array `new_issues_prs`; then an array `overall_focus` with " - Focus"; any other object wrapped as one item; a primitive or null dropped; topic is always the key |
| DataUtils.ConvertedCategoriesInKeyOrder | utils/dataUtils.js:22-57 | one category per member whose value is an array or object, in key order |
| DataUtils.Convert | utils/dataUtils.js:10-60 | falsy document, falsy categories or array categories pass through unchanged; otherwise the same members in the same order with only `categories` replaced by the converted array |
| DataUtils.ConvertJsonFormat | utils/dataUtils.js:10-60 | the key loop that pushes categories computes Convert |
| DataUtils.ConvertIdempotent | utils/dataUtils.js:14-20 | converting a converted document changes nothing |
| DataUtils.FirstTruthyProp | utils/dataUtils.js:67-78 | the first truthy field of a list, and none exactly when no field is truthy |
| DataUtils.ExtractItemText | utils/dataUtils.js:67-78 | the first truthy field among claim, title, summary, text, feedback_summary, insight, observation, event, issue; otherwise the serialised item |
| DataUtils.GetImageUrl | utils/dataUtils.js:136-140 | a truthy url wins; then the first element of a non-empty images array, the first character of a non-empty images string, or member "0" of an images object with a truthy `length`; a falsy images, or one without a truthy `length` (an empty array, a number, a boolean), gives the placeholder |
| DataUtils.LinksFrom | utils/dataUtils.js:88-127 | no links for an empty list, a single link for one, a list for more |
| DataUtils.GetSourceLinks | utils/dataUtils.js:85-129 | an array `source` always decides, so an empty one gives nothing and `sources` is not read; `sources` only when `source` is not an array |
| StorageService.ItemExists | services/storageService.js:56-62 | true exactly when some curated item has the same extracted text; false on an empty list, where even a null new item is accepted |
| StorageService.AnyItem | services/storageService.js:57 | `some` is true exactly when some element satisfies the predicate |
| StorageService.AddCuratedItem | services/storageService.js:70-83 | a duplicate gives failure, the same list and "Item already in curated list"; otherwise success, the list with the item appended, and a message that depends only on the save; a null item is appended to an empty list |
| StorageService.AddKeepsTextsDistinct | services/storageService.js:71-75 | pairwise distinct extracted texts stay distinct after an add |
| StorageService.FilterOutIndex | services/storageService.js:96 | `filter((_, i) => i !== index)` drops exactly element index when in range, else nothing |
| StorageService.RemoveCuratedItem | services/storageService.js:91-104 | an index out of range gives failure, the same list and "Invalid index"; an index in range removes exactly that element and keeps the rest in order |
| StorageService.AddThenRemoveLast | services/storageService.js:70-104 | removing the item just added restores the list |
| DateService.GetDateUrl | services/dateService.js:81-83 | the URL is the facts base, the date and ".json" |
| DateService.GetDateUrlInjective | services/dateService.js:81-83 | different dates give different URLs |
| DateService.EntryFor | services/dateService.js:22-30 | a listing item gives an entry exactly when it is a file named `YYYY-MM-DD.json`; the date is the name without `.json` and the URL is base plus name |
| DateService.EntryForWellFormed | services/dateService.js:26-30 | every produced entry has filename date + ".json" and url getDateUrl(date) |
| DateService.DateFileRoundTrip | services/dateService.js:22-30 | the file of a date string parses back to that date |
| DateService.Parsed | services/dateService.js:18-32 | the parsed entries are exactly the entries of the listing items that match, all well formed |
| DateService.DateKeyIsLexOrder | services/dateService.js:36 | on date strings the numeric key orders as the strings do |
| DateService.Insert | services/dateService.js:36 | inserting adds exactly one entry and loses none |
| DateService.InsertKeepsNewestFirst | services/dateService.js:36 | insertion keeps the list newest first |
| DateService.FetchAvailableDates | services/dateService.js:9-43 | a failed fetch gives []; otherwise a permutation of the parsed entries, well formed and newest first |
| DateService.CollectDates | services/dateService.js:18-33 | the forEach loop collects exactly the parsed entries, in listing order |
| DateService.SortNewestFirst | services/dateService.js:36 | the sort returns a permutation of its input, newest first |
| DateService.NewestFirstIsDescendingOrder | services/dateService.js:36 | newest first is descending string order of the dates |
| DateService.FormatDateForDisplay | services/dateService.js:66-74 | `YYYY-MM-DD` becomes `MM/DD/YY`: month and day as written, the year's last two digits |
| DateService.TwoDigitsRoundTrip | services/dateService.js:70-71 | padding `String(parseInt(t))` to two digits gives the two-digit field back |
| DateService.YearSuffix | services/dateService.js:72 | `String(year).slice(-2)` is the last two digits of the written year (one digit below 10) |
| DateService.NavigateToDate | services/dateService.js:90-93 | the loader is called once, with the date's URL |
| DateService.IndexOfDate | app.js:656 | `findIndex`: the first entry with that date, -1 exactly when none has it |
| DateUtils.FirstDateMatch | utils/dateUtils.js:44 | the leftmost `\d{4}-\d{2}-\d{2}` in the string, none exactly when there is none |
| DateUtils.ExtractDateFromTitle | utils/dateUtils.js:43-53 | null exactly when the title has no date substring; otherwise the UTC-midnight seconds of the leftmost one |
| DateUtils.UtcSeconds | utils/dateUtils.js:49-50 | the seconds are 86400 times the day number Date.UTC gives |
| DateUtils.WholeDays | utils/dateUtils.js:49-50 | an extracted time is a whole number of days |
| DateUtils.EpochIsZero | utils/dateUtils.js:49-50 | 1970-01-01 maps to 0 |
| DateUtils.MonthsFillYear | utils/dateUtils.js:49 | the twelve months add up to the year's days |
| DateUtils.UtcSecondsIncreasing | utils/dateUtils.js:49-50 | a valid date earlier on the calendar gives fewer seconds (years from 100 on) |
| DateUtils.TwoDigitYearAlias | utils/dateUtils.js:49 | Date.UTC reads a year from 0 to 99 as 1900 plus it |
| DateUtils.MonthRollOver | utils/dateUtils.js:49 | the day after a month's last is the first of the next month, and the day after 31 December is 1 January of the next year (years from 100 on) |
| DateUtils.ParseBriefingDate | utils/dateUtils.js:60-70 | null unless the string splits on `-` into exactly three parts; otherwise the local date of those parts |
| FilterManager.Without | refactored/filterManager.js:55 | the filter keeps every other title and removes every occurrence of the category |
| FilterManager.WithoutKeepsOthers | refactored/filterManager.js:55 | removing an absent title changes nothing |
| FilterManager.ToggleFromAll | refactored/filterManager.js:47-50 | choosing a category while "all" is active gives exactly that category |
| FilterManager.ToggleSelects | refactored/filterManager.js:62-65 | selecting an inactive category appends it and changes nothing else |
| FilterManager.ToggleDeselects | refactored/filterManager.js:53-61 | deselecting removes the title, keeps every other, and gives ["all"] exactly when nothing else was selected |
| FilterManager.ToggleKeepsShape | refactored/filterManager.js:45-68 | after a toggle the list is exactly ["all"] or non-empty and without "all" |
| FilterManager.ToggleTwiceFromAll | refactored/filterManager.js:45-68 | toggling one category twice from ["all"] restores ["all"] |
| FilterManager.FilterState.constructor | refactored/main.js:14-20 | the state starts with no filters and no search term |
| FilterManager.FilterState.SetupCategoryFilters | refactored/filterManager.js:8-38 | with a truthy document and truthy categories the filters reset to ["all"], otherwise unchanged |
| FilterManager.FilterState.SelectAll | refactored/filterManager.js:29-37 | the All button resets the filters to ["all"] |
| FilterManager.FilterState.ToggleCategoryFilter | refactored/filterManager.js:45-68 | the new filters are the toggle of the old, and keep their shape |
| FilterManager.FilterState.PerformSearch | refactored/filterManager.js:73-76 | the stored term is the lower-cased trimmed input |
| FilterManager.FilterState.ApplyFiltersAndSearch | refactored/filterManager.js:81-116 | one view per section, each obeying the visibility rule |
| FilterManager.ViewOfSection | refactored/filterManager.js:86-114 | a section is shown iff it is selected and the term is empty or one of its cards contains it; an unselected section's cards are untouched; a card without text never matches |
| FilterManager.NoSearchShowsSelected | refactored/filterManager.js:86-114 | with no search term exactly the selected sections show |
| FilterManager.AllShowsMatching | refactored/filterManager.js:86-114 | under "all" a section shows exactly when one of its cards matches |
| Curation.FirstSeen | scripts/app.js:309-318 | the keys, each once |
| Curation.FirstSeenOrder | scripts/app.js:309-318 | groups come in the order their keys first appear |
| Curation.ItemsWithKey | scripts/app.js:309-315 | a group is empty exactly when its key does not occur |
| Curation.GroupSizesSumToCount | scripts/app.js:309-315 | the group sizes sum to the number of curated items |
| Curation.GroupByCategory | scripts/app.js:309-315 | the loop builds the first-seen keys and, for each, the items under it in their order |
| Curation.FindNothingIff | scripts/app.js:319 | `find` gives undefined exactly when no category is null or has a title `===` the key |
| Curation.FindFirstMatch | scripts/app.js:319 | a found category is the first one whose title is `===` the key, no null before it |
| Curation.FindThrowsAtNull | scripts/app.js:319 | the look-up throws on a null category met before any match |
| Curation.TopicOf | scripts/app.js:323 | the found category's truthy topic, else "" |
| Curation.Records | scripts/app.js:318-325 | when no look-up throws, one record per key |
| Curation.RecordsThrowIff | scripts/app.js:318-325 | building the records throws exactly when the look-up of some key throws |
| Curation.RecordsContents | scripts/app.js:318-325 | record j has key j as title, the items of that key as content and its category's topic |
| Curation.CuratedSpec | scripts/app.js:291-329 | nothing without an original document or curated items; a throw on a null item or non-array categories; otherwise the document |
| Curation.CuratedDocumentShape | scripts/app.js:291-329 | a produced document's categories are the records of the first-seen keys, whose sizes sum to the item count |
| Curation.CategoriesOfDocument | scripts/app.js:301-306 | the document's categories are the records |
| Curation.BuildCuratedJson | scripts/app.js:291-329 | the whole function computes CuratedSpec |
| Curation.BuildRecords | scripts/app.js:318-325 | the record loop computes Records for the groups GroupByCategory built, stopping when a look-up throws |
| ScriptsApp.PreviousMove | scripts/app.js:777-804 | from today (empty or today's date) or from an unlisted date, go to the newest date if any; from index i go to i+1 when it exists, else stay; never back to today |
| ScriptsApp.NextMove | scripts/app.js:809-836 | from today or an unlisted date stay; from index i > 0 go to i-1; from index 0 go back to today |
| ScriptsApp.Buttons | scripts/app.js:743-772 | today: Previous disabled iff no dates, Next disabled; unlisted counts as index 0; otherwise Previous disabled iff i >= len-1, Next iff i <= 0 |
| ScriptsApp.NextButtonDisagreesAtNewest | scripts/app.js:769 | at the newest date the Next button is disabled yet Next goes back to today |
| ScriptsApp.PreviousButtonDisagreesWhenUnlisted | scripts/app.js:760-763 | with one date and an unlisted current date Previous is disabled yet Previous moves |
| ScriptsApp.ButtonsAgreeWhenListed | scripts/app.js:743-836 | on a listed date a button is disabled exactly when its handler does not go to a date |
| ScriptsApp.ButtonsAgreeWhenDaily | scripts/app.js:743-836 | in the today state Previous is disabled exactly when it stays, and Next is disabled and stays |
| ScriptsApp.DateDisplay | scripts/app.js:722-738 | "Today" exactly in the today state, otherwise the MM/DD/YY form |
| ScriptsApp.Browser.constructor | scripts/app.js:34-41 | the module state starts empty with today's date |
| ScriptsApp.Browser.Perform | scripts/app.js:786-831 | a move sets the date and loads its URL, or the default feed when going back to today |
| ScriptsApp.Browser.NavigateToPreviousDate | scripts/app.js:777-804 | the handler performs PreviousMove; the date is unchanged or a listed one |
| ScriptsApp.Browser.NavigateToNextDate | scripts/app.js:809-836 | the handler performs NextMove; the date is unchanged, today, or a listed one |
| ScriptsApp.Browser.NavigateToToday | scripts/app.js:841-848 | the date becomes today and the default feed loads |
| ScriptsApp.Browser.ShowDateCalendar | scripts/app.js:853-873 | opens iff there are dates; a pick of today loads the default feed, another pick loads that date |
| ScriptsApp.Browser.ToggleCategoryFilter | scripts/app.js:498-521 | the filters become their toggle |
| ScriptsApp.Browser.DropItem | scripts/app.js:582-604 | the drop performs addCuratedItem on the list and keeps its result |
| ScriptsApp.Browser.RemoveItem | scripts/app.js:655-664 | the removal performs removeCuratedItem and keeps its result |
| ScriptsApp.Browser.ClearCuratedItems | scripts/app.js:258-267 | asks only on a non-empty list, and empties it after confirmation |
| ScriptsApp.Browser.GenerateCuratedJson | scripts/app.js:291-329 | the outcome is CuratedSpec over the converted document's categories, and is stored when a document results |
| ScriptsApp.ConvertedCategoriesAreSearchable | scripts/app.js:298-319 | with truthy categories the converted categories are an array |
| ScriptsApp.MissingCategoriesThrow | scripts/app.js:298-319 | with falsy categories and some curated item the generation throws |
| RootApp.ResolvedIndex | app.js:682-688 | the index of the current date, else of today; -1 exactly when neither is listed |
| RootApp.PreviousTarget | app.js:681-700 | index i+1 when it exists (so the newest date from -1), otherwise no move; a target is listed |
| RootApp.NextTarget | app.js:705-724 | index i-1 when i > 0, otherwise no move; a target is listed |
| RootApp.Buttons | app.js:651-676 | resolved index i: Previous disabled iff i >= len-1, Next iff i <= 0; unresolved counts as 0 |
| RootApp.ButtonsAgreeWhenResolved | app.js:651-724 | with a resolved index each button is disabled exactly when its handler would not move |
| RootApp.PreviousButtonDisagreesWhenUnresolved | app.js:656-699 | with one date and neither date listed Previous is disabled yet Previous moves |
| RootApp.NextAtNewestStays | app.js:705-724 | at the newest date Next does not move and its button is disabled; there is no live feed |
| RootApp.DateDisplay | app.js:637-646 | "Today" exactly when the date is today, otherwise the MM/DD/YY form |
| RootApp.ArchiveBrowser.constructor | app.js:39-41 | the date starts as today with the given archive |
| RootApp.ArchiveBrowser.GoTo | app.js:693-699 | a target becomes the date and its URL loads; no target changes nothing |
| RootApp.ArchiveBrowser.NavigateToPreviousDate | app.js:681-700 | the date moves to PreviousTarget or stays; it is unchanged or listed |
| RootApp.ArchiveBrowser.NavigateToNextDate | app.js:705-724 | the date moves to NextTarget or stays; it is unchanged or listed |
| RootApp.ArchiveBrowser.NavigateToToday | app.js:729-746 | refused exactly when today is not listed, changing nothing; otherwise today's archived file loads |
| RootApp.ArchiveBrowser.ShowDateCalendar | app.js:751-763 | refuses to open on an empty archive; a pick becomes the date and loads |
| Script.SomeSameText | script.js:625 | `some(item => item.text === data.text)`, throwing when a null is read |
| Script.DropDecision | script.js:620-638 | added exactly when no curated item has a `===` text, duplicate exactly when one has |
| Script.DropKeepsTextsDistinct | script.js:625-626 | an added drop keeps the texts pairwise distinct |
| Script.AtMostOneTextless | script.js:625 | with distinct texts at most one item lacks a text |
| Script.DropTwiceIsDuplicate | script.js:625-633 | dropping the same primitive-text item again is a duplicate |
| Script.Spliced | script.js:681 | `splice(i, 1)` removes exactly element i in range, from the end for a negative i, nothing past the end |
| Script.SplicedIsFilterOutIndex | script.js:681 | in range the in-place splice removes what the pure filter removes |
| Script.SplicedKeepsTextsDistinct | script.js:681 | removal keeps the texts distinct |
| Script.DisplayText | script.js:657-660 | "No content" for a missing or empty text, the first 50 characters and "..." for a longer one, the text otherwise; a null item throws |
| Script.DisplayTextBounded | script.js:658-660 | a shown text has at most 53 characters |
| Script.HeaderSourceOf | script.js:360-371 | a truthy date wins; then a string title's leftmost date as seconds; a title without a date is shown verbatim |
| Script.TitleWithoutDateIsVerbatim | script.js:363-369 | a title without a date string is shown as it is |
| Script.EpochTitleExtractsToZero | utils/dateUtils.js:43-53 | a title starting with 1970-01-01 extracts to 0 |
| Script.EpochTitleIsVerbatim | script.js:363-369 | since 0 is falsy, such a title is shown verbatim and not as a date |
| Script.CurationPage.constructor | script.js:4-6 | the page starts from the saved list |
| Script.CurationPage.Drop | script.js:620-638 | a drop appends the item in place exactly when DropDecision adds it |
| Script.CurationPage.RemoveItem | script.js:680-684 | the list becomes its splice at the index |
| Script.CurationPage.ClearCuratedItems | script.js:102-109 | asks only on a non-empty list, and empties it after confirmation |
| Script.CurationPage.GenerateCuratedJson | script.js:298-333 | the outcome is CuratedSpec over the raw document's categories, stored when a document results |
| Script.ObjectCategoriesThrow | script.js:298-333 | object-valued categories make generation throw, since they have no `find` |
| LiveViewer.EscapeHtml | live/livenewsviewer.js:378-385 | a falsy input gives ""; otherwise each of the five characters becomes its entity; the output is safe markup |
| LiveViewer.ReplaceChainIsEscapeChars | live/livenewsviewer.js:380-384 | the five global replaces in order equal escaping character by character |
| LiveViewer.EscapedIsSafe | live/livenewsviewer.js:380-384 | the output has no `<`, `>`, `"` or `'`, and every `&` starts one of the five entities |
| LiveViewer.EscapeKeepsPlainText | live/livenewsviewer.js:380-384 | a string without the five characters is unchanged |
| LiveViewer.UnescapeEscape | live/livenewsviewer.js:380-384 | decoding the entities, `&amp;` last, recovers the input |
| LiveViewer.EscapeInjective | live/livenewsviewer.js:380-384 | different inputs give different outputs |
| LiveViewer.Headline | live/livenewsviewer.js:232 | the first truthy of title, claim, development, the category title, else "Update"; always truthy |
| LiveViewer.Body | live/livenewsviewer.js:233 | the first truthy of summary, text, insight, observation, feedback_summary, else "" |
| LiveViewer.RunLength | live/livenewsviewer.js:106-116 | a greedy `\d+` or `\s+` run: all of the class and not followed by one |
| LiveViewer.FirstMatch | live/livenewsviewer.js:106-116 | the leftmost index where the pattern matches, none exactly when none does |
| LiveViewer.CountMatches | live/livenewsviewer.js:120-121 | zero exactly when `PR\s+#\d+` never matches |
| LiveViewer.CountOf | live/livenewsviewer.js:106-116 | 0 without a match, the captured number of the leftmost match otherwise |
| LiveViewer.TextOrEmpty | live/livenewsviewer.js:103 | `summaryItem.text \|\| ""` |
| LiveViewer.StatsOf | live/livenewsviewer.js:103-122 | each count from its phrase, and the completed count from the `PR #` matches of the first completed item's text |
| LiveViewer.ChartMax | live/livenewsviewer.js:138 | the chart maximum is at least 1 and every count, and is one of them or 1 |
| LiveViewer.ScanSummary | live/livenewsviewer.js:572-581 | a pass without a throw met no null category; the summary item is not null |
| LiveViewer.ItemTiles | live/livenewsviewer.js:590-596 | one tile per item, with the category title, skipping the summary item, stopping at a null item |
| LiveViewer.CategoryTiles | live/livenewsviewer.js:585-597 | stats categories and non-array contents give no tiles |
| LiveViewer.AllTilesShape | live/livenewsviewer.js:585-598 | every tile shows an item of a non-stats category's array content; without a throw or summary item, one tile per such item |
| LiveViewer.AllTilesStops | live/livenewsviewer.js:585-598 | after a throw no later category adds tiles |
| LiveViewer.CollectTiles | live/livenewsviewer.js:585-598 | the loop over the categories, with ItemTiles for each category's items, computes exactly the tiles of AllTiles |
| LiveViewer.NextIndex | live/livenewsviewer.js:533 | `(current + 1) % count` stays below count, goes from -1 to 0, wraps the last to 0, and steps by one otherwise |
| LiveViewer.SlideShow.constructor | live/livenewsviewer.js:8-11 | no cards, index -1, not transitioning |
| LiveViewer.SlideShow.ShowSlide | live/livenewsviewer.js:440-445 | the same index or a running transition changes nothing; otherwise the index becomes the new one |
| LiveViewer.SlideShow.NextSlide | live/livenewsviewer.js:527-536 | nothing on an empty deck; otherwise the slide at NextIndex is shown |
| LiveViewer.SlideShow.LoadAndDisplayNews | live/livenewsviewer.js:538-604 | the cards become the tiles of the converted document and the index resets to -1; a failed load changes nothing |

## Left out

- DOM rendering, event wiring, toasts, modals, the calendar grid, keyboard shortcuts, animation, random tile and font sizes, `fitTextToContainer` and chart bar sizes: presentation only.
- `fetch`, `localStorage` and services/newsService.js: I/O; the listing a fetch returns, its failure and the save outcome are parameters.
- `getCurrentDate` and its day offset, `formatDate` and the local-time part of `parseBriefingDate`: clock and time zone; "today" and the local conversion are parameters.
- Floating point: numbers are reals in `Json`, and `parseInt` of very long digit strings is exact here where JavaScript loses precision.
- Object keys are taken in document order; JavaScript lists integer-like keys first, which the model does not do. Objects are assumed to have distinct keys, as `JSON.parse` leaves them.
- String length counts code points here, while JavaScript counts UTF-16 units (the 50-character cut of the curated display).
- The sort of fetchAvailableDates is modelled on a sequence, not in place; the comparator on names that are not valid dates (a `NaN` difference) is left out because the regular expression admits only `YYYY-MM-DD` names, and invalid calendar days such as 2024-13-45 are ordered by their written digits.
- A non-integer or non-number index passed to `removeItem` or `splice`: indices are integers, as the curated display generates them.
- Prototype keys such as `constructor` colliding with category names in the grouping object: left out, keys are ordinary.
- script.js toggleCategoryFilter (script.js:539-561) is the same code as scripts/app.js:498-521 and is modelled by FilterManager.Toggled; refactored/dragAndDrop.js and refactored/curationManager.js repeat script.js's de-duplication and splice, and refactored/dataManager.js repeats script.js:298-333.
- The button "active" class is modelled as membership in the filter list; a page with two buttons of the same title would diverge from that.
- createGitHubStatsCard (live/livenewsviewer.js:92) is never called anywhere in the program; its counts are modelled as written (StatsOf, ChartMax) but not its card.
- The `title` written onto the summary item in loadAndDisplayNews is not modelled: no tile shows the summary item.
- nextSlide (live/livenewsviewer.js:527) and revisedShowSlide (live/livenewsviewer.js:440) are never called in that file, and no interval is ever set there (`slideIntervalId` is only cleared, at line 571); SlideShow.NextSlide and SlideShow.ShowSlide model them as written. The timeout that ends a transition is left out: ShowSlide treats the transition as finished at once.
- DataUtils.ExtractItemText, DataUtils.GetImageUrl and DataUtils.GetSourceLinks require a non-null item: a null item makes the source throw on its first property read, which these members do not model.
- StorageService.ItemExists and StorageService.AddCuratedItem require a list without null items, and a non-null new item unless the list is empty: a null item that the `some` callback reads makes the source throw, which these members do not model. On an empty list the callback never runs, so a null new item is accepted and appended.
- DataUtils.GetSourceLinks: the random toggle id and the markup are left out; only the choice of links is modelled.
- ScriptsApp.Browser.DropItem: requires a non-null dropped item and a list without nulls, as produced by JSON.parse of a dragged item.
- Script.DisplayText: a truthy text that is not a string gives ShownValue without modelling `.length` and `substring` on it.
- LiveViewer.StatsOf: the counts are stated for a summary text that is a string or falsy; a truthy non-string text gives None.
- LiveViewer.CountOf: the case folding of the `i` flag is over ASCII letters only, as JavaScript does without the `u` flag; non-ASCII letters with a case mapping are not folded.
- DateUtils.UtcSecondsIncreasing: stated for years from 100 on, because Date.UTC maps the years 0 to 99 onto 1900 to 1999 (DateUtils.TwoDigitYearAlias).
- LiveViewer.LengthPositive: `category.content.length > 0` is modelled for a number or boolean `length`; JavaScript also coerces a string, array or object `length` to a number (an object content with `"length": "3"` passes), which the model takes as not positive.
- LiveViewer.ChartMax: bounds the three activity counts only, as the source's `activityData` does.
