# Call documentation desk — a verified model

The call documentation tool is a single-page application for a support desk. An agent
picks a main category and a subcategory for each call, types the inbound and outbound
minutes, and logs the call. The page keeps per-category call statistics for today and
for all time, lets the agent undo the last call for 60 seconds, and offers an editor for
the category tree and for custom customer fields. It also has a stopwatch with a short
history. All state lives in browser storage.

This project models the core of `app.js` in Dafny:

- `Text` holds trimming, Latin-1 lower-casing and decimal digits.
- `Slug` models `generateKey`, which turns a display name into a storage key.
- `Dict` models JavaScript objects used as ordered dictionaries: keys in insertion order.
- `Categories` models the category tree:
  - the three default categories;
  - the checks and merge that `initCategories` applies to saved data;
  - the two-phase lookup `getSubcategoryKeyFromName`;
  - the nested updates of the editor.
- `Stats` models the statistics aggregate `callStats`:
  - six sparse counter tables and two timestamp lists;
  - what logging a call adds and what undo takes away;
  - the day rollover of `loadCallStats`;
  - the invariant that the call counters add up to the number of timestamps.
- `Report` models `getStatsForCategory` and `calculateCategoryStats`. The method walks the
  tree with the source's two nested loops and is proved equal to a recursive definition.
  The lemmas then give the report's meaning.
- `Format` models `formatTime` and `formatStopwatchTime`, each with a reader proved to
  invert it.
- `TimeEntry` models the `parseInt(value) || 0` reading of the minute fields, the totals
  of `updateTotalTime` and the "some field is filled in" check of `logCall`.
- `Focus` models the keyboard cycling of `handleSubcategoryKeydown`.
- `Application` models `logCall`, `undoLastCall` and the page state in a class, `Desk`.
  - `logCall` and `undoLastCall` are first defined as values, then as loops over the six
    counter names.
  - `Desk`'s methods update the state's fields in place and write through to a modelled
    storage, as the source does. They cover the category editor, the custom fields, the
    stopwatch with its 20-entry history and the dropdown focus.

The browser clock is a parameter: `now` in milliseconds, and timestamp and date strings.
The 60-second undo timeout is a deadline field that `ClockAdvances` fires. The user's
answers to confirmation dialogs are boolean parameters.

## Model

| member | source | states |
|---|---|---|
| Text.Trim | app.js:1691 | the trimmed text is empty exactly when the input is all whitespace; otherwise it starts and ends with non-whitespace |
| Text.Lower | app.js:584 | lower-casing keeps the length and maps each character on its own; ASCII letters and digits stay letters and digits |
| Slug.Collapse | app.js:225 | replacing each run of non-`[a-z0-9]` characters by `_` leaves only key characters and single underscores; the result starts with `_` exactly when the input started with a non-key character |
| Slug.CollapseIsSqueezedMark | app.js:225 | the replacement equals marking each non-key character as `_` and then merging adjacent `_`: the key characters stay in order and each maximal non-key run becomes exactly one `_` |
| Slug.GenerateKeyIsSlug | app.js:224-226 | every key is a slug: lower-case ASCII letters, digits and single underscores, no underscore at either end |
| Slug.GenerateKeyEmpty | app.js:224-226 | the key is empty exactly when no character of the lower-cased name is an ASCII letter or digit |
| Slug.SlugIsFixedPoint | app.js:224-226 | a slug is its own key |
| Slug.GenerateKeyIdempotent | app.js:224-226 | generating a key twice gives the same key as once |
| Slug.NonAsciiNameKey | app.js:224-226 | the default category name "Käyttötuki" gets the key "k_ytt_tuki", not "kayttotuki": the accented letters become separators |
| Slug.NonAsciiOnlyName | app.js:224-226 | a name made only of non-ASCII letters, such as "ää", gets the empty key |
| Dict.Put | app.js:2248 | assigning a property maps the key to the value and appends the key to the order only when it is new |
| Dict.Remove | app.js:2326 | deleting a property drops the key from the mapping and from the order, keeping the other keys in order |
| Dict.PutRemoveRoundTrip | app.js:2248 | adding a new key and deleting it again gives back the same dictionary, order included |
| Categories.DefaultCategories | app.js:283-298 | the defaults are "helppi", "kayttotuki" and "aspa" in that order, each with its display name and no subcategories |
| Categories.AddIfMissingSpec | app.js:318-321 | merging one baseline key adds it if absent, keeps every saved entry unchanged and keeps the saved key order as a prefix |
| Categories.AddMissingEntries | app.js:316-321 | after the merge, saved entries are unchanged and every added entry is a default category |
| Categories.AddMissingOrder | app.js:316-321 | the merge only appends keys: the saved key order is a prefix of the merged order |
| Categories.LoadedHasBaseline | app.js:300-337 | whatever storage holds, the three baseline keys are present after initialisation |
| Categories.LoadFallsBackToDefaults | app.js:300-337 | absent, unparsable, non-object or nameless saved data gives exactly the defaults, and a notice is shown unless storage was empty |
| Categories.LoadKeepsSavedEntries | app.js:309-324 | saved data with a readable name keeps every saved entry and its key order, adds only default categories, and shows no notice |
| Categories.FirstNameMatch | app.js:586-591 | the scan returns the first subcategory whose lower-cased name equals the lower-cased input, and none is skipped |
| Categories.SubcategoryKeyFromNameSpec | app.js:580-599 | lookup is two-phase: no main category gives none; else the first case-insensitive name match wins; else the input itself if it is a key; else none |
| Categories.WithSubcategory | app.js:2286 | storing a subcategory keeps the main categories and their order |
| Categories.WithSubcategoryFrame | app.js:2286 | storing a subcategory changes only that main category's subcategory map, at that one key |
| Categories.WithoutSubcategory | app.js:2305 | deleting a subcategory keeps the main categories and their order |
| Categories.AddThenDeleteSubcategory | app.js:2302-2311 | adding a new subcategory and deleting it restores the tree exactly |
| Categories.AddThenDeleteMainCategory | app.js:2313-2334 | adding a new main category and deleting it restores the tree exactly |
| Stats.StatKeyCollision | app.js:1865 | the statistics key joins the two keys with `_`, so ("a_b", "c") and ("a", "b_c") share one counter |
| Stats.CommittedTable | app.js:1867-1878 | logging adds 1 to both call counters and the call's minutes to the matching minute counters, creating each missing counter at 0 first |
| Stats.CommitStatsFor | app.js:212-219 | after logging, the figures of the logged category rise by one call and its minutes; every other category's figures are unchanged |
| Stats.RemoveFirst | app.js:1959-1964 | undo's splice removes one element if the timestamp is present and nothing otherwise |
| Stats.RemoveFirstMultiset | app.js:1959-1964 | the splice removes exactly one occurrence of the timestamp |
| Stats.RemoveFirstAppended | app.js:1959-1964 | removing a timestamp that logging appended, and that was not there before, restores the list |
| Stats.ReversedTable | app.js:1949-1956 | undo subtracts each amount from a non-zero counter and deletes the counter when it reaches 0; zero or missing counters are left alone |
| Stats.UndoCounter | app.js:1949-1956 | undo after logging restores a counter, or deletes it when logging had created it; a counter that logging left at 0 is skipped by undo and stays at 0 |
| Stats.ZeroMinuteCounterSurvivesUndo | app.js:1950-1955 | a call logged with 0 outbound minutes leaves a 0 outbound counter after undo |
| Stats.CommitThenUndo | app.js:1938-1964 | logging then undoing is a round trip whenever no counter is left at 0 and the timestamp was new |
| Stats.FreshMatches | app.js:631-640 | a fresh aggregate satisfies the invariant that each day's call counters sum to the number of that day's timestamps |
| Stats.CommitKeepsInvariant | app.js:1867-1884 | logging keeps call counters summing to the timestamp counts |
| Stats.UndoAfterCommitKeepsInvariant | app.js:1949-1964 | undoing the call just logged keeps call counters summing to the timestamp counts |
| Stats.RolloverSpec | app.js:618-625 | on a new date the today tables and today timestamps are cleared and the date set, leaving all-time data untouched; on the same date nothing changes |
| Stats.RolloverIdempotent | app.js:618-625 | rolling over twice to the same date is rolling over once |
| Stats.RolloverKeepsInvariant | app.js:618-625 | the rollover keeps call counters summing to the timestamp counts |
| Report.WalkSubcategories | app.js:245-258 | the inner loop sums the figures of the main category's subcategories and records each one's name and figures |
| Report.WalkMainCategory | app.js:236-259 | one round of the outer loop adds the main category's call total to the grand total and stores its totals and details under its key |
| Report.CalculateCategoryStats | app.js:231-262 | the two nested loops compute exactly the recursively defined report |
| Report.ReportMains | app.js:231-262 | the report has one entry per main category in both maps, each with its name, and a main category's call count equals its totals' calls |
| Report.ReportCalls | app.js:236-250 | each main category's call count is the sum of its subcategories' call counters |
| Report.ReportDetails | app.js:238-258 | each main category's details are its name, its summed totals and its subcategories' details |
| Report.ReportSubcategories | app.js:245-258 | a main category's details list exactly its subcategories, each with its name and the figures under its statistics key |
| Report.TotalIsSumOfMainCalls | app.js:248-249 | the grand total is the sum of the main categories' call counts |
| Report.ReportIgnoresOrphans | app.js:245-247 | statistics under keys of no current subcategory do not affect the report |
| Report.CommitRaisesTotal | app.js:231-262 | after logging a call, the grand total rises by the number of subcategories whose statistics key is the logged key |
| Report.DeleteMainCategoryReport | app.js:2313-2334 | deleting a main category, which leaves the statistics alone, lowers the grand total by that category's calls and drops it from the report |
| Format.FormatTimeRoundTrip | app.js:197-207 | every minute count, negative or not, with or without hours, is read back from its display text |
| Format.FormatTimeShowsHours | app.js:198-200 | the plain "N min" form is used exactly when hours are not asked for or the count is under 60 |
| Format.PadStart2 | app.js:936 | text shorter than two characters gets exactly enough leading `0`s to reach two; longer text is kept; digit text stays digit text |
| Format.StopwatchRoundTrip | app.js:932-937 | every elapsed second count is read back from its "HH:MM:SS" text |
| TimeEntry.MinutesOfNumber | app.js:1774 | a field holding a decimal number, whatever follows it, reads as that number |
| TimeEntry.MinutesOfDigits | app.js:1774 | digits with or without a leading minus read as their value, ignoring what follows |
| TimeEntry.BlankReadsZero | app.js:1774 | a blank field reads as 0 |
| TimeEntry.NonNumberReadsZero | app.js:1774 | a field not starting with a digit, a sign or whitespace reads as 0 |
| TimeEntry.TotalMinutes | app.js:1773-1779 | the loop over the fields returns the sum of their readings |
| TimeEntry.MinutesSumAppend | app.js:1773-1779 | the sum over two groups of fields is the sum of the two sums |
| TimeEntry.AnyTimeEntered | app.js:1853-1855 | the loop reports time entered exactly when some field is non-empty |
| TimeEntry.NothingEnteredSumsToZero | app.js:1853-1860 | when no field is filled in the total is 0 |
| Focus.HiddenOrEmptyIgnoresKeys | app.js:414-422 | with the dropdown hidden or empty, a key changes nothing |
| Focus.KeyDownKeepsRange | app.js:411-498 | a key keeps the focus index among -1 and the entries, and a move highlights the entry it lands on |
| Focus.StepsLandOnEntries | app.js:425-440 | stepping forward from -1 or an entry, or back from an entry or one past the end, lands on an entry |
| Focus.StaleIndexHighlightsNothing | app.js:484-496 | moving up from an index two past the shrunk list highlights nothing |
| Focus.BackwardUndoesForward | app.js:425-440 | a step back undoes a step forward, and the reverse |
| Focus.ForwardStepsWrap | app.js:469-474 | k steps forward from an entry land k places on, wrapping around |
| Focus.FullCycle | app.js:469-474 | as many steps forward as there are entries come back to the start |
| Focus.EnterAndEscape | app.js:455-467 | Enter on a focused entry selects it, closes the dropdown and clears the focus (the click runs `selectSubcategory`, which hides the list), and does nothing without one; Escape closes the dropdown and clears the focus |
| Application.CommitCall | app.js:1867-1884 | the loop over the six counter names, then the two pushes, compute exactly the logged aggregate |
| Application.IndexOf | app.js:1961 | `indexOf` gives the first position of the timestamp, or -1 when absent |
| Application.RemoveTimestamp | app.js:1959-1964 | find and splice remove the first occurrence of the timestamp |
| Application.ReverseCall | app.js:1949-1964 | undo's loop over the six counter names, then the splices, compute exactly the reversed aggregate |
| Application.ResolveSubcategoryStable | app.js:1824-1844 | the corrected resolution, which tests the lookup for a hit rather than for truthiness, creates a subcategory exactly when lookup fails and the slug is free, and refuses when the slug is taken; the key then exists, and resolving the same name again finds it. The source does not keep this promise for a name whose slug is empty (see `EmptySlugNameLoggedOnce`) |
| Application.ResolutionsAgree | app.js:1825-1834 | the source's truthiness test and the corrected test resolve alike unless the lookup hits the empty key |
| Application.ResolveAsWrittenSound | app.js:1824-1844 | the source's resolution gives a found key that exists and leaves the tree alone, or creates the name's slug, which was free and exists afterwards |
| Application.EmptyKeyRefused | app.js:1825-1834 | as written, a lookup hit on the empty key is dropped and its slug refused, where the corrected resolution files the call under it |
| Application.EmptyKeyExample | app.js:1825-1834 | the subcategory "ää", filed under the empty key, cannot take a call as written |
| Application.LogCallOn | app.js:1805-1930 | the checks, the resolution with the source's truthiness test, the field loops and the commit, in source order, compute exactly the specified logging |
| Application.LogCallCommits | app.js:1862-1893 | a logged call names the main category and an existing subcategory, carries the summed minutes and timestamp, and its aggregate is the committed one |
| Application.LogCallFailureKeepsStats | app.js:1814-1860 | a refused call leaves the statistics unchanged, and the tree changes only when a subcategory was created; that happens only when the time check fails |
| Application.SubcategoryCreatedBeforeTimeCheck | app.js:1827-1860 | a new name with no minutes entered is refused, yet its subcategory is created and kept |
| Application.EmptySlugNameLoggedOnce | app.js:1825-1893 | a new name with an empty slug is logged once, under the key `""`, and every later call under that name is refused as a duplicate with nothing changed |
| Application.LogCallKeepsInvariant | app.js:1805-1930 | logging, successful or not, keeps call counters summing to the timestamp counts |
| Application.LogThenUndo | app.js:1805-1975 | undoing a successfully logged call restores the statistics when no counter would be left at 0 and the timestamp is new |
| Application.EnteredInEither | app.js:1853-1855 | time counts as entered exactly when some inbound or some outbound field is non-empty |
| Application.HasFieldNamed | app.js:1698 | the scan finds a field exactly when some field's name equals the input ignoring case |
| Application.TaskName | app.js:968 | the history name is the trimmed input, or "Unnamed Task" when that is empty |
| Application.RecordedSpec | app.js:971-980 | recording puts the entry first, shifts the rest down and keeps at most 20 |
| Application.RecordedAllBounded | app.js:977-980 | any number of recorded runs leaves at most 20 entries, the latest first |
| Application.Desk.constructor | app.js:145-160 | the page starts with no categories, an empty aggregate, no custom fields, an empty undo slot, a stopped stopwatch at 0 and no focus |
| Application.Desk.InitCategories | app.js:300-337 | the installed tree and notice are those of the load rules, and the tree is written back to storage |
| Application.Desk.LoadCallStats | app.js:614-643 | stored statistics are rolled over to today and written back only on a new day; without them a fresh aggregate is started and not written |
| Application.Desk.LogCall | app.js:1805-1930 | the stopwatch is paused; outcome, tree and statistics follow the logging rules, with the source's resolution; a created subcategory is saved; a logged call is saved, takes the undo slot and sets a 60-second deadline; a refusal keeps stats, slot and deadline |
| Application.Desk.UndoLastCall | app.js:1932-1975 | with an empty slot nothing changes; otherwise the slot's call is reversed and saved, and the slot and deadline are cleared |
| Application.Desk.ClockAdvances | app.js:1900-1904 | once the deadline is reached the undo slot empties; before that nothing changes |
| Application.Desk.AddNewMainCategory | app.js:2233-2262 | an empty name or a taken slug is refused with nothing changed; otherwise an empty category under the slug is added and saved |
| Application.Desk.AddNewSubcategory | app.js:2264-2293 | no main category, an empty name, an unknown main category or a taken slug is refused with nothing changed; otherwise the subcategory with trimmed name and template is added and saved |
| Application.Desk.UpdateSubcategory | app.js:2295-2300 | an existing subcategory's template becomes the edited text, its name kept, and is saved; anything else is refused unchanged |
| Application.Desk.DeleteSubcategory | app.js:2302-2311 | once confirmed, exactly that subcategory goes and the tree is saved; statistics are not touched |
| Application.Desk.DeleteMainCategory | app.js:2313-2334 | only after both confirmations the main category and its subtree go and the tree is saved; statistics are not touched |
| Application.Desk.AddCustomField | app.js:1690-1708 | an empty name, or one equal ignoring case to an existing field, is refused; otherwise the trimmed name is appended and saved |
| Application.Desk.DeleteCustomField | app.js:1710-1717 | once confirmed, the field at the index goes, the rest keep their order, and the list is saved |
| Application.Desk.StartStopwatch | app.js:943-954 | the stopwatch runs afterwards |
| Application.Desk.PauseStopwatch | app.js:956-963 | the stopwatch is stopped afterwards |
| Application.Desk.StopwatchTick | app.js:949-952 | a tick adds one second while running and nothing otherwise |
| Application.Desk.ResetStopwatch | app.js:965-992 | a run with elapsed time is recorded first in the history, capped at 20 and saved; the stopwatch then stops at 0 |
| Application.Desk.SubcategoryKeyDown | app.js:411-498 | the focus moves as the key-handling rules say (Enter on an entry resets it to -1), and an index in range stays in range |
| Application.Desk.ClearFocus | app.js:562 | closing the dropdown clears the focus |

## Left out

- Rendering, notifications, alerts, the DOM and the clipboard are not modelled. Only their effect on state is: a refused action changes nothing.
- Browser storage is modelled as fields holding the parsed values. JSON text, serialisation and storage errors are not modelled.
- `setInterval` and `setTimeout` are modelled as events: `StopwatchTick` and `ClockAdvances`. The undo countdown display is left out.
- The 50 ms delayed restore of the subcategory field after logging (app.js:1920-1929) is left out, along with `lastLoggedMainCategory`.
- Floating notes, personal notes, the schedule, sidebars, dark mode, CSV export and the statistics tables' HTML are outside the core.
- Loading of custom fields and stopwatch history, and deleting one history entry, are left out. They read storage into state with no logic of their own.
- Application.Desk.constructor: the initial `callStats = {}` is modelled as a fresh aggregate with an empty date. Before `loadCallStats` runs, nothing reads it.
- Text.Lower: lower-casing covers ASCII and Latin-1 capitals only, not the rest of Unicode.
- TimeEntry.MinutesOf: only decimal text is modelled. `parseInt` forms such as a leading `0x` are not.
- Format.FormatTimeRoundTrip: the readers accept only the text the formatters write. They are not parsers of arbitrary input.
- Dict.Put: JavaScript lists integer-like keys first, in numeric order. The model keeps plain insertion order, and inherited prototype keys such as `constructor` are not modelled.
- Categories.LoadCategories: the saved tree is assumed well formed. A saved entry that is falsy, an array, or has no `subcategories` is not modelled. Neither are saved statistics of the wrong shape.
- Application.Desk.AddNewSubcategory, Application.Desk.UpdateSubcategory, Application.Desk.DeleteSubcategory, Application.Desk.DeleteMainCategory and Application.Desk.DeleteCustomField: in the source, a main category, subcategory or index that is missing throws a `TypeError` before any change. The model returns a failure that changes nothing.
- Application.LogCallSpec: a main category that is chosen but missing from the tree also throws in the source (app.js:1831). The model returns `UnknownCategory`, with the stopwatch already paused as in the source.
- Report.WalkSubcategories: the inner loop carries the main category's running call count in a local variable. The outer round then stores it under the main key, with the same result the source builds by updating the map entry in place.
- Application.ResolveSubcategory: the corrected resolution is stated and proved on its own. The model of `logCall` (`LogCallSpec`, `LogCallOn`, `Desk.LogCall`) keeps the source's truthiness test, so it refuses a call under a subcategory keyed `""` as the source does.
- Numbers are mathematical integers. JavaScript numbers are doubles, so the model assumes every minute count, counter, sum and elapsed time stays below 2^53. Above that, `parseInt` and `+=` round, and `${minutes}` writes 10^21 and above in exponent form. TimeEntry.MinutesOfNumber, Format.FormatTimeRoundTrip and the counter lemmas of `Stats` hold for the program only in that range.
- Stats.CallsMatchTimestamps holds only for aggregates built by these operations. Saved data may break it.

## Findings

| source | as written | input that shows it | evidently intended | confidence | as-written member | corrected member |
|---|---|---|---|---|---|---|
| app.js:1825-1834 | `if (!subCategoryKey)` treats a lookup hit on the empty key `""` as no hit, then refuses the name's slug `""` as already taken | a subcategory named "ää" added in the editor (its slug, and so its key, is `""`); then logging a call under "ää" | a hit on any key, including `""`, files the call under that key (`subCategoryKey === null`) | high, not executed | Application.EmptyKeyRefused | Application.ResolveSubcategoryStable |
