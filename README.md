# FreeBee release selector, in Dafny

FreeBee is a static page that lists upcoming video-game releases by
platform. It reads a flat list of game records (`platform`, `date`, title,
image, link, trailer) and decides which records each platform shows:

- records are grouped by their exact `platform` string;
- a platform whose name lower-cases to `sony` keeps the records dated in the
  current month and year;
- every other platform keeps the records whose timestamp equals the latest
  timestamp among that platform's records;
- a second pass refills any empty group with the platform's latest-dated
  records.

The page also formats dates as `MM/DD` and turns a `watch?v=` trailer link
into an autoplaying `embed/` link. This project models those three pieces
and proves what they promise.

Modules, one per concern:

- `Seqs` (seqs.dfy): order-preserving `Filter` (JavaScript's `Array.prototype.filter`)
  and the subsequence relation.
- `Text` (text.dfy): the string built-ins the page uses: `toLowerCase`, `replace` with a
  string pattern, number `toString` and `padStart`. `IndexOf` is the search for the leftmost
  occurrence that `replace` performs; the page does not call `indexOf` itself.
- `Dates` (dates.dfy): a date as a calendar record (year, month 0..11, day 1..31,
  milliseconds into the day). `Stamp` stands for `getTime()`. `FormatDate` is the page's `formatDate`.
- `Trailer` (trailer.dfy): the embed-URL rewrite.
- `Releases` (releases.dfy): the selection stated as functions of the input list
  and of "today", and the properties proved about it.
- `Selector` (selector.dfy): the selector as the page runs it. `GroupByPlatform` is the
  `reduce` loop over the records, which fills a map accumulator. `FillEmptyGroups`
  is the loop over the accumulator's keys. Each method is proved equal to the functions of `Releases`.
- `Scenarios` (scenarios.dfy): three worked selections on small inputs.

"Now" (`new Date()`) is a parameter, `today`.

Two details of the selector shape the model:

- the most-recent test compares full `getTime()` values, not calendar days
  (assets/js/script.js:60, 75), so two records of the same day at different
  times are not both "most recent";
- a platform's group exists from its first record on, even when the first pass
  keeps nothing for it, and is then refilled by the fallback
  (assets/js/script.js:41-43, 69-78).

## Model

| member | source | states |
|---|---|---|
| Seqs.FilterIn | assets/js/script.js:57 | `filter` keeps exactly the elements that satisfy the predicate |
| Seqs.FilterMultiset | assets/js/script.js:74-76 | `filter` keeps every copy of a satisfying element, duplicates included, and no copy of any other element |
| Seqs.FilterIsSubseq | assets/js/script.js:74-76 | `filter` keeps the survivors in input order (a subsequence of the input) |
| Seqs.FilterEmpty | assets/js/script.js:70 | a filtered list is empty exactly when no element satisfies the predicate |
| Text.ToLower | assets/js/script.js:46 | `toLowerCase` keeps the length, leaves no upper-case ASCII letter, and changes a character only by lower-casing an upper-case letter |
| Text.ToLowerMatches | assets/js/script.js:46 | lower-casing gives a lower-case word exactly when the string spells it in any mix of cases |
| Text.IndexOf | assets/js/script.js:140 | the search inside `replace` with a string pattern: the leftmost index where the pattern occurs, or none when it occurs nowhere |
| Text.ReplaceFirst | assets/js/script.js:140 | `replace` with a string pattern: without an occurrence the string is unchanged; otherwise exactly the leftmost occurrence is swapped for the replacement |
| Text.DecimalString | assets/js/script.js:27 | `toString` of a number yields decimal digits denoting that number; one digit below 10, two digits from 10 to 99 |
| Text.PadStart | assets/js/script.js:27 | `padStart` reaches the target width by putting fill characters before the unchanged string, and leaves longer strings alone |
| Dates.StampInjective | assets/js/script.js:60 | two dates have equal `getTime()` exactly when they are the same instant |
| Dates.StampOrder | assets/js/script.js:35-37 | `Stamp`, the model of `getTime()`, orders instants as the calendar does: by year, then month, day and time of day |
| Dates.InCurrentMonthBlock | assets/js/script.js:50-51 | `InCurrentMonth` (same `getMonth()` and `getFullYear()` as today) holds exactly when the instant lies between the first instant of today's month and the first instant of the next |
| Dates.FormatDate | assets/js/script.js:26-28 | `formatDate` gives 5 characters `MM/DD`: two digits whose value is month+1, a `/`, two digits whose value is the day |
| Trailer.EmbedUrl | assets/js/script.js:140 | the embed URL ends in `?autoplay=1`; only the leftmost `watch?v=` becomes `embed/`; without one the URL is unchanged apart from the suffix |
| Trailer.EmbedKeepsLaterText | assets/js/script.js:140 | everything before the first `watch?v=` and everything after it, including a second `watch?v=`, passes through unchanged |
| Releases.OnPlatform | assets/js/script.js:57 | `games.filter(g => g.platform === p)` returns only input records whose platform is exactly `p` |
| Releases.IsSony | assets/js/script.js:46 | the Sony rule applies exactly to the strings that spell `sony` in any mix of cases |
| Releases.MostRecentStamp | assets/js/script.js:35-37 | `getMostRecentScrapeDate`: no record is dated later than the result, and some record carries it |
| Releases.IsMostRecentIffLatest | assets/js/script.js:35-37 | a record carries the list's most recent date exactly when no record of the list is dated later |
| Releases.MostRecent | assets/js/script.js:74-76 | the latest-dated records: each is a record of the list with no later record, and a non-empty list yields at least one |
| Releases.MostRecentOnPlatform | assets/js/script.js:57-60 | a record's `getTime()` equals the maximum over its platform's records exactly when no record of its platform is later |
| Releases.MostRecentSpec | assets/js/script.js:71-76 | the latest-dated records are exactly the records with no later record, in input order, and there is at least one whenever the list is non-empty |
| Releases.OnPlatformShape | assets/js/script.js:57 | a platform's records are exactly the input records with that exact platform string, in input order, and are non-empty exactly for the platforms seen |
| Releases.InMonth | assets/js/script.js:50-54 | the Sony filter returns only records of the list dated in today's month and year |
| Releases.InMonthShape | assets/js/script.js:50-54 | the in-month records are exactly those dated in today's month and year, in input order |
| Releases.Kept | assets/js/script.js:45-63 | the first pass keeps a Sony record when it is dated in today's month and year, and any other record when no record of its platform is later |
| Releases.FirstPass | assets/js/script.js:40-66 | a platform's first-pass list holds only input records of that platform, and is non-empty for every platform other than Sony that occurs |
| Releases.Selected | assets/js/script.js:69-78 | after the fallback a platform's list holds only input records of that platform, and is non-empty for every platform that occurs |
| Releases.Selection | assets/js/script.js:40-78 | the rendered object has exactly one key per platform in the input, and no key maps to an empty list |
| Releases.GroupSoFarIsFirstPass | assets/js/script.js:40-66 | pushing kept records one by one gives, per platform, the Sony month filter or the latest-date filter over that platform's records |
| Releases.FallbackKeepsNonSony | assets/js/script.js:69-78 | the fallback leaves the list of every platform other than Sony as the first pass made it |
| Releases.SelectionShape | assets/js/script.js:40-78 | the keys are exactly the platforms seen; every list is non-empty, a subsequence of the input, and holds only records of its exact key |
| Releases.SelectedShape | assets/js/script.js:69-78 | for one platform seen in the input, the final list is non-empty, in input order, and holds only that platform's input records |
| Releases.NonSonySelection | assets/js/script.js:55-62 | a platform other than Sony shows exactly its records with no later-dated record of the same platform |
| Releases.LatestOnPlatform | assets/js/script.js:57-60 | being latest among a platform's records is the same as no input record of that platform being later |
| Releases.SonySelection | assets/js/script.js:46-54 | a Sony platform with records in today's month and year shows exactly those records, in input order |
| Releases.SonyFallback | assets/js/script.js:69-78 | a Sony platform with no record in today's month shows its latest-dated records, and so is non-empty |
| Releases.SingleRecordSelected | assets/js/script.js:40-78 | a single record always shows, under the Sony month rule or through the fallback |
| Selector.KeepsRecord | assets/js/script.js:45-63 | the per-record decision of the `reduce`, computed through the platform's maximum as the page does, keeps a Sony record exactly when it is in today's month and year, and any other record exactly when no record of its platform is dated later |
| Selector.GroupByPlatform | assets/js/script.js:40-66 | the `reduce` creates one key per platform seen, and each list is that platform's first-pass list |
| Selector.FillEmptyGroups | assets/js/script.js:69-78 | keeps the keys; replaces each empty list by the platform's latest-dated records and leaves the rest alone; every platform seen ends up non-empty |
| Selector.SelectReleases | assets/js/script.js:40-78 | the two passes together compute the selection |
| Scenarios.LatestXboxOnly | assets/js/script.js:55-62 | of two xbox records dated January 10 and 12, only the January 12 one is shown |
| Scenarios.SonyThisMonth | assets/js/script.js:46-54 | a Sony record from today's month is shown |
| Scenarios.SonyLastMonthFallsBack | assets/js/script.js:69-78 | a lone Sony record from the previous month is still shown, through the fallback |

## Left out

- Fetching `games.json`, the HTTP status check, JSON parsing, the "not an array" error and all `console` logging (assets/js/script.js:4-18, 158-160): I/O and promise plumbing.
- Rendering the tiles and the `date-range` label, and the click handler that creates the video iframe (assets/js/script.js:31-32, 83-156): DOM wiring. Only the URL expression at line 140 is modelled.
- Parsing the date strings, reading month and year in the local time zone, and the seven-day `setDate` rollover (assets/js/script.js:21-23, 45): these are the behaviour of JavaScript's `Date`. Dates enter the model already decoded as valid calendar values, and "now" is the `today` parameter.
- Invalid dates (`NaN` timestamps, which equal nothing): the `Date` type admits valid dates only.
- Text.ToLower: lower-cases ASCII letters only and leaves other characters unchanged. No other character lower-cases to `s`, `o`, `n` or `y`, so the Sony test is unaffected.
- Releases.MostRecentStamp: requires a non-empty list. The source's maximum of an empty list is an invalid `Date`. Every call passes a non-empty list: `IsMostRecent` checks for the empty list first, and an empty list makes no date the most recent, as the invalid `Date` does; `Selector.KeepsRecord` passes the records of a platform that includes the record at hand.
- The argument limit of `Math.max(...)` (assets/js/script.js:36): spreading a very long list of records throws a `RangeError` in JavaScript engines. `Releases.MostRecentStamp` takes a list of any length.
- Platform strings that name an inherited property of JavaScript objects (`constructor`, `toString`, `__proto__`, ...): in the source the accumulator lookup at line 41 finds the inherited value, so no list is created, and the `push` then throws and nothing is rendered. The model treats them as ordinary keys.
- The order of `Object.keys`, which fixes the order in which platforms are rendered: a Dafny `map` has no key order. The order of the records within each list is modelled.
- Text.ReplaceFirst: requires a replacement without `$`, because `replace` gives `$` patterns a special meaning. The one replacement used, `embed/`, contains none.
- All of assets/js/bubble.js: cursor-following animation over the DOM with floating-point motion, with no selection logic.
