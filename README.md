# Dashboard data shaping, modelled in Dafny

This project models the data-shaping core of a Streamlit dashboard over a JSON document
of researched profiles and their evidence items (`streamlit_app.py`). The dashboard
recomputes five derived views from the loaded document on every interaction, and the
model covers each of them:

- **Row projector** (`Projection`): turns each profile into one flat row. Missing keys
  become `""`, or `0` for the evidence count, and roles are joined with `", "`. The
  source's loop is the method `ExtractRows`, proved equal to the function `Project`.
- **Filter engine** (`Filters`): the three sidebar filters are a case-insensitive search
  on username or full name, an inclusive minimum evidence count, and an exact company
  size or `"All"`. Each filter is a mask (`Apply`), applied in the source's order
  (`FilterRows`). The module also builds the company-size options and the slider bound,
  and selects the full profiles whose username occurs among the surviving rows
  (`SelectProfiles`).
- **Sort engine** (`Sorting`): the four orders of the "Sort by" selector. The in-place
  `list.sort` is a stable insertion sort on an `array<Profile>` (`SortInPlace`). It is
  proved equal to the functional `SortedBy`, and `SortedBy` is proved sorted, a
  permutation and stable. An unknown option leaves the list as it is.
- **Timeline aggregator** (`Calendar`, `Timeline`): the nested loops that collect
  evidence dates (`CollectDates`). Empty dates are skipped and dates that do not parse as
  real `YYYY-MM-DD` calendar days (leap years included) are dropped. The kept dates are
  counted per `YYYY-MM` month in ascending order (`CountByMonth`).
- **One interaction** (`Dashboard.Refresh`): all views, recomputed in the order `main`
  computes them: the slider bound, the size options, the filters, the selection, the
  timeline and last the sort. Each view depends only on its own inputs.

Shared pieces:
- `Text` models Python's `str.lower` on ASCII, the `in` substring test, `<` on `str` and
  `str.join`.
- `Seqs` defines "order-preserving subsequence".
- `Records` holds the document's records, with every JSON key optional.

## Model

| member | source | states |
|---|---|---|
| `Projection.ProjectRow` | streamlit_app.py:74-83 | each row field is the profile's value when the key is present and `""` (or `0` for `evidence_count`) when it is absent; no roles, or an empty list, give `""` |
| `Projection.ExtractRows` | streamlit_app.py:68-86 | exactly one row per profile, in input order, row `i` being the projection of profile `i`; a missing `profiles` key gives no rows |
| `Text.JoinAppend` | streamlit_app.py:77 | joining puts the separator between neighbouring roles: adding a role appends `", "` and the role |
| `Text.JoinLength` | streamlit_app.py:77 | the joined roles hold every role and one separator per gap |
| `Text.ContainsIffOccurs` | streamlit_app.py:118-122 | the substring test holds iff the query occurs at some position of the text |
| `Text.EmptyNeedleEverywhere` | streamlit_app.py:118 | the empty query occurs in every text |
| `Text.LowerIdempotent` | streamlit_app.py:120-121 | lower-casing is idempotent, so the search does not depend on the query's case |
| `Text.LessIrreflexive` | streamlit_app.py:113 | no string sorts before itself |
| `Text.LessTransitive` | streamlit_app.py:113 | the string order used by `sorted` and `list.sort` is transitive |
| `Text.LessTotal` | streamlit_app.py:113 | any two distinct strings are ordered one way or the other |
| `Filters.Apply` | streamlit_app.py:117-127 | a mask keeps an order-preserving subsequence: every satisfying row with all its copies, and no other row |
| `Filters.FilterRowsSpec` | streamlit_app.py:116-127 | the filtered rows are an order-preserving subsequence; a row survives iff it passes the non-empty search, has `evidence_count >= min_evidence`, and has the selected size unless `"All"` |
| `Filters.ApplyCommutes` | streamlit_app.py:118-127 | any two filters applied in either order give the same rows |
| `Filters.NeutralQueryKeepsAll` | streamlit_app.py:117-127 | an empty search, minimum 0 and `"All"` return rows with non-negative counts unchanged |
| `Filters.UnknownSizeYieldsNothing` | streamlit_app.py:126-127 | a size that no row has yields no rows, not an error |
| `Filters.SearchIgnoresCase` | streamlit_app.py:120-121 | the query `"ALICE"` matches the username `"alice_dev"` |
| `Filters.InsertDistinct` | streamlit_app.py:113 | inserting a size into a strictly ascending list keeps it strictly ascending and adds exactly that size |
| `Filters.DistinctSorted` | streamlit_app.py:113 | `sorted(unique(...))` is strictly ascending and holds exactly the observed values |
| `Filters.CompanySizeOptions` | streamlit_app.py:113 | the options are `"All"` followed by the strictly ascending, duplicate-free observed company sizes, also for an empty table |
| `Filters.SizeOptionsAsWritten` | streamlit_app.py:96-113 | as written, a table with rows gives the options and an empty table gives none, because its column lookup fails |
| `Filters.EmptyTableHasNoSizeOptions` | streamlit_app.py:108-113 | with no profiles the slider gets its fallback 10, but the written options lookup fails where `["All"]` is meant |
| `Filters.SliderMax` | streamlit_app.py:105-110 | the slider's maximum is the largest evidence count of some row, or 10 when there are no rows |
| `Filters.SelectProfiles` | streamlit_app.py:129 | the selection is an order-preserving subsequence holding every profile whose username occurs among the rows, duplicates included; a profile without a username is never selected |
| `Filters.OwnRowSelects` | streamlit_app.py:75-129 | a profile's own row selects it iff it has a username key |
| `Filters.NeutralSelection` | streamlit_app.py:117-129 | under the neutral query the selection is exactly the profiles that have a username, with all their copies |
| `Sorting.ParseSortOption` | streamlit_app.py:259-272 | each of the four labels selects its order, and every other value selects none |
| `Sorting.BeforeSplits` | streamlit_app.py:264-272 | each key order is a strict weak order: if `p` precedes `r`, every `q` follows `p` or precedes `r` |
| `Sorting.BeforeNeedsDistinctKeys` | streamlit_app.py:264-272 | profiles with equal keys are never ordered against each other |
| `Sorting.SortedByPermutes` | streamlit_app.py:264-272 | sorting returns a permutation of the selected profiles |
| `Sorting.SortedByIsSorted` | streamlit_app.py:264-272 | the result is ordered by the key and direction of the chosen option |
| `Sorting.SortedByIsStable` | streamlit_app.py:264-272 | profiles sharing a key keep their relative input order, in both directions (`reverse=True` is stable too) |
| `Sorting.UnknownOptionKeepsOrder` | streamlit_app.py:264-272 | an unrecognised option leaves the list unchanged |
| `Sorting.StableSortExample` | streamlit_app.py:265-266 | a(5), b(5), c(3) sorted high to low stay a, b, c |
| `Sorting.InsertAt` | streamlit_app.py:265-272 | one insertion step on the array moves the next profile behind every profile it need not precede; nothing after it changes |
| `Sorting.ShiftRight` | streamlit_app.py:265-272 | the profiles at the end of the sorted prefix that the next one must precede each move one place right, the rest stay, and the gap left is where it belongs |
| `Sorting.InsertAtGap` | streamlit_app.py:265-272 | a profile that precedes every profile from a position on, but not the one before it, is inserted exactly at that position |
| `Sorting.SortInPlace` | streamlit_app.py:265-272 | the array ends holding the stable sort of its old contents |
| `Sorting.SortProfiles` | streamlit_app.py:264-272 | the array ends holding the sort for the chosen option, and is unchanged for an unknown option |
| `Calendar.DaysInMonth` | streamlit_app.py:230 | a month has 28 to 31 days, and 29 exactly for February of a leap year |
| `Calendar.YearLength` | streamlit_app.py:230 | the month lengths add up to 366 in leap years and 365 otherwise |
| `Calendar.ParseDate` | streamlit_app.py:230 | whatever parses is a valid calendar date between years 1 and 9999 |
| `Calendar.DateFields` | streamlit_app.py:230 | the year, month and day read digit by digit are the numbers the three digit groups denote |
| `Calendar.ParseFormatted` | streamlit_app.py:230 | every valid date is accepted in its `YYYY-MM-DD` form and read back unchanged |
| `Calendar.FormattedParse` | streamlit_app.py:230-237 | every accepted string is the formatted form of its date, and its month bucket is its first seven characters |
| `Calendar.LeapDaysAccepted` | streamlit_app.py:230 | February 29 parses in 2024 and 2000 |
| `Calendar.LeapDaysRefused` | streamlit_app.py:230-233 | February 29 is refused in 1900 and 2023 |
| `Calendar.ImpossibleDatesRefused` | streamlit_app.py:230-233 | February 30, April 31, year 0 and unpadded fields are refused |
| `Calendar.NumberValueOfPad` | streamlit_app.py:237 | a zero-padded number reads back as the number |
| `Calendar.PadOfNumberValue` | streamlit_app.py:230 | a digit field reads as a number that re-pads to the same field |
| `Timeline.ItemDates` | streamlit_app.py:226-233 | one profile's items give at most one date each, all of them valid |
| `Timeline.ItemDatesKept` | streamlit_app.py:226-233 | every item whose date is present and parses contributes that date, and every collected date comes from such an item |
| `Timeline.KeptItemsCount` | streamlit_app.py:226-233 | for any test on dates, the collected dates passing it are exactly as many as the items whose kept date passes it, so each kept item is collected exactly once |
| `Timeline.ProfileDates` | streamlit_app.py:224-233 | all profiles' items give at most one date each, all of them valid |
| `Timeline.ProfileDatesKept` | streamlit_app.py:224-233 | every (profile, item) position whose date is present and parses contributes that date, and every collected date comes from such a position |
| `Timeline.KeptPositionsCount` | streamlit_app.py:224-233 | for any test on dates, the collected dates passing it are exactly as many as the (profile, item) positions whose kept date passes it |
| `Timeline.AppendItemDates` | streamlit_app.py:226-233 | the inner loop appends exactly the kept dates of one profile's items, in item order, to the dates collected so far |
| `Timeline.CollectDates` | streamlit_app.py:224-233 | the nested loops collect exactly the valid dates of all items, profile by profile, skipping empty and malformed dates without stopping |
| `Timeline.AddOneOrdered` | streamlit_app.py:238 | counting one more item keeps the months strictly ascending and the counts positive, and adds the item's month |
| `Timeline.AddOneCounts` | streamlit_app.py:238 | counting one more item raises its month's count by one, leaves every other count alone and adds one to the total |
| `Timeline.CountByMonth` | streamlit_app.py:236-238 | the buckets are strictly ascending `YYYY-MM` months with counts of at least 1; each month's count is its number of occurrences and the counts sum to the number of dates |
| `Timeline.MonthMultiplicity` | streamlit_app.py:237-238 | a month occurs among the buckets of valid dates as often as there are dates in that month |
| `Timeline.TimelineCountsEveryKeptItem` | streamlit_app.py:224-238 | each month's count is the number of (profile, item) positions whose date is present, valid and in that month, and the counts add up to the number of positions whose date is present and valid: every kept item is counted exactly once, in its own month |
| `Timeline.CountByMonthExample` | streamlit_app.py:236-238 | months 2024-01, 2024-01, 2024-02 give the buckets (2024-01, 2) and (2024-02, 1) |
| `Timeline.TimelineExample` | streamlit_app.py:224-238 | a profile with dates 2024-01-15 and 2024-01-20 and one with 2024-02-01, "bad-date" and "" give the timeline (2024-01, 2), (2024-02, 1) |
| `Dashboard.Refresh` | streamlit_app.py:93-272 | one interaction yields the projected rows, the size options, the slider bound, the filtered rows, the selected profiles sorted by the option, and the timeline |
| `Dashboard.SortSelection` | streamlit_app.py:264-272 | the selected profiles come back sorted by the chosen option |
| `Dashboard.EmptyDocument` | streamlit_app.py:93-238 | a document without profiles gives empty rows, options `["All"]`, slider bound 10, no filtered or selected profiles and an empty timeline |

## Left out

- Loading (`load_data`, lines 54-66) is left out: file I/O, the JSON parser, the error messages, `st.stop()` and `@st.cache_data`. The model starts from an already loaded `Document`.
- All Streamlit rendering is left out as presentation: page setup, CSS, metrics, tabs, charts, profile cards, evidence expanders and the footer (lines 13-52, 131-217, 239-258, 274-311). The widgets' values are parameters.
- The chart-only pandas aggregations (`value_counts`, `nlargest(10)`, histograms, lines 158-217) are left out. They feed plotly only.
- The metadata counters (lines 137-149, 307-309) are left out. They are displayed as given and never checked against the profiles.
- The search is modelled as a literal substring test. `str.contains` treats the query as a regular expression, so the model assumes the query holds no regular-expression metacharacters.
- Case-insensitivity is modelled for ASCII letters only. Unicode case folding is left out.
- Dates follow the strict zero-padded `YYYY-MM-DD` grammar with ASCII digits. This restriction is deliberate. `strptime` also accepts unpadded or space-padded fields and other Unicode digits, and the model refuses those strings.
- Dates that pandas cannot hold as nanosecond timestamps (years before 1677 or after 2262) are not modelled specially. The model buckets them like any other valid date.
- JSON values are assumed to have the expected types. A `null` or mistyped field, and pandas' NaN handling of such values, are not modelled.
- Streamlit's own checks on widget arguments are not modelled, for example a slider whose maximum is not above its minimum.
- `ProjectRow`: its contract gives the joined roles only for zero or one role. The general case is `Join`, stated by `JoinAppend` and `JoinLength`.

## Findings

| source | as written | input that shows it | evidently intended | confidence | as-written member | corrected member |
|---|---|---|---|---|---|---|
| streamlit_app.py:113 | `pd.DataFrame([])` built from no rows has no columns, so `df["company_size"]` raises `KeyError` (line 124 would fail the same way) | a document whose `profiles` is `[]` or absent | the selector offers only `"All"` and every view is empty, as the `df.empty` guard on line 108 anticipates | high (not executed) | `Filters.SizeOptionsAsWritten`, shown by `Filters.EmptyTableHasNoSizeOptions` | `Filters.CompanySizeOptions`, used by `Dashboard.Refresh` and stated for the empty case by `Dashboard.EmptyDocument` |

An empty document is meant to give empty views without failing, but the code as written
fails on it. The model records the written behaviour in the finding above and uses the
corrected behaviour everywhere else.
