# Activity ledger and day timeline of the time-trajectory log

The log page keeps one list of activity records per session. A submitted form
turns a start and an end clock time into a record on today's date; an end
clock time earlier than the start is read as the next morning. The record is
refused when its duration is not positive or its episode name is empty;
otherwise it is appended and the list is re-sorted by start time. Records are
deleted by id, or all at once. The form proposes, as the next start, the end of
the last record unless that end lies in the future. A bar across the top shows
today's records on a 24-hour scale, with grey gaps between them and a remainder
after the last one. The statistics panel shows 1440 minus the minutes recorded
today.

This project models that logic in integer minutes. A timestamp is
`day * 1440 + minute`, so `t / 1440` is its calendar day and `t % 1440` is its
`hour * 60 + minute`. Timeline segments are `(from, to, kind)` minute triples
instead of percentage widths.

Modules, one per part of `app.py`:

- `Activity` (activity.dfy): the record type, the midnight wrap, the duration, and the validation of the submit branch.
- `Ordering` (ordering.dfy): the stable sort by start time, proved sorted, a permutation and stable.
- `Ledger` (ledger.dfy): the delete filter, the proposed start, and the class `Ledger`. The class holds the session list and has load, submit, delete, clear and default-start operations.
- `Text` (text.dfy): the substring test, the colour rule, `split(" ")` with its inverse `join`, the episode a template proposes, and the built-in templates.
- `Timeline` (timeline.dfy): selecting today's records, the segment walk as a function, and the cursor loop proved against it. Also the gap, remainder and full-day coverage lemmas.
- `Stats` (stats.dfy): the unrecorded-time figure, proved equal to the bar's gap time.

The proposed start keeps only the clock time of the last record's end. The code accepts any past end, with no check that it lies today or late yesterday, and the form puts both clock times on today's date. So a last record that ended late the previous evening does not lead to a continuation. It yields a record that starts later today and ends tomorrow morning (`Ledger.LateYesterdayJumpsAhead`). A seamless continuation holds only when the last record ended earlier the same day (`Ledger.ProposalContinues`).

The full-day coverage lemma needs explicit preconditions. Today's sorted
records must not overlap and must end on the day they start. The code does not
clip overlapping or midnight-crossing records. A record that crosses midnight
has an end minute below its start minute, so its segment is reversed.

## Model

| member | source | states |
|---|---|---|
| `Activity.MinuteOfDay` | app.py:158-160 | the minute of the day lies in [0, 1440) and, together with the day, recomposes the timestamp |
| `Activity.NormalizedEnd` | app.py:276-279 | exactly one day is added to the end when the end clock time is earlier than the start; the normalized end lies in [start, start + 1440) and keeps its clock time |
| `Activity.Duration` | app.py:281 | the duration is end minus start after the wrap, lies in [0, 1439], and is 0 exactly when the two clock times are equal |
| `Activity.MakeRecord` | app.py:270-298 | rejection happens exactly when the clock times are equal or the episode is empty; the duration check comes first; an accepted record starts on the given day, ends on the same or the next day at the end clock time, has duration end − start in [1, 1439], and carries the form's id, episode, location, template name and creation time |
| `Activity.NightShift` | app.py:276-284 | 23:30 to 00:30 is accepted with duration 60 and ends on the next calendar day |
| `Ordering.SortByStart` | app.py:302 | the result is sorted by start time and is a permutation of the input |
| `Ordering.InsertSorted` | app.py:300-302 | placing a new record behind all records that start no later keeps a sorted list sorted |
| `Ordering.SortAppend` | app.py:300-302 | the sort's own step at an appended list: re-sorting `s + [x]` inserts x into the sorted s; with `Ordering.SortedFixpoint` on the already sorted list this gives `Ledger.Ledger.Submit` its insert-in-place clause |
| `Ordering.SortedFixpoint` | app.py:126 | sorting an already sorted list returns it unchanged |
| `Ordering.SortStable` | app.py:302 | for every start minute, the records with that start keep their relative order (the sort is stable) |
| `Ledger.WithoutIdMembers` | app.py:340 | a record is kept exactly when it was in the list and its id differs from the target; with no record carrying the id the list is returned unchanged |
| `Ledger.WithoutIdConcat` | app.py:340 | the filter distributes over concatenation, so the relative order of the kept records is preserved |
| `Ledger.WithoutIdCounts` | app.py:340 | every copy of a record with the target id is removed and every other record keeps its number of copies |
| `Ledger.WithoutIdIdempotent` | app.py:340 | deleting the same id twice is the same as deleting it once |
| `Ledger.WithoutIdSorted` | app.py:340 | deleting keeps the list sorted by start time |
| `Ledger.DeleteInserted` | app.py:340 | deleting the id of a just-inserted record whose id no other record has gives back the list before the insertion |
| `Ledger.ProposedStart` | app.py:201-215 | the proposal never lies after now; it is now for an empty list, the last record's end when that end is not in the future, and now otherwise |
| `Ledger.ProposalContinues` | app.py:201-228 | submitting the proposed start with now as the end, when the last record ended earlier the same day, yields a record that begins exactly where the last one ended and ends now |
| `Ledger.LateYesterdayJumpsAhead` | app.py:206-225 | a last record ending at 23:00 the day before, with now at 01:00, is proposed as the start (it is not in the future); the form's clock times on today give a record from 23:00 today to 01:00 tomorrow, 120 minutes, that starts after now |
| `Ledger.Ledger.Load` | app.py:123-126 | after loading, the list is the stored list sorted by start time, and it is unchanged when it was already sorted |
| `Ledger.Ledger.Submit` | app.py:270-302 | the outcome is the record validation; on acceptance the new list is the old list with the record appended and re-sorted, equal to inserting the record in place, a permutation of the old list plus the record and still sorted; on rejection the list is unchanged |
| `Ledger.Ledger.Delete` | app.py:339-341 | the new list is the old one with every record of the given id filtered out, and stays sorted |
| `Ledger.Ledger.Clear` | app.py:384-386 | the list becomes empty |
| `Ledger.Ledger.DefaultStart` | app.py:206-215 | returns the proposed start for the current list and time, changing nothing |
| `Text.ContainsOccurs` | app.py:171-172 | Python's `in` on strings: true exactly when the word occurs at some index of the text |
| `Text.CategoryRule` | app.py:169-172 | "work" exactly when the description or the episode contains 工作; "transit" exactly when neither does and the episode contains 通勤; "personal" otherwise |
| `Text.JoinSplit` | app.py:253 | joining the pieces of `split(" ")` with single spaces gives the string back |
| `Text.SplitHasNoSpace` | app.py:253 | no piece of `split(" ")` contains a space |
| `Text.SplitLastSuffix` | app.py:253 | the last piece of `split(" ")` is the part of the string after its last space, or the whole string if there is none |
| `Text.TemplateEpisode` | app.py:253 | the proposed episode is a space-free suffix of the template name, either the whole name or preceded by a space; it is empty with no template |
| `Text.EpisodeAfterLastSpace` | app.py:253 | for a template named "prefix word" with a space-free word, the proposed episode is the word |
| `Text.FormDefaults` | app.py:238-253 | with no template all pre-filled values are empty; with a template the episode is space-free and is the part of the name after its last space (the whole name when it has none), the location is the template's stored location and the description is the name |
| `Text.DefaultTemplateColours` | app.py:130-136 | for every built-in template, the colour rule applied to its name and proposed episode gives exactly the category stored with the template |
| `Timeline.OnDay` | app.py:145-146 | a record is kept exactly when it was in the list and starts on the given day |
| `Timeline.OnDayConcat` | app.py:145-146 | selecting a day's records distributes over concatenation, so the selected records keep their relative order |
| `Timeline.OnDayCounts` | app.py:145-146 | every copy of a record starting on the day is kept and every other record is dropped |
| `Timeline.RenderTimeline` | app.py:143-180 | the loop with the `last_end_min` cursor produces exactly the segment walk over today's records sorted by start |
| `Timeline.GapFirstIff` | app.py:162-175 | a gap from the cursor to the record's start comes first exactly when the record starts after the cursor; otherwise the record's own segment comes first |
| `Timeline.WalkActivities` | app.py:154-175 | the activity segments of the bar are exactly the records' own segments, one per record, in the records' order |
| `Timeline.WalkGapsAndRemainder` | app.py:162-180 | every gap and the remainder are non-empty, and the bar always ends with a remainder reaching 1440, because the cursor never reaches 1440 |
| `Timeline.WalkCovers` | app.py:154-180 | from any cursor up to the first start, records that do not overlap and stay within their day give segments laid end to end from the cursor to 1440 |
| `Timeline.DayCovered` | app.py:152-180 | under those conditions the day's bar runs contiguously from 0 to 1440 and its lengths add up to 1440 |
| `Timeline.EmptyDay` | app.py:149-180 | with no record starting on the day, the bar is the single remainder segment [0, 1440) |
| `Timeline.MorningOrder` | app.py:300-302 | a record logged after a later one but starting earlier is sorted in front of it |
| `Timeline.MorningBar` | app.py:143-180 | a day with waking up 08:00-09:00 and breakfast 09:00-10:30 gives a gap [0, 480), the two record segments and the remainder [630, 1440) |
| `Stats.SumDurationsSort` | app.py:366 | sorting does not change the summed duration |
| `Stats.Unrecorded` | app.py:347-370 | nothing is shown for an empty ledger; a ledger with no record today shows 1440 unrecorded minutes |
| `Stats.UnrecordedIsGapTime` | app.py:366-369 | when today's records carry their true durations, do not overlap and stay within the day, 1440 minus their durations equals the total length of the bar's gaps and remainder |

## Left out

- Streamlit widgets, layout, CSS and HTML strings, success and error messages, `time.sleep` and `st.rerun`. These are presentation only. The two refusals become the `Rejection` values.
- Reading and writing the JSON files, and `os.makedirs`. Loading is modelled only as "the stored list is sorted" (`Ledger.Ledger.Load`). The load-or-default fallback is I/O.
- Clock reads. `datetime.now`, `date.today` and `time.time()` are parameters: `now`, `day`/`today`, `id` and `createdAt`. Ids can repeat; nothing assumes they are unique except the hypothesis of `Ledger.DeleteInserted`.
- Seconds and microseconds. Clock times are whole minutes (`ClockTime`). `int(total_seconds / 60)` is then exact, and sub-minute parts of the pre-filled times are not modelled.
- The sort key. The code sorts by the ISO-8601 `start_time` string. The model sorts by the integer start, which orders the same way for same-format strings.
- Percentage widths, the hours display `total_min / 60` and the count `len(today_df)`. These are floating point or display only. Segment lengths are integer minutes.
- pandas in `stats_view`. Only `1440 - sum(durations)` over records starting today is modelled.
- The reversed order of the detail list and its card HTML. This is display only.
- The palette's colour codes. The model keeps the palette key (`Category.PaletteKey`) and not the hex string.
- The template dictionary is read only. `FormDefaults` takes it as a parameter, because a stored file may replace the built-in one. The code has no template editing or learning.
- `app.py` has no taxonomy tree, no template registry that learns, no recommendation engine, no clipping of overlapping records, no "not found" result for deletion and no 12-hour threshold for the proposed start, so none of these is modelled. Deletion is a plain filter, and the proposed start has no threshold.
- `Text.CategoryRule`: `act.get(key, '')` for a missing key is not modelled, because every record the model builds has a description and an episode.
