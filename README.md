# Store uptime arithmetic

A model of the uptime arithmetic of the store-monitoring service
(`app/timecalc.py`). The service reports how much of a store's business
hours the store was up, from the store's weekly business hours, its time zone
and its sparse "open"/other status samples. The model covers three parts:

- `compute_business_hours_overlap` (module `BusinessOverlap`) adds up one
  overlap per business-hours entry. Each entry's open time is anchored to
  the date of the window's start and its close time to the date of the
  window's end. Both are converted to UTC. A close that is not after the
  open moves one day later. The interval is clipped to the window and a
  negative length counts as zero. The loop is a method proved against the
  function `TotalOverlap`, and `TotalOverlap`'s properties are lemmas.
- `compute_uptime`, `get_store_timezone` and `get_store_business_hours`
  (module `UptimePercent`) are functions. The zone falls back to UTC when
  the store has no row. Uptime is the overlap as a percentage of 24 hours,
  and downtime is the rest of 100.
- `get_store_uptime_downtime` (module `StoreUptimeDowntime`) is a set of
  methods with loops that mirror the source:
  - `BuildCalendar` fills the per-date map of business windows.
  - `WalkStatusChanges` walks consecutive samples and updates the two
    counters and `last_status`; `IterateOnce` is one iteration.
  - `AddDayTerms` is the inner per-date loop.
  - `TailPass` handles the last sample up to the end date.
  
  Each method is proved equal to a specification function: `CalendarFor`,
  `Walk` (built from `Step`), `Step`, `DaySum`, and `Finish`/`Tail`.
  `UptimeDowntime` combines them. Module `StoreUptimeDowntimeProperties`
  proves when the lookups succeed, how the gaps are attributed, and how the
  counters move.

Conventions. Instants are whole UTC seconds since the epoch. Dates are
whole days since the epoch. A time of day is seconds after midnight. A zone
is a fixed offset in seconds. Exceptions are values of `Result`:

- a missing timezone row (line 53);
- a weekday with no business-hours row (lines 61-62);
- a `business_hours[date]` lookup of a date not in the map (`MissingDay`,
  a KeyError);
- `status_changes[-1]` on an empty list (`NoSamples`, an IndexError).

No `requires` excludes any of these.

`get_store_uptime_downtime` subtracts `start_date` from a sample's `.date()`
(lines 83, 92, 104, 110). In Python that works only when `start_date` is a
`date`: `date - datetime` raises TypeError. So this part takes its bounds as
day numbers, and a day's key is its offset from the start date. Line 63
calls `astimezone` on a naive `datetime.combine(date, time)`. Python reads a
naive value in the host's local zone, so the instant is fixed by the
parameter `hostOffset`. The store's zone only changes how the value is
displayed. Later, the code uses these instants only through differences and
comparisons.

Behaviour of the code as written. The model follows the code, including
where it does not compute a forward-filled status clipped to business
hours:

- The close time is anchored to the end date (line 36), so an entry can
  cover more than one day. `CloseAnchoredToEndDate` shows a 09:00-17:00 UTC
  store counting 15 hours on a midnight-to-midnight window.
- For the same reason, over a window that ends at midnight, an entry whose
  open and close times are equal counts from its opening time (or the
  window's start, if later) to the end of the window: 00:00-00:00 covers the
  whole day, but 09:00-09:00 over a midnight-to-midnight window counts
  15 hours (`EqualOpenCloseEntry`).
- Uptime is always relative to 24 hours (line 14), so it is not bounded by
  100 (`UptimeCanExceedHundred`).
- The per-date term at line 88 is always 0 (`Term`).
- After an "open" last sample, the tail credits downtime (line 107). After
  any other last sample, it credits uptime (line 113).
- The tail's `close - open` is negative for an overnight window, so the
  tail can lower a counter (`TailCanLowerUptime`).
- The spans of both dates of a two-date window go to uptime after a closing
  sample (`OpenThenClosed`).

## Model

| member | source | states |
|---|---|---|
| Clock.DateOf | app/timecalc.py:35-36 | `.date()` of an instant is the day whose midnight-to-midnight span contains it |
| Clock.Weekday | app/timecalc.py:60 | `date.weekday()` is in 0..6 |
| Clock.WeekdaySuccession | app/timecalc.py:60 | day 0 (1 January 1970) is a Thursday (3), and each next day's weekday is the previous one's plus one, wrapping from Sunday (6) to Monday (0) |
| Clock.Combine | app/timecalc.py:35-36 | combining a date with a time of day gives an instant on that date whose time of day is the given time |
| Clock.ToUtc | app/timecalc.py:35-36 | the UTC instant of a wall-clock time in a fixed-offset zone reads back, in that zone, as that wall-clock time |
| BusinessOverlap.OpenUtc | app/timecalc.py:35 | the opening instant, read in the store's zone, is on the start's date at the opening time |
| BusinessOverlap.CloseUtc | app/timecalc.py:36 | the closing instant, read in the store's zone, is on the end's date (not the opening's) at the closing time |
| BusinessOverlap.Resolve | app/timecalc.py:35-38 | the open is anchored to the start's date and never moves; a converted close not after the open moves exactly one day later, otherwise it stays; the interval is non-empty whenever the end's date is not before the start's |
| BusinessOverlap.EntryOverlap | app/timecalc.py:39-42 | one entry's clipped overlap is never negative, never longer than the window, and 0 for an empty or reversed window |
| BusinessOverlap.TotalOverlap | app/timecalc.py:33-44 | the summed overlap is never negative |
| BusinessOverlap.ComputeBusinessHoursOverlap | app/timecalc.py:32-44 | the accumulating loop returns the sum of the entries' clipped overlaps |
| BusinessOverlap.ClipIsIntersection | app/timecalc.py:39-42 | an instant is in the clipped range exactly when it is in both the window and the entry's interval |
| BusinessOverlap.OverlapPositiveIffShared | app/timecalc.py:39-42 | an entry's overlap is positive exactly when some instant lies in both the window and the entry's interval |
| BusinessOverlap.EmptyWindowHasNoOverlap | app/timecalc.py:39-43 | when the end is not after the start, the total is 0 |
| BusinessOverlap.TotalOverlapBound | app/timecalc.py:39-43 | the total is at most the number of entries times the window length |
| BusinessOverlap.TotalOverlapAppend | app/timecalc.py:33-44 | the total over a concatenation is the sum of the two totals (empty list gives 0) |
| BusinessOverlap.TotalOverlapPermutation | app/timecalc.py:34-44 | entries in any order give the same total |
| BusinessOverlap.DayOfWeekIgnored | app/timecalc.py:34 | entries that differ only in `day_of_week` give the same total |
| BusinessOverlap.SameDateSpan | app/timecalc.py:35-38 | with both window ends on one date, the interval lasts close - open, plus a day when close is not after open; so between 0 (exclusive) and a day |
| BusinessOverlap.OvernightEightHours | app/timecalc.py:35-38 | 22:00-06:00 on one date lasts 8 hours at any offset |
| BusinessOverlap.CloseAnchoredToEndDate | app/timecalc.py:36 | a 09:00-17:00 UTC entry over one midnight-to-midnight day counts 15 hours, because the close is anchored to the end's date |
| UptimePercent.GetStoreTimezone | app/timecalc.py:20-24 | no row gives UTC; a row gives its zone |
| UptimePercent.StoreRows | app/timecalc.py:28 | `filter_by(store_id=...)` keeps each row of the store exactly as many times as the table holds it, and no row of another store |
| UptimePercent.GetStoreBusinessHours | app/timecalc.py:27-29 | the i-th triple is the projection of the store's i-th row, one triple per row (so duplicates are kept); every triple comes from a row of the store and every row of the store gives a triple |
| UptimePercent.ProjectionMembership | app/timecalc.py:29 | a pointwise projection of the store's rows holds the triple of every row of the store and only triples of the store's rows |
| UptimePercent.NoRowsNoEntries | app/timecalc.py:28-29 | a store with no rows has no entries |
| UptimePercent.ComputeUptime | app/timecalc.py:11-17 | uptime and downtime sum to 100; uptime is non-negative and is the overlap as a percentage of 24 hours |
| UptimePercent.EmptyWindowAllDowntime | app/timecalc.py:13-15 | an empty or reversed window gives 0% uptime and 100% downtime |
| UptimePercent.NoHoursAllDowntime | app/timecalc.py:12-15 | a store without business-hours rows gives 0% uptime and 100% downtime |
| UptimePercent.UptimeBound | app/timecalc.py:13-14 | uptime times a day is at most 100 times the number of entries times the window length |
| UptimePercent.EqualOpenCloseEntry | app/timecalc.py:35-43 | at offset 0, an entry whose open and close times are both `t` counts a day minus `t` over a midnight-to-midnight window: all of it for 00:00-00:00, 15 hours for 09:00-09:00 |
| UptimePercent.UptimeCanExceedHundred | app/timecalc.py:13-15 | two all-day rows over one day give 200% uptime and -100% downtime |
| StoreUptimeDowntime.DayWindow | app/timecalc.py:59-63 | a date's window has its weekday row's close - open as its span and opens on that date (host-local) |
| StoreUptimeDowntime.CalendarFor | app/timecalc.py:57-63 | the map is built exactly when every date has a weekday row; otherwise it fails with the missing row; its keys are exactly the offsets 0..(end - start).days; each window's span is its weekday row's |
| StoreUptimeDowntime.BuildCalendar | app/timecalc.py:57-63 | the filling loop returns that map or that failure |
| StoreUptimeDowntime.Term | app/timecalc.py:85-97 | the per-date terms at lines 85-88 and 94-97 are never negative; the line-88 term is 0; an overnight window adds more than a day; the line-97 term is the span |
| StoreUptimeDowntime.DaySum | app/timecalc.py:83-97 | a sum of the line 85-97 terms over a day range is never negative; an empty `range` gives 0 |
| StoreUptimeDowntime.AddDayTerms | app/timecalc.py:83-88 | the inner loop adds the range's terms, or raises KeyError when a day of the range is missing |
| StoreUptimeDowntime.DayIndex | app/timecalc.py:83 | `(t.date() - start_date).days` is the number of the day, counted from the start date, whose span contains `t` (also lines 92, 104, 110) |
| StoreUptimeDowntime.Step | app/timecalc.py:79-100 | one iteration fails with KeyError exactly when a day between the two samples' dates is missing; after an "open" sample uptime gains exactly the gap and downtime exactly the line-86/88 terms of the dates crossed, so it does not fall; otherwise downtime gains exactly the gap and uptime exactly the line-95/97 terms, so it does not fall |
| StoreUptimeDowntime.Walk | app/timecalc.py:73-100 | before the second sample both counters are 0; the loop can fail only with KeyError |
| StoreUptimeDowntime.Tail | app/timecalc.py:103-113 | the tail fails with KeyError exactly when a day from the last sample's date to the end date is missing; after an "open" last sample uptime is unchanged, otherwise downtime is; together they gain the days' `close - open` |
| StoreUptimeDowntime.Finish | app/timecalc.py:102-113 | the tail fails with IndexError exactly when there are no samples, and otherwise only with KeyError |
| StoreUptimeDowntime.FromCalendar | app/timecalc.py:65-115 | with the map built, the result is IndexError exactly when there are no samples, any other failure is a KeyError, and success needs the loop to succeed |
| StoreUptimeDowntime.UptimeDowntime | app/timecalc.py:46-115 | no timezone row raises first; then a weekday without a row; then, with every weekday covered, no samples raise IndexError; otherwise the result is the counters or a KeyError |
| StoreUptimeDowntime.WalkFailureSticks | app/timecalc.py:74-100 | an exception in the loop is the result, whatever samples follow |
| StoreUptimeDowntime.IterateOnce | app/timecalc.py:79-98 | one iteration of the loop, with `last_status` the previous sample's, computes `Step` |
| StoreUptimeDowntime.WalkStatusChanges | app/timecalc.py:73-100 | the loop's counters are those of the walk; `last_status` is the last sample's status, or None when there are none |
| StoreUptimeDowntime.TailPass | app/timecalc.py:102-113 | the tail pass fails with IndexError without samples; otherwise it adds the tail's spans to downtime after an "open" last sample, and to uptime otherwise |
| StoreUptimeDowntime.GetStoreUptimeDowntime | app/timecalc.py:46-115 | the whole function returns the specified counters or the first exception |
| StoreUptimeDowntimeProperties.DayIndexWithin | app/timecalc.py:83-84 | a sample between the start and end dates has a day offset that is a key of the map |
| StoreUptimeDowntimeProperties.WalkSucceeds | app/timecalc.py:79-100 | with every sample in the window, no lookup in the loop misses |
| StoreUptimeDowntimeProperties.OutcomeInWindow | app/timecalc.py:53-113 | for samples in the window, the result is never a KeyError; it succeeds exactly when there are a timezone row, a row for every date's weekday and at least one sample; otherwise it is the first missing one's exception |
| StoreUptimeDowntimeProperties.GapsTelescope | app/timecalc.py:79 | the gaps credited to the two counters add up to the last sample's time minus the first's |
| StoreUptimeDowntimeProperties.WalkAttribution | app/timecalc.py:79-98 | each counter gets its credited gaps plus non-negative per-date terms; uptime gets no terms while all earlier samples are "open", downtime none while none is; with no date crossed, the counters are exactly the credited gaps |
| StoreUptimeDowntimeProperties.NoOpposingGaps | app/timecalc.py:79-98 | when the earlier samples all agree on "open" or not, no gap is credited to the other counter |
| StoreUptimeDowntimeProperties.AllOpenUptime | app/timecalc.py:81-89 | with every sample before the last "open", uptime after the loop is exactly last minus first |
| StoreUptimeDowntimeProperties.NoneOpenDowntime | app/timecalc.py:90-98 | with no sample before the last "open", downtime after the loop is exactly last minus first |
| StoreUptimeDowntimeProperties.WalkCoversSpan | app/timecalc.py:79-98 | the counters together cover at least last minus first, and exactly that when no date is crossed |
| StoreUptimeDowntimeProperties.StepNeverDecreases | app/timecalc.py:81-98 | for ascending samples, one iteration lowers neither counter |
| StoreUptimeDowntimeProperties.WalkMonotone | app/timecalc.py:74-100 | for ascending samples, the counters only grow along the loop |
| StoreUptimeDowntimeProperties.WalkNonNegative | app/timecalc.py:69-100 | for ascending samples, both counters are non-negative after the loop |
| StoreUptimeDowntimeProperties.TailCanLowerUptime | app/timecalc.py:110-113 | one "closed" sample and a 22:00-06:00 window give uptime of -16 hours |
| StoreUptimeDowntimeProperties.OpenThenClosed | app/timecalc.py:73-113 | "open" at 09:00 then "closed" at 12:00, with hours 08:00-14:00 over two dates, gives 15 hours of uptime and none of downtime |

## Left out

- Time zones are fixed UTC offsets. The `pytz` zone database, zone names,
  daylight-saving transitions and `localize`/`astimezone` rules
  (lines 3, 23-24, 35-36, 54, 63) are not modelled.
- The host's local zone is a parameter. It matters only because line 63
  calls `astimezone` on a naive value.
- The database queries (lines 21, 28, 50, 53, 61-62, 66) are inputs.
  - The timezone row is an `Option`.
  - The business-hours table is a sequence of rows.
  - The first business-hours row per weekday is a map from weekday to hours.
  - The samples are a sequence.
  - The `between`/`order_by` filter at line 66 is the hypothesis of the
    lemmas that need it (samples in the window, ascending).

  Line 50 looks up the store only to read `status_changes`, and
  app/models.py declares no such relation. That lookup is not modelled.
- The `datetime.utcnow()` defaults of `compute_uptime` (lines 7-10) read the
  clock, so the window is a parameter. With those naive defaults the
  comparison with aware instants at line 39 would raise TypeError. The model
  treats both bounds as UTC instants.
- Durations are whole seconds. The float round trip through hours at
  lines 41 and 43, and microseconds, are not modelled. Percentages are
  `real`.
- UptimePercent.StoreRows: the contract states how often each row is kept,
  not that the kept rows stay in table order. No result depends on that
  order: `TotalOverlapPermutation` shows the total is the same for every
  order of the entries.
- The ORM schema and `Report.to_dict` (app/models.py) are left out. So are
  the HTTP routes, report ids and CSV handling (app/Router/get_report.py,
  app/Router/trigger_report.py, app/main.py). They are persistence and I/O,
  and app.report is not part of this model.
