/** `get_store_uptime_downtime`: uptime and downtime of a store between two
    calendar dates, from its ordered status samples and a per-date map of
    business windows. The window bounds are dates (day numbers); sample
    instants are UTC seconds. */
module StoreUptimeDowntime {
  import opened Wrappers
  import opened Clock
  import opened Records

  /** The exceptions the computation can raise. */
  datatype Failure =
    | NoTimezoneRow       // the store has no timezone row (`.timezone_str` of None)
    | NoBusinessHoursRow  // a date's weekday has no business-hours row
    | MissingDay          // `business_hours[date]` for a date not in the map
    | NoSamples           // `status_changes[-1]` of an empty list

  /** The local opening and closing times of the first row for a weekday. */
  datatype Hours = Hours(open: TimeOfDay, close: TimeOfDay)

  /** The weekly calendar: weekday to the hours of its first row. */
  type Weekly = map<int, Hours>

  /** `business_hours[date]`: the instants of one date's open and close. */
  datatype Window = Window(open: int, close: int)

  /** `business_hours`: day offset from the start date to its window. */
  type Calendar = map<int, Window>

  /** The two counters, in seconds. */
  datatype Totals = Totals(uptime: int, downtime: int)

  // ---------------------------------------------------------------------
  // The per-date map (lines 57-63)

  predicate HasHours(weekly: Weekly, startDay: int, j: int)
  {
    Weekday(startDay + j) in weekly
  }

  /** Every date from the start date to the end date has a row for its
      weekday. */
  predicate WeekCovered(weekly: Weekly, startDay: int, endDay: int)
  {
    forall j :: 0 <= j <= endDay - startDay ==> HasHours(weekly, startDay, j)
  }

  /** The window of the date `j` days after the start date: its weekday's
      local times combined with the date, read as wall-clock times of the
      host's zone (`hostOffset` seconds ahead of UTC) and taken to instants. */
  function DayWindow(weekly: Weekly, startDay: int, j: int, hostOffset: int): (w: Window)
    requires HasHours(weekly, startDay, j)
    ensures w.close - w.open == weekly[Weekday(startDay + j)].close - weekly[Weekday(startDay + j)].open
    ensures DateOf(w.open + hostOffset) == startDay + j
  {
    var h := weekly[Weekday(startDay + j)];
    Window(ToUtc(Combine(startDay + j, h.open), hostOffset),
           ToUtc(Combine(startDay + j, h.close), hostOffset))
  }

  /** The map the loop of lines 57-63 builds: it has exactly the day offsets
      `0 .. (end - start).days` as keys, or the loop fails on the first date
      whose weekday has no row. */
  function CalendarFor(weekly: Weekly, startDay: int, endDay: int, hostOffset: int): (r: Result<Calendar, Failure>)
    ensures r.Ok? <==> WeekCovered(weekly, startDay, endDay)
    ensures r.Fail? ==> r.error == NoBusinessHoursRow
    ensures r.Ok? ==> forall j :: j in r.value <==> 0 <= j <= endDay - startDay
    ensures r.Ok? ==> forall j :: j in r.value ==>
              HasHours(weekly, startDay, j)
              && r.value[j].close - r.value[j].open
                 == weekly[Weekday(startDay + j)].close - weekly[Weekday(startDay + j)].open
  {
    if WeekCovered(weekly, startDay, endDay) then
      Ok(map j | 0 <= j <= endDay - startDay :: DayWindow(weekly, startDay, j, hostOffset))
    else
      Fail(NoBusinessHoursRow)
  }

  /** The loop of lines 57-63. */
  method BuildCalendar(weekly: Weekly, startDay: int, endDay: int, hostOffset: int)
    returns (r: Result<Calendar, Failure>)
    ensures r == CalendarFor(weekly, startDay, endDay, hostOffset)
  {
    var businessHours: Calendar := map[];
    var dayOffset := 0;
    while dayOffset < endDay - startDay + 1
      invariant 0 <= dayOffset
      invariant dayOffset <= endDay - startDay + 1 || dayOffset == 0
      invariant forall j :: 0 <= j < dayOffset ==> HasHours(weekly, startDay, j)
      invariant forall j :: j in businessHours <==> 0 <= j < dayOffset
      invariant forall j :: j in businessHours ==> businessHours[j] == DayWindow(weekly, startDay, j, hostOffset)
    {
      var dayOfWeek := Weekday(startDay + dayOffset);
      if dayOfWeek !in weekly {
        assert !HasHours(weekly, startDay, dayOffset);
        return Fail(NoBusinessHoursRow);
      }
      var h := weekly[dayOfWeek];
      var localStartTime := Combine(startDay + dayOffset, h.open);
      var localEndTime := Combine(startDay + dayOffset, h.close);
      businessHours := businessHours[dayOffset := Window(ToUtc(localStartTime, hostOffset), ToUtc(localEndTime, hostOffset))];
      dayOffset := dayOffset + 1;
    }
    assert WeekCovered(weekly, startDay, endDay);
    var expected := map j | 0 <= j <= endDay - startDay :: DayWindow(weekly, startDay, j, hostOffset);
    assert businessHours == expected;
    r := Ok(businessHours);
  }

  // ---------------------------------------------------------------------
  // The per-date terms (lines 83-88, 92-97, 104-107, 110-113)

  /** Which of the source's per-date expressions is summed. */
  datatype DayTerm =
    | ClosedHours  // lines 85-88, added to downtime after an "open" sample
    | OpenHours    // lines 94-97, added to uptime after any other sample
    | Span         // lines 107 and 113, the tail's `close - open`

  /** One date's term. A window whose close precedes its open adds a day plus
      the (reversed) span in both ClosedHours and OpenHours. Otherwise
      ClosedHours adds `max(0, open - close)`, which is always 0, and
      OpenHours adds the span. Span may be negative. */
  function Term(k: DayTerm, w: Window): (r: int)
    ensures k != Span ==> r >= 0
    ensures k == ClosedHours && w.close >= w.open ==> r == 0
    ensures k != Span && w.close < w.open ==> r > Day
    ensures k == OpenHours && w.close >= w.open ==> r == w.close - w.open
  {
    match k
    case ClosedHours =>
      if w.close < w.open then Day - (w.close - w.open) else Max(0, w.open - w.close)
    case OpenHours =>
      if w.close < w.open then Day - (w.close - w.open) else Max(0, w.close - w.open)
    case Span =>
      w.close - w.open
  }

  /** Every day offset in `[lo, hi)` is a key of the map. */
  predicate Covers(b: Calendar, lo: int, hi: int)
  {
    forall j :: lo <= j < hi ==> j in b
  }

  /** The sum of one kind of term over the day offsets `[lo, hi)`; empty, and
      0, when `hi <= lo` (Python's `range`). */
  function DaySum(b: Calendar, lo: int, hi: int, k: DayTerm): (r: int)
    requires Covers(b, lo, hi)
    ensures k != Span ==> r >= 0
    ensures hi <= lo ==> r == 0
    decreases hi - lo
  {
    if hi <= lo then 0 else DaySum(b, lo, hi - 1, k) + Term(k, b[hi - 1])
  }

  /** One inner `for j in range(lo, hi)` loop: adds the terms of the days
      `[lo, hi)` to `acc`, or raises KeyError on the first missing day. */
  method AddDayTerms(b: Calendar, lo: int, hi: int, k: DayTerm, acc: int)
    returns (r: Result<int, Failure>)
    ensures Covers(b, lo, hi) ==> r == Ok(acc + DaySum(b, lo, hi, k))
    ensures !Covers(b, lo, hi) ==> r == Fail(MissingDay)
  {
    var total := acc;
    var j := lo;
    while j < hi
      invariant lo <= j && (j <= hi || j == lo)
      invariant Covers(b, lo, j)
      invariant total == acc + DaySum(b, lo, j, k)
    {
      if j !in b {
        return Fail(MissingDay);
      }
      total := total + Term(k, b[j]);
      j := j + 1;
    }
    assert hi < lo ==> DaySum(b, lo, hi, k) == DaySum(b, lo, j, k);
    return Ok(total);
  }

  // ---------------------------------------------------------------------
  // The walk over the samples (lines 73-100) and the tail (lines 103-113)

  /** `(t.date() - start_date).days`: the instant falls on the date that
      many days after the start date. */
  function DayIndex(startDay: int, t: int): (j: int)
    ensures DayStart(startDay) + j * Day <= t < DayStart(startDay) + j * Day + Day
  {
    DateOf(t) - startDay
  }

  /** One iteration `i >= 1` of the loop at line 74: the gap since the
      previous sample goes to uptime when that sample was "open" and to
      downtime otherwise; the other counter gets the per-date terms of the
      dates from the previous sample's date up to, not including, this
      sample's date. */
  function Step(b: Calendar, startDay: int, prev: StatusChange, cur: StatusChange, t: Totals)
    : (r: Result<Totals, Failure>)
    ensures r.Fail? <==> !Covers(b, DayIndex(startDay, prev.timestampUtc), DayIndex(startDay, cur.timestampUtc))
    ensures r.Fail? ==> r.error == MissingDay
    ensures r.Ok? && prev.status == Open ==>
              r.value.uptime == t.uptime + (cur.timestampUtc - prev.timestampUtc) && r.value.downtime >= t.downtime
    ensures r.Ok? && prev.status != Open ==>
              r.value.downtime == t.downtime + (cur.timestampUtc - prev.timestampUtc) && r.value.uptime >= t.uptime
    ensures r.Ok? && prev.status == Open ==>
              r.value.downtime == t.downtime
                 + DaySum(b, DayIndex(startDay, prev.timestampUtc), DayIndex(startDay, cur.timestampUtc), ClosedHours)
    ensures r.Ok? && prev.status != Open ==>
              r.value.uptime == t.uptime
                 + DaySum(b, DayIndex(startDay, prev.timestampUtc), DayIndex(startDay, cur.timestampUtc), OpenHours)
  {
    var lo := DayIndex(startDay, prev.timestampUtc);
    var hi := DayIndex(startDay, cur.timestampUtc);
    var timeDiff := cur.timestampUtc - prev.timestampUtc;
    if !Covers(b, lo, hi) then Fail(MissingDay)
    else if prev.status == Open then
      Ok(Totals(t.uptime + timeDiff, t.downtime + DaySum(b, lo, hi, ClosedHours)))
    else
      Ok(Totals(t.uptime + DaySum(b, lo, hi, OpenHours), t.downtime + timeDiff))
  }

  /** The counters after the loop has seen the first `k` samples. */
  function Walk(b: Calendar, startDay: int, s: seq<StatusChange>, k: nat): (r: Result<Totals, Failure>)
    requires k <= |s|
    ensures k <= 1 ==> r == Ok(Totals(0, 0))
    ensures r.Fail? ==> r.error == MissingDay
  {
    if k <= 1 then Ok(Totals(0, 0))
    else
      match Walk(b, startDay, s, k - 1)
      case Fail(f) => Fail(f)
      case Ok(t) => Step(b, startDay, s[k - 2], s[k - 1], t)
  }

  /** A failure in the loop ends the computation: later samples do not
      change it. */
  lemma {:induction false} WalkFailureSticks(b: Calendar, startDay: int, s: seq<StatusChange>, k: nat, k': nat)
    requires k <= k' <= |s|
    requires Walk(b, startDay, s, k).Fail?
    ensures Walk(b, startDay, s, k') == Walk(b, startDay, s, k)
    decreases k' - k
  {
    if k < k' {
      WalkFailureSticks(b, startDay, s, k, k' - 1);
    }
  }

  /** Lines 103-113: after an "open" last sample the spans of the dates from
      its date to the end date go to downtime, otherwise to uptime. */
  function Tail(b: Calendar, startDay: int, endDay: int, last: StatusChange, t: Totals)
    : (r: Result<Totals, Failure>)
    ensures r.Fail? <==> !Covers(b, DayIndex(startDay, last.timestampUtc), endDay - startDay + 1)
    ensures r.Fail? ==> r.error == MissingDay
    ensures r.Ok? && last.status == Open ==> r.value.uptime == t.uptime
    ensures r.Ok? && last.status != Open ==> r.value.downtime == t.downtime
    ensures r.Ok? ==> r.value.uptime + r.value.downtime
                      == t.uptime + t.downtime
                         + DaySum(b, DayIndex(startDay, last.timestampUtc), endDay - startDay + 1, Span)
  {
    var lo := DayIndex(startDay, last.timestampUtc);
    var hi := endDay - startDay + 1;
    if !Covers(b, lo, hi) then Fail(MissingDay)
    else if last.status == Open then Ok(Totals(t.uptime, t.downtime + DaySum(b, lo, hi, Span)))
    else Ok(Totals(t.uptime + DaySum(b, lo, hi, Span), t.downtime))
  }

  /** What follows the walk: the tail, or IndexError without samples. */
  function Finish(b: Calendar, startDay: int, endDay: int, s: seq<StatusChange>, t: Totals)
    : (r: Result<Totals, Failure>)
    ensures r == Fail(NoSamples) <==> |s| == 0
    ensures r.Fail? && |s| > 0 ==> r.error == MissingDay
  {
    if |s| == 0 then Fail(NoSamples) else Tail(b, startDay, endDay, s[|s| - 1], t)
  }

  /** Everything after the map is built. */
  function FromCalendar(b: Calendar, startDay: int, endDay: int, s: seq<StatusChange>)
    : (r: Result<Totals, Failure>)
    ensures r == Fail(NoSamples) <==> |s| == 0
    ensures r.Fail? && |s| > 0 ==> r.error == MissingDay
    ensures r.Ok? ==> Walk(b, startDay, s, |s|).Ok?
  {
    match Walk(b, startDay, s, |s|)
    case Fail(f) => Fail(f)
    case Ok(t) => Finish(b, startDay, endDay, s, t)
  }

  /** The whole computation, failures in the order the source meets them. */
  function UptimeDowntime(tzRow: Option<TimezoneRow>, weekly: Weekly, hostOffset: int,
                          s: seq<StatusChange>, startDay: int, endDay: int): (r: Result<Totals, Failure>)
    ensures tzRow.None? ==> r == Fail(NoTimezoneRow)
    ensures tzRow.Some? && !WeekCovered(weekly, startDay, endDay) ==> r == Fail(NoBusinessHoursRow)
    ensures tzRow.Some? && WeekCovered(weekly, startDay, endDay) && |s| == 0 ==> r == Fail(NoSamples)
    ensures tzRow.Some? && WeekCovered(weekly, startDay, endDay) && |s| > 0 ==> r.Ok? || r == Fail(MissingDay)
  {
    if tzRow.None? then Fail(NoTimezoneRow)
    else
      match CalendarFor(weekly, startDay, endDay, hostOffset)
      case Fail(f) => Fail(f)
      case Ok(b) => FromCalendar(b, startDay, endDay, s)
  }

  /** The loop of lines 73-100, returning the counters and `last_status`. */
  method WalkStatusChanges(businessHours: Calendar, startDay: int, statusChanges: seq<StatusChange>)
    returns (r: Result<Totals, Failure>, lastStatus: Option<string>)
    ensures r == Walk(businessHours, startDay, statusChanges, |statusChanges|)
    ensures r.Ok? ==> lastStatus == if |statusChanges| == 0 then None else Some(statusChanges[|statusChanges| - 1].status)
  {
    var uptime := 0;
    var downtime := 0;
    lastStatus := None;
    var i := 0;
    while i < |statusChanges|
      invariant 0 <= i <= |statusChanges|
      invariant Walk(businessHours, startDay, statusChanges, i) == Ok(Totals(uptime, downtime))
      invariant i == 0 ==> lastStatus == None
      invariant i > 0 ==> lastStatus == Some(statusChanges[i - 1].status)
    {
      var statusChange := statusChanges[i];
      if i == 0 {
        lastStatus := Some(statusChange.status);
        i := i + 1;
        continue;
      }
      var previous := statusChanges[i - 1];
      var next := IterateOnce(businessHours, startDay, previous, statusChange, lastStatus, uptime, downtime);
      if next.Fail? {
        WalkFailureSticks(businessHours, startDay, statusChanges, i + 1, |statusChanges|);
        return Fail(next.error), lastStatus;
      }
      uptime, downtime := next.value.uptime, next.value.downtime;
      lastStatus := Some(statusChange.status);
      i := i + 1;
    }
    r := Ok(Totals(uptime, downtime));
  }

  /** One iteration `i >= 1` of the loop (lines 79-98), with `last_status`
      the previous sample's status. */
  method IterateOnce(businessHours: Calendar, startDay: int, previous: StatusChange, statusChange: StatusChange,
                     lastStatus: Option<string>, uptime: int, downtime: int)
    returns (r: Result<Totals, Failure>)
    requires lastStatus == Some(previous.status)
    ensures r == Step(businessHours, startDay, previous, statusChange, Totals(uptime, downtime))
  {
    var timeDiff := statusChange.timestampUtc - previous.timestampUtc;
    var lo := DayIndex(startDay, previous.timestampUtc);
    var hi := DayIndex(startDay, statusChange.timestampUtc);
    if lastStatus == Some(Open) {
      var added := AddDayTerms(businessHours, lo, hi, ClosedHours, downtime);
      if added.Fail? {
        return Fail(added.error);
      }
      r := Ok(Totals(uptime + timeDiff, added.value));
    } else {
      var added := AddDayTerms(businessHours, lo, hi, OpenHours, uptime);
      if added.Fail? {
        return Fail(added.error);
      }
      r := Ok(Totals(added.value, downtime + timeDiff));
    }
  }

  /** `get_store_uptime_downtime`. */
  method GetStoreUptimeDowntime(tzRow: Option<TimezoneRow>, weekly: Weekly, hostOffset: int,
                                statusChanges: seq<StatusChange>, startDay: int, endDay: int)
    returns (r: Result<Totals, Failure>)
    ensures r == UptimeDowntime(tzRow, weekly, hostOffset, statusChanges, startDay, endDay)
  {
    if tzRow.None? {
      return Fail(NoTimezoneRow);
    }
    var calendar := BuildCalendar(weekly, startDay, endDay, hostOffset);
    if calendar.Fail? {
      return Fail(calendar.error);
    }
    var businessHours := calendar.value;
    var totals, lastStatus := WalkStatusChanges(businessHours, startDay, statusChanges);
    if totals.Fail? {
      return Fail(totals.error);
    }
    r := TailPass(businessHours, startDay, endDay, statusChanges, totals.value, lastStatus);
  }

  /** Lines 102-113: the tail pass after the loop. */
  method TailPass(businessHours: Calendar, startDay: int, endDay: int, statusChanges: seq<StatusChange>,
                  totals: Totals, lastStatus: Option<string>)
    returns (r: Result<Totals, Failure>)
    requires lastStatus == if |statusChanges| == 0 then None else Some(statusChanges[|statusChanges| - 1].status)
    ensures r == Finish(businessHours, startDay, endDay, statusChanges, totals)
  {
    var uptime, downtime := totals.uptime, totals.downtime;
    if lastStatus == Some(Open) {
      var last := statusChanges[|statusChanges| - 1];
      var added := AddDayTerms(businessHours, DayIndex(startDay, last.timestampUtc), endDay - startDay + 1, Span, downtime);
      if added.Fail? {
        return Fail(added.error);
      }
      downtime := added.value;
    } else {
      if |statusChanges| == 0 {
        return Fail(NoSamples);
      }
      var last := statusChanges[|statusChanges| - 1];
      var added := AddDayTerms(businessHours, DayIndex(startDay, last.timestampUtc), endDay - startDay + 1, Span, uptime);
      if added.Fail? {
        return Fail(added.error);
      }
      uptime := added.value;
    }
    return Ok(Totals(uptime, downtime));
  }
}
