/** Properties of `get_store_uptime_downtime`: which lookups can fail, how
    the gaps between samples are attributed, and how the counters move. */
module StoreUptimeDowntimeProperties {
  import opened Wrappers
  import opened Clock
  import opened Records
  import opened StoreUptimeDowntime

  /** Every sample lies between the start of the start date and the start of
      the end date, as the `between` filter of line 66 selects them. */
  predicate InWindow(s: seq<StatusChange>, startDay: int, endDay: int)
  {
    forall i :: 0 <= i < |s| ==> DayStart(startDay) <= s[i].timestampUtc <= DayStart(endDay)
  }

  /** The samples are in ascending time order (`order_by` at line 66). */
  predicate Sorted(s: seq<StatusChange>)
  {
    forall i, j :: 0 <= i < j < |s| ==> s[i].timestampUtc <= s[j].timestampUtc
  }

  /** A sample inside the window has a day offset that is a key of the map. */
  lemma DayIndexWithin(startDay: int, endDay: int, t: int)
    requires DayStart(startDay) <= t <= DayStart(endDay)
    ensures 0 <= DayIndex(startDay, t) <= endDay - startDay
  {
    DateWithin(t, startDay, endDay);
  }

  /** With every sample inside the window, no lookup of the loop misses. */
  lemma {:induction false} WalkSucceeds(b: Calendar, startDay: int, endDay: int, s: seq<StatusChange>, k: nat)
    requires forall j :: j in b <==> 0 <= j <= endDay - startDay
    requires InWindow(s, startDay, endDay)
    requires k <= |s|
    ensures Walk(b, startDay, s, k).Ok?
  {
    if k > 1 {
      WalkSucceeds(b, startDay, endDay, s, k - 1);
      DayIndexWithin(startDay, endDay, s[k - 2].timestampUtc);
      DayIndexWithin(startDay, endDay, s[k - 1].timestampUtc);
      assert Covers(b, DayIndex(startDay, s[k - 2].timestampUtc), DayIndex(startDay, s[k - 1].timestampUtc));
    }
  }

  /** For samples inside the window the computation never raises KeyError:
      it succeeds exactly when the store has a timezone row, every date has a
      row for its weekday and there is at least one sample, and otherwise it
      fails with the first of those that is missing. */
  lemma OutcomeInWindow(tzRow: Option<TimezoneRow>, weekly: Weekly, hostOffset: int,
                        s: seq<StatusChange>, startDay: int, endDay: int)
    requires InWindow(s, startDay, endDay)
    ensures var r := UptimeDowntime(tzRow, weekly, hostOffset, s, startDay, endDay);
            r.Ok? <==> tzRow.Some? && WeekCovered(weekly, startDay, endDay) && |s| > 0
    ensures var r := UptimeDowntime(tzRow, weekly, hostOffset, s, startDay, endDay);
            && (tzRow.None? ==> r == Fail(NoTimezoneRow))
            && (tzRow.Some? && !WeekCovered(weekly, startDay, endDay) ==> r == Fail(NoBusinessHoursRow))
            && (tzRow.Some? && WeekCovered(weekly, startDay, endDay) && |s| == 0 ==> r == Fail(NoSamples))
            && r != Fail(MissingDay)
  {
    var cal := CalendarFor(weekly, startDay, endDay, hostOffset);
    if tzRow.Some? && cal.Ok? {
      var b := cal.value;
      WalkSucceeds(b, startDay, endDay, s, |s|);
      if |s| > 0 {
        DayIndexWithin(startDay, endDay, s[|s| - 1].timestampUtc);
        assert Covers(b, DayIndex(startDay, s[|s| - 1].timestampUtc), endDay - startDay + 1);
      }
    }
  }

  // ---------------------------------------------------------------------
  // Attribution of the gaps

  /** The gaps `s[i] - s[i-1]` for `1 <= i < k` whose earlier sample is
      "open" (when `open` holds) or not "open" (otherwise). */
  function CreditedGaps(s: seq<StatusChange>, k: nat, open: bool): int
    requires k <= |s|
  {
    if k <= 1 then 0
    else CreditedGaps(s, k - 1, open)
         + (if (s[k - 2].status == Open) == open then s[k - 1].timestampUtc - s[k - 2].timestampUtc else 0)
  }

  /** The two kinds of credited gaps telescope to the time from the first
      sample to the `k`-th. */
  lemma {:induction false} GapsTelescope(s: seq<StatusChange>, k: nat)
    requires 1 <= k <= |s|
    ensures CreditedGaps(s, k, true) + CreditedGaps(s, k, false) == s[k - 1].timestampUtc - s[0].timestampUtc
  {
    if k > 1 {
      GapsTelescope(s, k - 1);
    }
  }

  /** Every sample before the `k`-th is "open". */
  predicate AllOpenBefore(s: seq<StatusChange>, k: nat)
    requires k <= |s|
  {
    forall i :: 0 <= i < k - 1 ==> s[i].status == Open
  }

  /** No sample before the `k`-th is "open". */
  predicate NoneOpenBefore(s: seq<StatusChange>, k: nat)
    requires k <= |s|
  {
    forall i :: 0 <= i < k - 1 ==> s[i].status != Open
  }

  /** No consecutive pair among the first `k` samples moves to a later date. */
  predicate NoDateCrossing(s: seq<StatusChange>, k: nat)
    requires k <= |s|
  {
    forall i :: 0 < i < k ==> DateOf(s[i].timestampUtc) <= DateOf(s[i - 1].timestampUtc)
  }

  /** Each counter receives the gaps credited to it plus per-date terms that
      are never negative. Uptime receives no per-date terms while every
      earlier sample is "open", downtime none while no earlier sample is
      "open", and neither does when no pair of samples crosses a date. */
  lemma {:induction false} WalkAttribution(b: Calendar, startDay: int, s: seq<StatusChange>, k: nat)
    requires k <= |s|
    requires Walk(b, startDay, s, k).Ok?
    ensures var t := Walk(b, startDay, s, k).value;
            t.uptime >= CreditedGaps(s, k, true) && t.downtime >= CreditedGaps(s, k, false)
    ensures AllOpenBefore(s, k) ==> Walk(b, startDay, s, k).value.uptime == CreditedGaps(s, k, true)
    ensures NoneOpenBefore(s, k) ==> Walk(b, startDay, s, k).value.downtime == CreditedGaps(s, k, false)
    ensures NoDateCrossing(s, k) ==> Walk(b, startDay, s, k).value == Totals(CreditedGaps(s, k, true), CreditedGaps(s, k, false))
  {
    if k > 1 {
      WalkAttribution(b, startDay, s, k - 1);
      assert AllOpenBefore(s, k) ==> AllOpenBefore(s, k - 1);
      assert NoneOpenBefore(s, k) ==> NoneOpenBefore(s, k - 1);
      assert NoDateCrossing(s, k) ==> NoDateCrossing(s, k - 1);
    }
  }

  /** While every sample but the last is "open", uptime after the loop is
      exactly the time from the first sample to the last, and the credited
      downtime gaps vanish. */
  lemma AllOpenUptime(b: Calendar, startDay: int, s: seq<StatusChange>)
    requires |s| > 0
    requires AllOpenBefore(s, |s|)
    requires Walk(b, startDay, s, |s|).Ok?
    ensures Walk(b, startDay, s, |s|).value.uptime == s[|s| - 1].timestampUtc - s[0].timestampUtc
  {
    WalkAttribution(b, startDay, s, |s|);
    GapsTelescope(s, |s|);
    NoOpposingGaps(s, |s|, true);
  }

  /** While no sample but the last is "open", downtime after the loop is
      exactly the time from the first sample to the last. */
  lemma NoneOpenDowntime(b: Calendar, startDay: int, s: seq<StatusChange>)
    requires |s| > 0
    requires NoneOpenBefore(s, |s|)
    requires Walk(b, startDay, s, |s|).Ok?
    ensures Walk(b, startDay, s, |s|).value.downtime == s[|s| - 1].timestampUtc - s[0].timestampUtc
  {
    WalkAttribution(b, startDay, s, |s|);
    GapsTelescope(s, |s|);
    NoOpposingGaps(s, |s|, false);
  }

  /** When all earlier samples agree on being "open" or not, the other kind
      of gap is never credited. */
  lemma {:induction false} NoOpposingGaps(s: seq<StatusChange>, k: nat, open: bool)
    requires k <= |s|
    requires open ==> AllOpenBefore(s, k)
    requires !open ==> NoneOpenBefore(s, k)
    ensures CreditedGaps(s, k, !open) == 0
  {
    if k > 1 {
      assert open ==> AllOpenBefore(s, k - 1);
      assert !open ==> NoneOpenBefore(s, k - 1);
      NoOpposingGaps(s, k - 1, open);
      assert (s[k - 2].status == Open) == open;
    }
  }

  /** The counters together cover at least the time from the first sample to
      the last, exactly that when no pair crosses a date. */
  lemma WalkCoversSpan(b: Calendar, startDay: int, s: seq<StatusChange>)
    requires |s| > 0
    requires Walk(b, startDay, s, |s|).Ok?
    ensures var t := Walk(b, startDay, s, |s|).value;
            t.uptime + t.downtime >= s[|s| - 1].timestampUtc - s[0].timestampUtc
    ensures NoDateCrossing(s, |s|) ==>
            var t := Walk(b, startDay, s, |s|).value;
            t.uptime + t.downtime == s[|s| - 1].timestampUtc - s[0].timestampUtc
  {
    WalkAttribution(b, startDay, s, |s|);
    GapsTelescope(s, |s|);
  }

  // ---------------------------------------------------------------------
  // How the counters move

  /** For ascending samples no iteration of the loop lowers a counter. */
  lemma StepNeverDecreases(b: Calendar, startDay: int, prev: StatusChange, cur: StatusChange, t: Totals)
    requires prev.timestampUtc <= cur.timestampUtc
    requires Step(b, startDay, prev, cur, t).Ok?
    ensures Step(b, startDay, prev, cur, t).value.uptime >= t.uptime
    ensures Step(b, startDay, prev, cur, t).value.downtime >= t.downtime
  {
  }

  /** For ascending samples the counters only grow along the loop: the
      counters after `k` samples are at most those after `k'`. */
  lemma {:induction false} WalkMonotone(b: Calendar, startDay: int, s: seq<StatusChange>, k: nat, k': nat)
    requires Sorted(s)
    requires k <= k' <= |s|
    requires Walk(b, startDay, s, k').Ok?
    ensures Walk(b, startDay, s, k).Ok?
    ensures Walk(b, startDay, s, k).value.uptime <= Walk(b, startDay, s, k').value.uptime
    ensures Walk(b, startDay, s, k).value.downtime <= Walk(b, startDay, s, k').value.downtime
    decreases k' - k
  {
    if k < k' && k' >= 2 {
      assert Walk(b, startDay, s, k' - 1).Ok?;
      assert s[k' - 2].timestampUtc <= s[k' - 1].timestampUtc;
      StepNeverDecreases(b, startDay, s[k' - 2], s[k' - 1], Walk(b, startDay, s, k' - 1).value);
      WalkMonotone(b, startDay, s, k, k' - 1);
    }
  }

  /** For ascending samples neither counter is negative after the loop. */
  lemma WalkNonNegative(b: Calendar, startDay: int, s: seq<StatusChange>)
    requires Sorted(s)
    requires Walk(b, startDay, s, |s|).Ok?
    ensures Walk(b, startDay, s, |s|).value.uptime >= 0
    ensures Walk(b, startDay, s, |s|).value.downtime >= 0
  {
    WalkMonotone(b, startDay, s, 0, |s|);
  }

  // ---------------------------------------------------------------------
  // Worked cases

  /** The same local hours on every weekday. */
  function EveryDay(open: TimeOfDay, close: TimeOfDay): (w: Weekly)
    ensures forall d :: 0 <= d < 7 ==> d in w && w[d] == Hours(open, close)
  {
    var h := Hours(open, close);
    map[0 := h, 1 := h, 2 := h, 3 := h, 4 := h, 5 := h, 6 := h]
  }

  /** The tail adds `close - open` even for an overnight window, where it is
      negative: a store open 22:00-06:00 with a single "closed" sample at the
      start of a one-date window ends with negative uptime. */
  lemma TailCanLowerUptime(d: int)
    ensures UptimeDowntime(Some(TimezoneRow(1, 0)), EveryDay(22 * 3600, 6 * 3600), 0,
                           [StatusChange(DayStart(d), "closed")], d, d)
         == Ok(Totals(-16 * 3600, 0))
  {
    var weekly := EveryDay(22 * 3600, 6 * 3600);
    assert HasHours(weekly, d, 0);
    assert WeekCovered(weekly, d, d);
    var b := CalendarFor(weekly, d, d, 0).value;
    assert 0 in b;
    assert b[0].close - b[0].open == -16 * 3600;
    assert DaySum(b, 0, 1, Span) == -16 * 3600;
    assert "closed" != Open;
  }

  /** An "open" sample at 09:00 and a "closed" one at 12:00, business hours
      08:00-14:00 every day, over the dates d to d+1: the gap credits three
      hours of uptime, and because the last sample is not "open" the tail
      credits both dates' six hours to uptime as well. */
  lemma OpenThenClosed(d: int)
    ensures UptimeDowntime(Some(TimezoneRow(1, 0)), EveryDay(8 * 3600, 14 * 3600), 0,
                           [StatusChange(DayStart(d) + 9 * 3600, Open),
                            StatusChange(DayStart(d) + 12 * 3600, "closed")], d, d + 1)
         == Ok(Totals(15 * 3600, 0))
  {
    var weekly := EveryDay(8 * 3600, 14 * 3600);
    var s := [StatusChange(DayStart(d) + 9 * 3600, Open), StatusChange(DayStart(d) + 12 * 3600, "closed")];
    assert HasHours(weekly, d, 0) && HasHours(weekly, d, 1);
    assert WeekCovered(weekly, d, d + 1);
    var b := CalendarFor(weekly, d, d + 1, 0).value;
    assert DateOf(DayStart(d) + 9 * 3600) == d;
    assert DateOf(DayStart(d) + 12 * 3600) == d;
    assert Walk(b, d, s, 2) == Ok(Totals(3 * 3600, 0));
    assert 0 in b && 1 in b;
    assert DaySum(b, 0, 2, Span) == 12 * 3600;
    assert "closed" != Open;
  }
}
