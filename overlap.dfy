/** `compute_business_hours_overlap`: the hours, within a UTC window, covered
    by a store's business-hours entries. Every entry is anchored to the
    window's dates, converted to UTC, clipped to the window and summed. */
module BusinessOverlap {
  import opened Clock

  /** One element of `get_store_business_hours`: (day_of_week, open, close). */
  datatype Entry = Entry(dayOfWeek: int, open: TimeOfDay, close: TimeOfDay)

  /** A UTC interval `[lo, hi)`. */
  datatype Interval = Interval(lo: int, hi: int)

  /** The entry's opening time anchored to the date of `start` and converted
      to UTC: read in the zone, it falls on the date of `start` at the
      opening time. */
  function OpenUtc(e: Entry, offset: int, start: int): (u: int)
    ensures DateOf(u + offset) == DateOf(start)
    ensures (u + offset) % Day == e.open
  {
    ToUtc(Combine(DateOf(start), e.open), offset)
  }

  /** The entry's closing time anchored to the date of `end` (not of the
      opening) and converted to UTC: read in the zone, it falls on the date
      of `end` at the closing time. */
  function CloseUtc(e: Entry, offset: int, end: int): (u: int)
    ensures DateOf(u + offset) == DateOf(end)
    ensures (u + offset) % Day == e.close
  {
    ToUtc(Combine(DateOf(end), e.close), offset)
  }

  /** The entry's UTC business interval: a close that is not after the open
      is moved exactly one day later; the open never moves. When the window
      does not end on an earlier date than it starts, the interval is never
      empty. */
  function Resolve(e: Entry, offset: int, start: int, end: int): (iv: Interval)
    ensures iv.lo == OpenUtc(e, offset, start)
    ensures OpenUtc(e, offset, start) >= CloseUtc(e, offset, end) ==> iv.hi == CloseUtc(e, offset, end) + Day
    ensures OpenUtc(e, offset, start) < CloseUtc(e, offset, end) ==> iv.hi == CloseUtc(e, offset, end)
    ensures DateOf(start) <= DateOf(end) ==> iv.lo < iv.hi
  {
    var startUtc := OpenUtc(e, offset, start);
    var endUtc := CloseUtc(e, offset, end);
    Interval(startUtc, if startUtc >= endUtc then endUtc + Day else endUtc)
  }

  /** The seconds of one entry's interval inside `[start, end]`, never
      negative and never more than the window. */
  function EntryOverlap(e: Entry, offset: int, start: int, end: int): (r: int)
    ensures r >= 0
    ensures r <= Max(end - start, 0)
    ensures end <= start ==> r == 0
  {
    var iv := Resolve(e, offset, start, end);
    Max(Min(end, iv.hi) - Max(start, iv.lo), 0)
  }

  /** The sum of the entries' clipped overlaps. */
  function TotalOverlap(entries: seq<Entry>, offset: int, start: int, end: int): (r: int)
    ensures r >= 0
  {
    if |entries| == 0 then 0
    else TotalOverlap(entries[..|entries| - 1], offset, start, end)
         + EntryOverlap(entries[|entries| - 1], offset, start, end)
  }

  /** The loop of lines 33-44, accumulating `total_overlap` entry by entry. */
  method ComputeBusinessHoursOverlap(entries: seq<Entry>, offset: int, start: int, end: int)
    returns (totalOverlap: int)
    ensures totalOverlap == TotalOverlap(entries, offset, start, end)
  {
    totalOverlap := 0;
    var i := 0;
    while i < |entries|
      invariant 0 <= i <= |entries|
      invariant totalOverlap == TotalOverlap(entries[..i], offset, start, end)
    {
      var e := entries[i];
      var startTimeUtc := ToUtc(Combine(DateOf(start), e.open), offset);
      var endTimeUtc := ToUtc(Combine(DateOf(end), e.close), offset);
      if startTimeUtc >= endTimeUtc {
        endTimeUtc := endTimeUtc + Day;
      }
      var businessDayStart := Max(start, startTimeUtc);
      var businessDayEnd := Min(end, endTimeUtc);
      var overlap := businessDayEnd - businessDayStart;
      overlap := Max(overlap, 0);
      assert entries[..i + 1][..i] == entries[..i];
      totalOverlap := totalOverlap + overlap;
      i := i + 1;
    }
    assert entries[..i] == entries;
  }

  // ---------------------------------------------------------------------
  // Properties of the overlap

  /** An instant in both the window `[start, end)` and the interval. */
  predicate InBoth(iv: Interval, start: int, end: int, u: int)
  {
    start <= u < end && iv.lo <= u < iv.hi
  }

  /** The clip is the intersection: an instant lies in `[max(start, lo),
      min(end, hi))` exactly when it lies in both the window and the entry's
      interval. */
  lemma ClipIsIntersection(e: Entry, offset: int, start: int, end: int, t: int)
    ensures var iv := Resolve(e, offset, start, end);
            (Max(start, iv.lo) <= t < Min(end, iv.hi)) <==> InBoth(iv, start, end, t)
  {
  }

  /** An entry counts for something exactly when its interval shares an
      instant with the window. */
  lemma OverlapPositiveIffShared(e: Entry, offset: int, start: int, end: int)
    ensures var iv := Resolve(e, offset, start, end);
            EntryOverlap(e, offset, start, end) > 0 <==> exists u :: InBoth(iv, start, end, u)
  {
    var iv := Resolve(e, offset, start, end);
    if EntryOverlap(e, offset, start, end) > 0 {
      assert InBoth(iv, start, end, Max(start, iv.lo));
    } else {
      forall u | InBoth(iv, start, end, u)
        ensures false
      {
        ClipIsIntersection(e, offset, start, end, u);
      }
    }
  }

  /** No entry counts when the window is empty or reversed. */
  lemma {:induction false} EmptyWindowHasNoOverlap(entries: seq<Entry>, offset: int, start: int, end: int)
    requires end <= start
    ensures TotalOverlap(entries, offset, start, end) == 0
  {
    if |entries| > 0 {
      EmptyWindowHasNoOverlap(entries[..|entries| - 1], offset, start, end);
    }
  }

  /** The total is at most the number of entries times the window length. */
  lemma {:induction false} TotalOverlapBound(entries: seq<Entry>, offset: int, start: int, end: int)
    requires start <= end
    ensures TotalOverlap(entries, offset, start, end) <= |entries| * (end - start)
  {
    if |entries| > 0 {
      var n := |entries| - 1;
      var w := end - start;
      TotalOverlapBound(entries[..n], offset, start, end);
      assert TotalOverlap(entries, offset, start, end)
          <= TotalOverlap(entries[..n], offset, start, end) + w;
      MulSucc(n, w);
    }
  }

  lemma MulSucc(n: int, w: int)
    ensures n * w + w == (n + 1) * w
  {
  }

  /** The total of a concatenation is the sum of the totals. */
  lemma {:induction false} TotalOverlapAppend(a: seq<Entry>, b: seq<Entry>, offset: int, start: int, end: int)
    ensures TotalOverlap(a + b, offset, start, end)
         == TotalOverlap(a, offset, start, end) + TotalOverlap(b, offset, start, end)
  {
    if |b| == 0 {
      assert a + b == a;
    } else {
      var n := |b| - 1;
      assert (a + b)[..|a + b| - 1] == a + b[..n];
      assert (a + b)[|a + b| - 1] == b[n];
      TotalOverlapAppend(a, b[..n], offset, start, end);
    }
  }

  /** The order of the entries does not change the total. */
  lemma {:induction false} TotalOverlapPermutation(a: seq<Entry>, b: seq<Entry>, offset: int, start: int, end: int)
    requires multiset(a) == multiset(b)
    ensures TotalOverlap(a, offset, start, end) == TotalOverlap(b, offset, start, end)
  {
    if |a| > 0 {
      var n := |a| - 1;
      var x := a[n];
      assert a == a[..n] + [x];
      assert x in multiset(b);
      var k :| 0 <= k < |b| && b[k] == x;
      var rest := b[..k] + b[k + 1..];
      assert b == b[..k] + [x] + b[k + 1..];
      assert multiset(a[..n]) == multiset(rest) by {
        calc {
          multiset(a[..n]);
          multiset(a[..n] + [x]) - multiset{x};
          multiset(b[..k] + [x] + b[k + 1..]) - multiset{x};
          multiset(rest);
        }
      }
      TotalOverlapPermutation(a[..n], rest, offset, start, end);
      TotalOverlapAppend(b[..k] + [x], b[k + 1..], offset, start, end);
      TotalOverlapAppend(b[..k], [x], offset, start, end);
      TotalOverlapAppend(b[..k], b[k + 1..], offset, start, end);
      assert [x][..0] == [];
    }
  }

  /** `day_of_week` is never consulted: entries that agree on their opening
      and closing times give the same total. */
  lemma {:induction false} DayOfWeekIgnored(a: seq<Entry>, b: seq<Entry>, offset: int, start: int, end: int)
    requires |a| == |b|
    requires forall i :: 0 <= i < |a| ==> a[i].open == b[i].open && a[i].close == b[i].close
    ensures TotalOverlap(a, offset, start, end) == TotalOverlap(b, offset, start, end)
  {
    if |a| > 0 {
      var n := |a| - 1;
      DayOfWeekIgnored(a[..n], b[..n], offset, start, end);
    }
  }

  /** With both ends of the window on the same date the interval lasts
      `close - open`, or that plus a day when the window crosses midnight
      (so a 24-hour day when open and close are equal). */
  lemma SameDateSpan(e: Entry, offset: int, start: int, end: int)
    requires DateOf(start) == DateOf(end)
    ensures var iv := Resolve(e, offset, start, end);
            iv.hi - iv.lo == if e.close > e.open then e.close - e.open else e.close - e.open + Day
    ensures var iv := Resolve(e, offset, start, end);
            0 < iv.hi - iv.lo <= Day
  {
  }

  /** 22:00-06:00 with both ends on one date lasts eight hours, at any
      fixed offset. */
  lemma OvernightEightHours(offset: int, start: int, end: int)
    requires DateOf(start) == DateOf(end)
    ensures var iv := Resolve(Entry(0, 22 * 3600, 6 * 3600), offset, start, end);
            iv.hi - iv.lo == 8 * 3600
  {
    SameDateSpan(Entry(0, 22 * 3600, 6 * 3600), offset, start, end);
  }

  /** The close is anchored to the end's date: a UTC store that opens 09:00
      to 17:00, over the day window from midnight to the next midnight,
      counts fifteen hours (09:00 to the next midnight), not eight. */
  lemma CloseAnchoredToEndDate(d: int)
    ensures EntryOverlap(Entry(0, 9 * 3600, 17 * 3600), 0, DayStart(d), DayStart(d + 1)) == 15 * 3600
  {
    assert DateOf(DayStart(d + 1)) == d + 1;
  }
}
