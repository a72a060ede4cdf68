/** `compute_uptime` and the two lookups it uses: the store's zone, which
    falls back to UTC, and its business-hours entries. */
module UptimePercent {
  import opened Wrappers
  import opened Clock
  import opened Records
  import opened BusinessOverlap

  /** A time zone as its fixed offset from UTC in seconds. */
  datatype Zone = Zone(utcOffset: int)

  const Utc: Zone := Zone(0)

  /** `get_store_timezone`: the zone of the store's first timezone row, or
      UTC when it has none. */
  function GetStoreTimezone(row: Option<TimezoneRow>): (z: Zone)
    ensures row.None? ==> z == Utc
    ensures row.Some? ==> z.utcOffset == row.value.utcOffset
  {
    match row
    case None => Utc
    case Some(entry) => Zone(entry.utcOffset)
  }

  function AsEntry(bh: BusinessHoursRow): Entry
  {
    Entry(bh.dayOfWeek, bh.startTimeLocal, bh.endTimeLocal)
  }

  /** The store's rows of the table: each row of the store as often as it
      occurs in the table, and no row of another store. */
  function StoreRows(table: seq<BusinessHoursRow>, storeId: int): (rows: seq<BusinessHoursRow>)
    ensures |rows| <= |table|
    ensures forall bh :: multiset(rows)[bh] == if bh.storeId == storeId then multiset(table)[bh] else 0
  {
    if |table| == 0 then []
    else
      var rest := StoreRows(table[1..], storeId);
      assert table == [table[0]] + table[1..];
      if table[0].storeId == storeId then [table[0]] + rest else rest
  }

  /** `get_store_business_hours`: the (day_of_week, open, close) triples of
      the store's rows, in table order. */
  function GetStoreBusinessHours(table: seq<BusinessHoursRow>, storeId: int): (entries: seq<Entry>)
    ensures |entries| <= |table|
    ensures |entries| == |StoreRows(table, storeId)|
    ensures forall i :: 0 <= i < |entries| ==> entries[i] == AsEntry(StoreRows(table, storeId)[i])
    ensures forall e :: e in entries ==>
              exists bh :: bh in table && bh.storeId == storeId && AsEntry(bh) == e
    ensures forall bh :: bh in table && bh.storeId == storeId ==> AsEntry(bh) in entries
  {
    var entries :=
      if |table| == 0 then []
      else
        var rest := GetStoreBusinessHours(table[1..], storeId);
        if table[0].storeId == storeId then
          assert StoreRows(table, storeId) == [table[0]] + StoreRows(table[1..], storeId);
          [AsEntry(table[0])] + rest
        else
          assert StoreRows(table, storeId) == StoreRows(table[1..], storeId);
          rest;
    ProjectionMembership(table, storeId, entries);
    entries
  }

  /** A pointwise projection of the store's rows holds the projection of
      every row of the store, and nothing else. */
  lemma ProjectionMembership(table: seq<BusinessHoursRow>, storeId: int, entries: seq<Entry>)
    requires |entries| == |StoreRows(table, storeId)|
    requires forall i :: 0 <= i < |entries| ==> entries[i] == AsEntry(StoreRows(table, storeId)[i])
    ensures forall e :: e in entries ==>
              exists bh :: bh in table && bh.storeId == storeId && AsEntry(bh) == e
    ensures forall bh :: bh in table && bh.storeId == storeId ==> AsEntry(bh) in entries
  {
    var rows := StoreRows(table, storeId);
    forall e | e in entries
      ensures exists bh :: bh in table && bh.storeId == storeId && AsEntry(bh) == e
    {
      var i :| 0 <= i < |entries| && entries[i] == e;
      assert rows[i] in multiset(rows);
    }
    forall bh | bh in table && bh.storeId == storeId
      ensures AsEntry(bh) in entries
    {
      assert bh in multiset(table);
      assert bh in multiset(rows);
      var i :| 0 <= i < |rows| && rows[i] == bh;
      assert entries[i] == AsEntry(bh);
    }
  }

  /** The pair (uptime, downtime) of percentages. */
  datatype Percentages = Percentages(uptime: real, downtime: real)

  /** `compute_uptime` over the window `[start, end]` (UTC instants): the
      business-hours overlap as a percentage of one 24-hour day, and the rest
      of 100 as downtime. */
  function ComputeUptime(tzRow: Option<TimezoneRow>, table: seq<BusinessHoursRow>, storeId: int,
                         start: int, end: int): (p: Percentages)
    ensures p.uptime + p.downtime == 100.0
    ensures p.uptime >= 0.0
    ensures p.uptime * (Day as real)
         == 100.0 * (TotalOverlap(GetStoreBusinessHours(table, storeId),
                                  GetStoreTimezone(tzRow).utcOffset, start, end) as real)
  {
    var storeTimezone := GetStoreTimezone(tzRow);
    var storeBusinessHours := GetStoreBusinessHours(table, storeId);
    var hoursOpen := TotalOverlap(storeBusinessHours, storeTimezone.utcOffset, start, end);
    var uptime := (hoursOpen as real) / (Day as real) * 100.0;
    var downtime := 100.0 - uptime;
    Percentages(uptime, downtime)
  }

  // ---------------------------------------------------------------------
  // Properties of the percentages

  /** An empty or reversed window is all downtime. */
  lemma EmptyWindowAllDowntime(tzRow: Option<TimezoneRow>, table: seq<BusinessHoursRow>, storeId: int,
                               start: int, end: int)
    requires end <= start
    ensures ComputeUptime(tzRow, table, storeId, start, end) == Percentages(0.0, 100.0)
  {
    EmptyWindowHasNoOverlap(GetStoreBusinessHours(table, storeId),
                            GetStoreTimezone(tzRow).utcOffset, start, end);
  }

  /** A store without business-hours rows is all downtime. */
  lemma NoHoursAllDowntime(tzRow: Option<TimezoneRow>, table: seq<BusinessHoursRow>, storeId: int,
                           start: int, end: int)
    requires forall bh :: bh in table ==> bh.storeId != storeId
    ensures ComputeUptime(tzRow, table, storeId, start, end) == Percentages(0.0, 100.0)
  {
    NoRowsNoEntries(table, storeId);
  }

  /** A store with no rows in the table has no entries. */
  lemma {:induction false} NoRowsNoEntries(table: seq<BusinessHoursRow>, storeId: int)
    requires forall bh :: bh in table ==> bh.storeId != storeId
    ensures GetStoreBusinessHours(table, storeId) == []
  {
    if |table| > 0 {
      assert table[0] in table;
      assert forall bh :: bh in table[1..] ==> bh in table;
      NoRowsNoEntries(table[1..], storeId);
    }
  }

  /** Uptime is bounded by the number of the store's rows times the window
      length, as a percentage of a day; with one row and a window of at most
      a day it never exceeds 100. */
  lemma UptimeBound(tzRow: Option<TimezoneRow>, table: seq<BusinessHoursRow>, storeId: int,
                    start: int, end: int)
    requires start <= end
    ensures ComputeUptime(tzRow, table, storeId, start, end).uptime * (Day as real)
         <= 100.0 * ((|GetStoreBusinessHours(table, storeId)| * (end - start)) as real)
  {
    TotalOverlapBound(GetStoreBusinessHours(table, storeId),
                      GetStoreTimezone(tzRow).utcOffset, start, end);
  }

  /** An entry whose open and close times are equal, over the day window
      from one midnight to the next at offset 0, counts from its opening time
      to the next midnight: the close is anchored to the second date. Only
      00:00-00:00 covers the whole day; 09:00-09:00 counts fifteen hours. */
  lemma EqualOpenCloseEntry(dow: int, t: TimeOfDay, d: int)
    ensures EntryOverlap(Entry(dow, t, t), 0, DayStart(d), DayStart(d + 1)) == Day - t
  {
    assert DateOf(DayStart(d + 1)) == d + 1;
  }

  /** The percentages are not bounded by 100: a UTC store with two all-day
      rows over one day reports 200% uptime and -100% downtime, because every
      row is measured against the same 24 hours. */
  lemma UptimeCanExceedHundred(d: int)
    ensures var table := [BusinessHoursRow(1, 0, 0, 0), BusinessHoursRow(1, 1, 0, 0)];
            ComputeUptime(None, table, 1, DayStart(d), DayStart(d + 1)) == Percentages(200.0, -100.0)
  {
    var table := [BusinessHoursRow(1, 0, 0, 0), BusinessHoursRow(1, 1, 0, 0)];
    var entries := GetStoreBusinessHours(table, 1);
    assert entries == [Entry(0, 0, 0), Entry(1, 0, 0)];
    EqualOpenCloseEntry(0, 0, d);
    EqualOpenCloseEntry(1, 0, d);
    assert entries[..1] == [Entry(0, 0, 0)];
    assert entries[..1][..0] == [];
    assert TotalOverlap(entries[..1], 0, DayStart(d), DayStart(d + 1)) == Day;
    assert TotalOverlap(entries, 0, DayStart(d), DayStart(d + 1)) == 2 * Day;
  }
}
