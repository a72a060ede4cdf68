/** The rows the uptime computation reads, with the fields it uses
    (app/models.py). */
module Records {
  import opened Clock

  /** A `BusinessHours` row: a store's local opening and closing time for
      one day of the week. */
  datatype BusinessHoursRow = BusinessHoursRow(
    storeId: int,
    dayOfWeek: int,
    startTimeLocal: TimeOfDay,
    endTimeLocal: TimeOfDay)

  /** A `Timezone` row. The zone name is replaced by the zone's fixed offset
      from UTC, in seconds. */
  datatype TimezoneRow = TimezoneRow(storeId: int, utcOffset: int)

  /** One observed status of a store (a `Store` row): a UTC instant and the
      status string. */
  datatype StatusChange = StatusChange(timestampUtc: int, status: string)

  /** The status that counts as up. */
  const Open: string := "open"
}
