/** GPS week and time of week for the 2026 data, at microsecond resolution, and the SQL that undoes it. */
module GpsTime {
  import opened Prelude

  /** UTC instants in microseconds since 1970-01-01. */
  type Time = int

  const SECOND: int := 1_000_000
  const HOUR: int := 3_600 * SECOND
  const WEEK: int := 604_800 * SECOND
  const GPS_EPOCH: Time := 315_964_800 * SECOND
  const LEAP: int := 18 * SECOND
  const YEAR_2026: Time := 1_767_225_600 * SECOND
  const YEAR_2027: Time := 1_798_761_600 * SECOND

  /** `tow` is the time of week in microseconds. */
  datatype Stamp = Stamp(week: int, tow: int)

  datatype TimeError = NaiveTimestamp | OffsetNotVerified

  function Encode(aware: bool, utc: Time): Result<Stamp, TimeError> {
    if !aware then Err(NaiveTimestamp)
    else if !(YEAR_2026 <= utc < YEAR_2027) then Err(OffsetNotVerified)
    else
      var total := utc - GPS_EPOCH + LEAP;
      Ok(Stamp(total / WEEK, total % WEEK))
  }

  /** to_timestamp(315964800 + gps_week * 604800 + gps_tow_s - 18). */
  function Decode(g: Stamp): Time {
    GPS_EPOCH + g.week * WEEK + g.tow - LEAP
  }

  /** date_trunc('hour', t). */
  function HourOf(t: Time): Time {
    t / HOUR * HOUR
  }

  predicate Before(a: Stamp, b: Stamp) {
    a.week < b.week || (a.week == b.week && a.tow < b.tow)
  }

  /** Decoding undoes encoding, and every stamp satisfies the table's range checks. */
  lemma DecodeUndoesEncode(utc: Time)
    requires Encode(true, utc).Ok?
    ensures var g := Encode(true, utc).value;
      Decode(g) == utc && g.week >= 0 && 0 <= g.tow < WEEK
  {
    var total := utc - GPS_EPOCH + LEAP;
    assert total == total / WEEK * WEEK + total % WEEK;
  }

  /** Stamps are ordered as the instants they encode; in particular distinct instants differ. */
  /** GPS time counts from 6 January 1980 and is eighteen seconds ahead; a week has 604800 seconds. */
  lemma EncodeExactly(utc: Time)
    ensures Encode(true, utc).Ok? <==> 1_767_225_600_000_000 <= utc < 1_798_761_600_000_000
    ensures Encode(true, utc).Ok? ==>
      var g := Encode(true, utc).value;
      g.week * 604_800_000_000 + g.tow == utc - 315_964_800_000_000 + 18_000_000 && 0 <= g.tow < 604_800_000_000
    ensures Encode(false, utc) == Err(NaiveTimestamp)
  {
  }

  lemma EncodePreservesOrder(a: Time, b: Time)
    requires Encode(true, a).Ok? && Encode(true, b).Ok?
    ensures a < b <==> Before(Encode(true, a).value, Encode(true, b).value)
    ensures a == b <==> Encode(true, a) == Encode(true, b)
  {
    DecodeUndoesEncode(a);
    DecodeUndoesEncode(b);
  }

  lemma HourContains(start: Time, utc: Time)
    requires start % HOUR == 0 && start <= utc < start + HOUR
    ensures HourOf(utc) == start
  {
    assert (utc - start) / HOUR == 0;
    assert utc == start + (utc - start);
    assert utc / HOUR == start / HOUR;
  }
}
