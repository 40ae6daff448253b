/** The time a RAWX frame proves and the GPS stamps of the solution table are one and the same time. */
module RawxTime {
  import opened Prelude
  import opened UbxFrames
  import GpsTime

  /** Seconds of an instant of whole microseconds are rounded to that instant. */
  lemma WholeMicros(n: int)
    ensures RoundHalfEven(n as real) == n
  {
  }

  /** Any other number is rounded to the nearest, halves to the even one. */
  lemma RoundedToNearest(x: real)
    ensures var n := RoundHalfEven(x);
      x - 0.5 <= n as real <= x + 0.5 && (n as real == x - 0.5 || n as real == x + 0.5 ==> n % 2 == 0)
  {
  }

  /** The fields of a frame as they stand in its payload. */
  lemma FieldsExactly(double: ReadDouble, raw: Bytes)
    requires |raw| >= 24
    ensures TimingUsable(double, raw) <==>
      && double(raw[6..14]).Some? && 0.0 <= double(raw[6..14]).value < 604800.0
      && raw[14] as int + 256 * (raw[15] as int) > 0 && 0 <= raw[16] < 64 && raw[17] > 0 && raw[18] % 2 == 1
  {
  }

  /** A frame whose week, time of week and eighteen leap seconds are those of an instant proves that instant. */
  lemma FrameProvesItsInstant(double: ReadDouble, raw: Bytes, utc: int, week: int, tow: int)
    requires |raw| >= 24 && raw[14] as int + 256 * (raw[15] as int) == week && raw[16] == 18
    requires raw[17] > 0 && raw[18] % 2 == 1
    requires double(raw[6..14]) == Some(tow as real / 1000000.0)
    requires GpsTime.Encode(true, utc) == Ok(GpsTime.Stamp(week, tow))
    ensures TimingUsable(double, raw) && GnssUtc(double, raw) == utc
  {
    GpsTime.EncodeExactly(utc);
    var seconds := tow as real / 1000000.0;
    assert seconds * 1000000.0 == tow as real;
    assert (seconds - 18.0) * 1000000.0 == (tow - 18_000_000) as real;
    WholeMicros(tow - 18_000_000);
  }

  /** A source time is accepted within ten seconds of the instant, or of the wall clock seven hours ahead. */
  lemma ConsistentExactly(source: int, utc: int)
    ensures Consistent(source, utc) <==>
      || (-10_000_000 <= source - utc <= 10_000_000)
      || (25_190_000_000 <= source - utc <= 25_210_000_000)
  {
  }

  /** What a frame must be: the sync bytes, its declared length, and both sums over everything between. */
  lemma ValidExactly(f: Bytes)
    ensures RawxFrame(f) <==>
      && |f| >= 8 && f[0] == 181 && f[1] == 98 && f[2] == 2 && f[3] == 21
      && |f| == f[4] as int + 256 * (f[5] as int) + 8
      && f[|f| - 2] == Plain(f[2..|f| - 2]) % 256 && f[|f| - 1] == Weighted(f[2..|f| - 2]) % 256
  {
  }
}
