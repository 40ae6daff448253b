/**
  UBX frames: the 8-bit Fletcher checksum that four parsers repeat, what it detects, joining frames
  into one stream, and the length-prefixed fingerprint of a worker run.
 */
module UbxFrames {
  import opened Prelude

  const SYNC_A: Byte := 0xB5
  const SYNC_B: Byte := 0x62
  const RAWX_CLASS: Byte := 0x02
  const RAWX_ID: Byte := 0x15

  // ---------------------------------------------------------------- the checksum

  function Plain(body: Bytes): int {
    if body == [] then 0 else Plain(body[..|body| - 1]) + body[|body| - 1]
  }

  /** Every byte weighted by its distance from the end, the last byte counting once. */
  function Weighted(body: Bytes): int {
    if body == [] then 0 else Weighted(body[..|body| - 1]) + Plain(body)
  }

  lemma ModuloSum(a: int, b: int)
    ensures (a % 256 + b) % 256 == (a + b) % 256 && (a + b % 256) % 256 == (a + b) % 256
  {
  }

  /** The running pair of sums, reduced at every byte, is the two sums reduced once. */
  method Checksum(body: Bytes) returns (ckA: Byte, ckB: Byte)
    ensures ckA == Plain(body) % 256 && ckB == Weighted(body) % 256
  {
    ckA, ckB := 0, 0;
    for i := 0 to |body|
      invariant ckA == Plain(body[..i]) % 256 && ckB == Weighted(body[..i]) % 256
    {
      assert body[..i + 1][..i] == body[..i];
      ModuloSum(Plain(body[..i]), body[i]);
      ModuloSum(Weighted(body[..i]), Plain(body[..i + 1]));
      ModuloSum(Weighted(body[..i]), Plain(body[..i + 1]) % 256);
      ckA := (ckA + body[i]) % 256;
      ckB := (ckB + ckA) % 256;
    }
    assert body[..|body|] == body;
  }

  function LittleEndian16(low: Byte, high: Byte): nat {
    low + 256 * high
  }

  function Body(f: Bytes): Bytes
    requires |f| >= 8
  {
    f[2..|f| - 2]
  }

  /** The one description of a valid frame. */
  ghost predicate ValidFrame(f: Bytes) {
    && |f| >= 8 && f[0] == SYNC_A && f[1] == SYNC_B
    && |f| == LittleEndian16(f[4], f[5]) + 8
    && f[|f| - 2] == Plain(Body(f)) % 256 && f[|f| - 1] == Weighted(Body(f)) % 256
  }

  ghost predicate RawxFrame(f: Bytes) {
    ValidFrame(f) && f[2] == RAWX_CLASS && f[3] == RAWX_ID
  }

  // ---------------------------------------------------------------- the four parsers

  datatype FrameError =
    | BadSync
    | TooShort
    | LengthMismatch
    | ChecksumMismatch
    | NotRawx
    | HeaderIncomplete
    | MeasurementLengthMismatch
    | NaiveTimestamp
    | InvalidTiming
    | TimestampDiffers

  /** `g4_parser`: its own order of checks, sync bytes first. */
  method DecodeUbx(raw: Bytes) returns (r: Result<Bytes, FrameError>)
    ensures r == Ok(raw) <==> ValidFrame(raw)
    ensures r.Ok? ==> r.value == raw
    ensures r == Err(BadSync) <==> !([SYNC_A, SYNC_B] <= raw)
    ensures r == Err(TooShort) <==> [SYNC_A, SYNC_B] <= raw && |raw| < 8
    ensures r == Err(LengthMismatch) <==>
      [SYNC_A, SYNC_B] <= raw && |raw| >= 8 && |raw| != LittleEndian16(raw[4], raw[5]) + 8
  {
    if !([SYNC_A, SYNC_B] <= raw) {
      return Err(BadSync);
    }
    assert raw[0] == [SYNC_A, SYNC_B][0] && raw[1] == [SYNC_A, SYNC_B][1];
    if |raw| < 8 {
      return Err(TooShort);
    }
    if |raw| != LittleEndian16(raw[4], raw[5]) + 8 {
      return Err(LengthMismatch);
    }
    var ckA, ckB := Checksum(Body(raw));
    if raw[|raw| - 2] != ckA || raw[|raw| - 1] != ckB {
      return Err(ChecksumMismatch);
    }
    r := Ok(raw);
  }

  /** `prepare_itb_uploads`: a yes or no. */
  method UbxValid(frame: Bytes) returns (valid: bool)
    ensures valid <==> ValidFrame(frame)
  {
    if |frame| < 8 || frame[..2] != [SYNC_A, SYNC_B] || |frame| != 8 + LittleEndian16(frame[4], frame[5]) {
      assert |frame| >= 8 ==> frame[..2] == [frame[0], frame[1]];
      return false;
    }
    assert frame[..2] == [frame[0], frame[1]];
    var ckA, ckB := Checksum(Body(frame));
    valid := frame[|frame| - 2] == ckA && frame[|frame| - 1] == ckB;
  }

  /** `gnss_rawx_time`: the checks before the fields are read; a RAWX header of 16 bytes must fit. */
  method CanonicalRawxFrame(raw: Bytes) returns (r: Result<(), FrameError>)
    ensures r.Ok? <==> RawxFrame(raw) && |raw| >= 24
    ensures r == Err(NotRawx) <==> |raw| < 24 || !([SYNC_A, SYNC_B, RAWX_CLASS, RAWX_ID] <= raw)
    ensures r == Err(LengthMismatch) <==>
      |raw| >= 24 && [SYNC_A, SYNC_B, RAWX_CLASS, RAWX_ID] <= raw && |raw| != LittleEndian16(raw[4], raw[5]) + 8
    ensures r.Err? ==> r.error in {NotRawx, LengthMismatch, ChecksumMismatch}
  {
    if |raw| < 24 || raw[..4] != [SYNC_A, SYNC_B, RAWX_CLASS, RAWX_ID] {
      assert |raw| >= 24 ==> raw[..4] == [raw[0], raw[1], raw[2], raw[3]];
      return Err(NotRawx);
    }
    assert raw[..4] == [raw[0], raw[1], raw[2], raw[3]];
    var length := LittleEndian16(raw[4], raw[5]);
    if length + 8 != |raw| || length < 16 {
      return Err(LengthMismatch);
    }
    var ckA, ckB := Checksum(Body(raw));
    if raw[|raw| - 2] != ckA || raw[|raw| - 1] != ckB {
      return Err(ChecksumMismatch);
    }
    r := Ok(());
  }

  // ---------------------------------------------------------------- GNSS time of a RAWX frame

  const MICROS := 1_000_000
  const DAY := 86_400 * MICROS
  /** 6 January 1980, counted from 1970. */
  const GPS_EPOCH := 3657 * DAY
  const WEEK := 7 * DAY
  /** Indonesian wall-clock time is this much ahead of UTC. */
  const WIB := 7 * 3600 * MICROS
  const TOLERANCE := 10 * MICROS

  /** The eight bytes of a double as a number, or nothing when they are not finite. */
  type ReadDouble = Bytes -> Option<real>

  function RoundHalfEven(x: real): int {
    var low := x.Floor;
    var rest := x - low as real;
    if rest < 0.5 || (rest == 0.5 && low % 2 == 0) then low else low + 1
  }

  function Signed(b: Byte): int {
    if b < 128 then b else b - 256
  }

  /** Receiver time of week at byte 6, week at 14, leap seconds at 16, measurements at 17, flags at 18. */
  predicate TimingUsable(double: ReadDouble, raw: Bytes)
    requires |raw| >= 24
  {
    && double(raw[6..14]).Some? && 0.0 <= double(raw[6..14]).value < 604800.0
    && 0 <= Signed(raw[16]) < 64 && raw[18] % 2 == 1
    && LittleEndian16(raw[14], raw[15]) > 0 && raw[17] >= 1
  }

  function GnssUtc(double: ReadDouble, raw: Bytes): int
    requires |raw| >= 24 && TimingUsable(double, raw)
  {
    GPS_EPOCH + LittleEndian16(raw[14], raw[15]) * WEEK
    + RoundHalfEven((double(raw[6..14]).value - Signed(raw[16]) as real) * 1000000.0)
  }

  /** Within ten seconds of UTC, or of the wall clock seven hours ahead. */
  predicate Consistent(source: int, utc: int) {
    || utc - TOLERANCE <= source <= utc + TOLERANCE
    || utc + WIB - TOLERANCE <= source <= utc + WIB + TOLERANCE
  }

  function Abs(x: int): nat {
    if x < 0 then -x else x
  }

  predicate TimeVerified(double: ReadDouble, raw: Bytes, source: int)
    requires |raw| >= 24
  {
    TimingUsable(double, raw) && Consistent(source, GnssUtc(double, raw))
  }

  /** The time a frame proves; a source without time zone is refused before the frame is looked at. */
  method CanonicalRawxUtc(double: ReadDouble, raw: Bytes, source: Option<int>) returns (r: Result<int, FrameError>)
    ensures r.Ok? <==>
      source.Some? && RawxFrame(raw) && |raw| >= 24 && TimeVerified(double, raw, source.value)
    ensures r.Ok? ==> r.value == GnssUtc(double, raw)
    ensures r == Err(NaiveTimestamp) <==> source.None?
    ensures r == Err(InvalidTiming) <==>
      source.Some? && RawxFrame(raw) && |raw| >= 24 && !TimingUsable(double, raw)
    ensures r == Err(TimestampDiffers) <==>
      source.Some? && RawxFrame(raw) && |raw| >= 24 && TimingUsable(double, raw)
      && !Consistent(source.value, GnssUtc(double, raw))
  {
    if source.None? {
      return Err(NaiveTimestamp);
    }
    var frame := CanonicalRawxFrame(raw);
    if frame.Err? {
      return Err(frame.error);
    }
    var tow, leap := double(raw[6..14]), Signed(raw[16]);
    var week := LittleEndian16(raw[14], raw[15]);
    if tow.None? || !(0.0 <= tow.value < 604800.0) || !(0 <= leap < 64) || raw[18] % 2 != 1
       || week <= 0 || raw[17] < 1 {
      return Err(InvalidTiming);
    }
    var utc := GPS_EPOCH + week * WEEK + RoundHalfEven((tow.value - leap as real) * 1000000.0);
    var delta := source.value - utc;
    if Abs(delta) > TOLERANCE && Abs(delta - WIB) > TOLERANCE {
      return Err(TimestampDiffers);
    }
    r := Ok(utc);
  }

  /**
    What ingestion stored is read back unchanged: given the time a frame proved as its source time, or the
    wall clock of that time, the frame proves the same time again.
   */
  method CanonicalAgain(double: ReadDouble, raw: Bytes, source: Option<int>)
      returns (first: Result<int, FrameError>, again: Result<int, FrameError>, wall: Result<int, FrameError>)
    ensures first.Ok? ==> again == first && wall == first
  {
    first := CanonicalRawxUtc(double, raw, source);
    if first.Err? {
      return first, first, first;
    }
    again := CanonicalRawxUtc(double, raw, Some(first.value));
    wall := CanonicalRawxUtc(double, raw, Some(first.value + WIB));
  }

  // ---------------------------------------------------------------- joining frames

  function Concat(frames: seq<Bytes>): Bytes {
    if frames == [] then [] else Concat(frames[..|frames| - 1]) + frames[|frames| - 1]
  }

  /** `ppk_qa_worker`: every row must be a valid RAWX frame, and the frames are joined in order. */
  method JoinRawx(rows: seq<Bytes>) returns (r: Result<Bytes, FrameError>)
    ensures r.Ok? <==> forall k :: 0 <= k < |rows| ==> RawxFrame(rows[k])
    ensures r.Ok? ==> r.value == Concat(rows)
  {
    var frames: Bytes := [];
    for k := 0 to |rows|
      invariant forall i :: 0 <= i < k ==> RawxFrame(rows[i])
      invariant frames == Concat(rows[..k])
    {
      var frame := rows[k];
      assert rows[..k + 1][..k] == rows[..k];
      if |frame| < 8 || frame[0] != SYNC_A || frame[1] != SYNC_B {
        return Err(BadSync);
      }
      if |frame| != LittleEndian16(frame[4], frame[5]) + 8 {
        return Err(LengthMismatch);
      }
      var ckA, ckB := Checksum(Body(frame));
      if frame[|frame| - 2] != ckA || frame[|frame| - 1] != ckB {
        return Err(ChecksumMismatch);
      }
      if frame[2] != RAWX_CLASS || frame[3] != RAWX_ID {
        return Err(NotRawx);
      }
      frames := frames + frame;
    }
    assert rows[..|rows|] == rows;
    r := Ok(frames);
  }

  /** The number of measurements, only for a frame whose payload has exactly room for them. */
  method RawxMeasurementCount(row: Bytes) returns (r: Result<nat, FrameError>)
    ensures r.Ok? <==> RawxFrame(row) && |row| >= 24 && |row| == 24 + 32 * (row[17] as int)
    ensures r.Ok? ==> |row| == 24 + 32 * r.value
  {
    var joined := JoinRawx([row]);
    if joined.Err? {
      return Err(joined.error);
    }
    assert [row][..0] == [] && Concat([row]) == row;
    var frame := joined.value;
    if |frame| < 24 {
      return Err(HeaderIncomplete);
    }
    if LittleEndian16(frame[4], frame[5]) != 16 + 32 * (frame[17] as int) {
      return Err(MeasurementLengthMismatch);
    }
    r := Ok(frame[17]);
  }

  // ---------------------------------------------------------------- what the checksum detects

  function Times(weight: int, change: int): int {
    weight * change
  }

  lemma {:induction false} SumsAfterUpdate(body: Bytes, k: nat, x: Byte)
    requires k < |body|
    ensures Plain(body[k := x]) == Plain(body) + (x - body[k])
    ensures Weighted(body[k := x]) == Weighted(body) + Times(|body| - k, x - body[k])
  {
    var n := |body| - 1;
    var changed := body[k := x];
    if k < n {
      SumsAfterUpdate(body[..n], k, x);
      assert changed[..n] == body[..n][k := x];
      assert (n - k) * (x - body[k]) + (x - body[k]) == (n + 1 - k) * (x - body[k]);
    } else {
      assert changed[..n] == body[..n];
    }
  }

  lemma SmallMultiple(d: int)
    requires d % 256 == 0 && -256 < d < 256
    ensures d == 0
  {
  }

  lemma ModuloDifference(a: int, d: int)
    ensures (a + d) % 256 == a % 256 <==> d % 256 == 0
  {
  }

  /** Changing any single byte of a valid frame makes it invalid. */
  lemma SingleByteChangeRejected(f: Bytes, k: nat, x: Byte)
    requires ValidFrame(f) && k < |f| && x != f[k]
    ensures !ValidFrame(f[k := x])
  {
    var g := f[k := x];
    if 2 <= k < |f| - 2 {
      assert Body(g) == Body(f)[k - 2 := x];
      SumsAfterUpdate(Body(f), k - 2, x);
      ModuloDifference(Plain(Body(f)), x - f[k]);
      if (x - f[k]) % 256 == 0 { SmallMultiple(x - f[k]); }
    } else {
      assert Body(g) == Body(f);
    }
  }

  function Step(f: Bytes, i: nat, j: nat): int
    requires i < |f| && j < |f|
  {
    f[j] as int - f[i] as int
  }

  function Swap(f: Bytes, i: nat, j: nat): Bytes
    requires i < j < |f|
  {
    f[i := f[j]][j := f[i]]
  }

  lemma SumsAfterSwap(body: Bytes, i: nat, j: nat)
    requires i < j < |body|
    ensures Plain(Swap(body, i, j)) == Plain(body)
    ensures Weighted(Swap(body, i, j)) == Weighted(body) + Times(j - i, Step(body, i, j))
  {
    hide Plain, Weighted, Times;
    var n, x, y, mid := |body|, body[i], body[j], body[i := body[j]];
    assert mid[j] == y && mid[j := x] == Swap(body, i, j);
    hide Swap;
    SumsAfterUpdate(body, i, y);
    SumsAfterUpdate(mid, j, x);
    SwapWeights(n, i, j, x, y);
  }

  lemma SwapWeights(n: int, i: int, j: int, x: int, y: int)
    ensures Times(n - i, y - x) + Times(n - j, x - y) == Times(j - i, y - x)
  {
  }

  /**
    Exchanging two checksummed bytes outside the length field goes unnoticed exactly when their
    difference times their distance is a multiple of 256.
   */
  lemma SwapUnnoticedExactly(f: Bytes, i: nat, j: nat)
    requires ValidFrame(f) && 2 <= i < j < |f| - 2 && i !in {4, 5} && j !in {4, 5}
    ensures ValidFrame(Swap(f, i, j)) <==> (j - i) * Step(f, i, j) % 256 == 0
  {
    hide Plain, Weighted, Swap, Step, Body;
    var d := (j - i) * Step(f, i, j);
    SwapInBody(f, i, j);
    SumsAfterSwap(Body(f), i - 2, j - 2);
    OnlyBodyDiffers(f, Swap(f, i, j));
    ModuloDifference(Weighted(Body(f)), d);
  }

  /** With the same header and check bytes, only the two sums decide. */
  lemma OnlyBodyDiffers(f: Bytes, g: Bytes)
    requires ValidFrame(f) && |g| == |f|
    requires f[0] == g[0] && f[1] == g[1] && f[4] == g[4] && f[5] == g[5]
    requires f[|f| - 2] == g[|f| - 2] && f[|f| - 1] == g[|f| - 1]
    ensures ValidFrame(g) <==> Plain(Body(g)) % 256 == Plain(Body(f)) % 256
                               && Weighted(Body(g)) % 256 == Weighted(Body(f)) % 256
  {
  }

  lemma SwapInBody(f: Bytes, i: nat, j: nat)
    requires |f| >= 8 && 2 <= i < j < |f| - 2
    ensures Body(Swap(f, i, j)) == Swap(Body(f), i - 2, j - 2)
    ensures Step(Body(f), i - 2, j - 2) == Step(f, i, j)
    ensures |Swap(f, i, j)| == |f| && |Body(f)| == |f| - 4
    ensures forall k :: 0 <= k < |f| && k != i && k != j ==> Swap(f, i, j)[k] == f[k]
  {
  }

  /** Exchanging two unequal neighbouring checksummed bytes, length field included, is always rejected. */
  lemma AdjacentSwapRejected(f: Bytes, i: nat)
    requires ValidFrame(f) && 2 <= i && i + 1 < |f| - 2 && f[i] != f[i + 1]
    ensures !ValidFrame(Swap(f, i, i + 1))
  {
    hide Plain, Weighted, Swap;
    SwapInBody(f, i, i + 1);
    SumsAfterSwap(Body(f), i - 2, i - 1);
    var d := Step(f, i, i + 1);
    assert (i - 1 - (i - 2)) * d == d;
    ModuloDifference(Weighted(Body(f)), d);
    if d % 256 == 0 { SmallMultiple(d); }
  }

  // ---------------------------------------------------------------- joined frames split back

  /** Reading frames back by their declared lengths. */
  function Split(stream: Bytes): Option<seq<Bytes>> {
    if stream == [] then Some([])
    else if |stream| < 8 then None
    else
      var n := LittleEndian16(stream[4], stream[5]) + 8;
      if |stream| < n then None
      else
        match Split(stream[n..])
        case None => None
        case Some(rest) => Some([stream[..n]] + rest)
  }

  lemma Associative(a: Bytes, b: Bytes, c: Bytes)
    ensures (a + b) + c == a + (b + c)
  {
  }

  lemma {:induction false} ConcatFirst(frames: seq<Bytes>)
    requires frames != []
    ensures Concat(frames) == frames[0] + Concat(frames[1..])
  {
    var n := |frames| - 1;
    if n == 0 {
      assert frames[..0] == [] && frames[1..] == [];
    } else {
      var init, rest := frames[..n], frames[1..];
      ConcatFirst(init);
      assert init[1..] == rest[..n - 1];
      assert Concat(rest) == Concat(init[1..]) + frames[n];
      Associative(frames[0], Concat(init[1..]), frames[n]);
    }
  }

  /** The joined stream splits back into exactly the frames that were joined. */
  lemma {:induction false} JoinSplitsBack(frames: seq<Bytes>)
    requires forall k :: 0 <= k < |frames| ==> ValidFrame(frames[k])
    ensures Split(Concat(frames)) == Some(frames)
  {
    if frames != [] {
      ConcatFirst(frames);
      JoinSplitsBack(frames[1..]);
      var f, rest := frames[0], Concat(frames[1..]);
      assert ValidFrame(f);
      assert (f + rest)[4] == f[4] && (f + rest)[5] == f[5];
      assert (f + rest)[..|f|] == f && (f + rest)[|f|..] == rest;
      assert [f] + frames[1..] == frames;
    }
  }

  // ---------------------------------------------------------------- the fingerprint of a run

  function BigEndian(n: nat, width: nat): (b: Bytes)
    ensures |b| == width
  {
    if width == 0 then [] else BigEndian(n / 256, width - 1) + [n % 256]
  }

  function Power256(width: nat): nat {
    if width == 0 then 1 else 256 * Power256(width - 1)
  }

  lemma {:induction false} BigEndianInjective(m: nat, n: nat, width: nat)
    requires m < Power256(width) && n < Power256(width) && BigEndian(m, width) == BigEndian(n, width)
    ensures m == n
  {
    if width > 0 {
      var a, b := BigEndian(m, width), BigEndian(n, width);
      assert a[..width - 1] == BigEndian(m / 256, width - 1) && b[..width - 1] == BigEndian(n / 256, width - 1);
      assert a[width - 1] == m % 256 && b[width - 1] == n % 256;
      BigEndianInjective(m / 256, n / 256, width - 1);
    }
  }

  /** What is hashed after the header: every part behind its length in eight bytes. */
  function Prefixed(parts: seq<Bytes>): Bytes {
    if parts == [] then []
    else BigEndian(|parts[0]|, 8) + parts[0] + Prefixed(parts[1..])
  }

  function Fingerprint(header: Bytes, parts: seq<Bytes>): Digest {
    Sha256(header + Prefixed(parts))
  }

  method ComputeFingerprint(header: Bytes, parts: seq<Bytes>) returns (d: Digest)
    ensures d == Fingerprint(header, parts)
  {
    var sha := header;
    for k := 0 to |parts|
      invariant sha + Prefixed(parts[k..]) == header + Prefixed(parts)
    {
      assert parts[k..][1..] == parts[k + 1..];
      sha := sha + BigEndian(|parts[k]|, 8);
      sha := sha + parts[k];
    }
    assert parts[|parts|..] == [];
    d := Sha256(sha);
  }

  lemma {:induction false} PrefixedInjective(p: seq<Bytes>, q: seq<Bytes>)
    requires |p| == |q| && Prefixed(p) == Prefixed(q)
    requires forall k :: 0 <= k < |p| ==> |p[k]| < Power256(8) && |q[k]| < Power256(8)
    ensures p == q
  {
    hide BigEndian;
    if p != [] {
      var a, b := BigEndian(|p[0]|, 8), BigEndian(|q[0]|, 8);
      assert a + (p[0] + Prefixed(p[1..])) == Prefixed(p) == Prefixed(q) == b + (q[0] + Prefixed(q[1..]));
      EqualPrefixes(a, p[0] + Prefixed(p[1..]), b, q[0] + Prefixed(q[1..]));
      BigEndianInjective(|p[0]|, |q[0]|, 8);
      EqualPrefixes(p[0], Prefixed(p[1..]), q[0], Prefixed(q[1..]));
      PrefixedInjective(p[1..], q[1..]);
      assert p == [p[0]] + p[1..] && q == [q[0]] + q[1..];
    }
  }

  lemma EqualPrefixes(a: Bytes, u: Bytes, b: Bytes, v: Bytes)
    requires |a| == |b| && a + u == b + v
    ensures a == b && u == v
  {
    assert (a + u)[..|a|] == a && (b + v)[..|b|] == b;
    assert (a + u)[|a|..] == u && (b + v)[|b|..] == v;
  }

  /** Two runs have the same fingerprint only if every one of their inputs is the same. */
  lemma FingerprintInjective(header: Bytes, p: seq<Bytes>, q: seq<Bytes>)
    requires |p| == |q| && Fingerprint(header, p) == Fingerprint(header, q)
    requires forall k :: 0 <= k < |p| ==> |p[k]| < Power256(8) && |q[k]| < Power256(8)
    ensures p == q
  {
    EqualPrefixes(header, Prefixed(p), header, Prefixed(q));
    PrefixedInjective(p, q);
  }
}
