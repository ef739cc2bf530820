/**
 Time stamps of reports (include/object/TimeStamp.hpp).

 A report carries a time of day only. The constructor completes it with the day of the
 receiving clock, or with the day before if that time has not come yet.
 */
module TimeStamps {
  import opened Options
  import opened Text

  datatype Format = HHMMSS | HH_MM_SS_FFF

  const DAY := 86400000
  const UINT32 := 0x1_0000_0000

  /** `value` is in milliseconds, `day` an unsigned 32-bit day number. */
  datatype TimeStamp = TimeStamp(value: int, day: nat)

  function Field(s: string, pos: nat, n: nat): Option<int>
  {
    match Substr(s, pos, n)
    case None => None
    case Some(t) => Stoi(t)
  }

  /** Hours, minutes, seconds and milliseconds of a time string. */
  function Fields(s: string, format: Format): (Option<int>, Option<int>, Option<int>, Option<int>)
  {
    match format
    case HHMMSS => (Field(s, 0, 2), Field(s, 2, 2), Field(s, 4, 2), Some(0))
    case HH_MM_SS_FFF => (Field(s, 0, 2), Field(s, 3, 2), Field(s, 6, 2), Field(s, 9, 3))
  }

  /** The parsing constructor; `day` and `now` are the two readings of the clock, taken in this
      order. None is std::invalid_argument. */
  function Parse(s: string, format: Format, day: nat, now: int): Option<TimeStamp>
  {
    var (h, m, sec, f) := Fields(s, format);
    if h == None || m == None || sec == None || f == None then None
    else Assemble(h.value, m.value, sec.value, f.value, day, now)
  }

  /** Only upper limits are checked. */
  function Assemble(h: int, m: int, s: int, f: int, day: nat, now: int): Option<TimeStamp>
  {
    if h > 23 || m > 59 || s > 59 || f > 999 then None
    else
      var value := h * 3600000 + m * 60000 + s * 1000 + f;
      Some(TimeStamp(value, if value >= now then Yesterday(day) else day))
  }

  /** Decrement of an unsigned 32-bit number. */
  function Yesterday(day: nat): nat
  {
    if day == 0 then UINT32 - 1 else day - 1
  }

  /** operator> */
  predicate Newer(a: TimeStamp, b: TimeStamp)
  {
    a.day > b.day || (a.day == b.day && a.value > b.value)
  }

  // ---------- what a sender writes ----------

  /** Hours, minutes, seconds and milliseconds of the time of day `v`. */
  function Clock(v: nat): (nat, nat, nat, nat)
  {
    var seconds := v / 1000;
    var minutes := seconds / 60;
    (minutes / 60, minutes % 60, seconds % 60, v % 1000)
  }

  lemma ClockIsExact(v: nat)
    requires v < DAY
    ensures var (h, m, s, f) := Clock(v);
            && h < 24 && m < 60 && s < 60 && f < 1000
            && v == h * 3600000 + m * 60000 + s * 1000 + f
  {
    var seconds := v / 1000;
    var minutes := seconds / 60;
    assert v == 1000 * seconds + v % 1000;
    assert seconds == 60 * minutes + seconds % 60;
    assert minutes == 60 * (minutes / 60) + minutes % 60;
  }

  /** The time of day `v` as a sender writes it. */
  function Print(v: nat, format: Format): string
  {
    var (h, m, s, f) := Clock(v);
    match format
    case HHMMSS => Printed(h, 2) + Printed(m, 2) + Printed(s, 2)
    case HH_MM_SS_FFF =>
      Printed(h, 2) + ":" + Printed(m, 2) + ":" + Printed(s, 2) + "." + Printed(f, 3)
  }

  /** The times that a format can express. */
  predicate Expressible(v: int, format: Format)
  {
    0 <= v < DAY && (format == HHMMSS ==> v % 1000 == 0)
  }

  lemma FieldAt(t: string, pos: nat, part: string)
    requires pos + |part| <= |t| && t[pos..pos + |part|] == part
    requires AllDigits(part) && part != []
    ensures Field(t, pos, |part|) == Some(Value(part))
  {
    StoiOfDigits(part);
  }

  /** The numbers are where they should be, and are digits. Nothing is said of the separators, nor
      of what follows. */
  predicate DigitFields(t: string, format: Format)
  {
    match format
    case HHMMSS =>
      |t| >= 6 && AllDigits(t[0..2]) && AllDigits(t[2..4]) && AllDigits(t[4..6])
    case HH_MM_SS_FFF =>
      && |t| >= 12 && AllDigits(t[0..2]) && AllDigits(t[3..5]) && AllDigits(t[6..8])
      && AllDigits(t[9..12])
  }

  /** The hours, minutes, seconds and milliseconds that are written there. */
  function Written(t: string, format: Format): (nat, nat, nat, nat)
    requires DigitFields(t, format)
  {
    match format
    case HHMMSS => (Value(t[0..2]), Value(t[2..4]), Value(t[4..6]), 0)
    case HH_MM_SS_FFF => (Value(t[0..2]), Value(t[3..5]), Value(t[6..8]), Value(t[9..12]))
  }

  lemma FieldsOfDigits(t: string, format: Format)
    requires DigitFields(t, format)
    ensures var (h, m, s, f) := Written(t, format);
            Fields(t, format) == (Some(h), Some(m), Some(s), Some(f))
  {
    hide Field, Value;
    FieldAt(t, 0, t[0..2]);
    match format
    case HHMMSS =>
      FieldAt(t, 2, t[2..4]);
      FieldAt(t, 4, t[4..6]);
    case HH_MM_SS_FFF =>
      FieldAt(t, 3, t[3..5]);
      FieldAt(t, 6, t[6..8]);
      FieldAt(t, 9, t[9..12]);
  }

  /** Where the fields of the long format are. */
  lemma LongSlices(H: string, M: string, S: string, F: string, t: string)
    requires |H| == |M| == |S| == 2 && |F| == 3
    requires t == H + ":" + M + ":" + S + "." + F
    ensures |t| == 12 && t[0..2] == H && t[3..5] == M && t[6..8] == S && t[9..12] == F
  {
    var a, b := H + ":" + M + ":", S + "." + F;
    assert t == a + b;
    assert a[0..2] == H && a[3..5] == M;
    assert b[0..2] == S && b[3..6] == F;
  }

  lemma TwoDigits(n: nat)
    requires n < 100
    ensures |Printed(n, 2)| == 2
  {
    assert Pow10(2) == 100;
    PrintedLength(n, 2);
  }

  /** What a sender writes is written there. */
  lemma WrittenOfPrint(v: nat, format: Format)
    requires Expressible(v, format)
    ensures DigitFields(Print(v, format), format)
    ensures Written(Print(v, format), format) == Clock(v)
  {
    var (h, m, s, f) := Clock(v);
    ClockIsExact(v);
    TwoDigits(h);
    TwoDigits(m);
    TwoDigits(s);
    var t := Print(v, format);
    if format == HHMMSS {
      assert t[0..2] == Printed(h, 2) && t[2..4] == Printed(m, 2) && t[4..6] == Printed(s, 2);
    } else {
      assert Pow10(3) == 1000;
      PrintedLength(f, 3);
      LongSlices(Printed(h, 2), Printed(m, 2), Printed(s, 2), Printed(f, 3), t);
    }
  }

  /** The time of day `v`, today if that is past, else yesterday. */
  function Completed(v: int, day: nat, now: int): TimeStamp
  {
    TimeStamp(v, if v >= now then Yesterday(day) else day)
  }

  /** A text whose numbers are digits is accepted if and only if they are those of some time of day,
      and is then completed with its day. */
  lemma ParseDigits(t: string, format: Format, v: nat, day: nat, now: int)
    requires DigitFields(t, format)
    ensures Parse(t, format, day, now).Some? <==>
              exists u :: 0 <= u < DAY && Clock(u) == Written(t, format)
    ensures v < DAY && Clock(v) == Written(t, format) ==>
              Parse(t, format, day, now) == Some(Completed(v, day, now))
  {
    hide Fields, Written, DigitFields, Yesterday;
    FieldsOfDigits(t, format);
    var (h, m, s, f) := Written(t, format);
    if Parse(t, format, day, now).Some? {
      ClockOf(h, m, s, f);
    }
    forall u: nat | u < DAY && Clock(u) == (h, m, s, f)
      ensures Parse(t, format, day, now) == Some(Completed(u, day, now))
    {
      ClockIsExact(u);
    }
  }

  lemma ClockOf(h: nat, m: nat, s: nat, f: nat)
    requires h < 24 && m < 60 && s < 60 && f < 1000
    ensures var v := h * 3600000 + m * 60000 + s * 1000 + f; v < DAY && Clock(v) == (h, m, s, f)
  {
    var v := h * 3600000 + m * 60000 + s * 1000 + f;
    assert v == 1000 * (3600 * h + 60 * m + s) + f;
    assert v / 1000 == 60 * (60 * h + m) + s;
    assert v / 1000 / 60 == 60 * h + m;
  }

  /** Parsing what a sender writes yields its time of day. */
  lemma ParsePrint(v: nat, format: Format, day: nat, now: int)
    requires Expressible(v, format)
    ensures Parse(Print(v, format), format, day, now) == Some(Completed(v, day, now))
  {
    WrittenOfPrint(v, format);
    ParseDigits(Print(v, format), format, v, day, now);
  }

  // ---------- exact reconstruction ----------

  /** The instant that a time stamp stands for, in milliseconds. */
  function Instant(t: TimeStamp): int
  {
    t.day * DAY + t.value
  }

  /** `t` is an instant in the 24 hours before `now` that has time of day `v`. */
  predicate LatestBefore(t: int, v: int, now: int)
  {
    now - DAY <= t < now && t % DAY == v
  }

  /** There is only one such instant. */
  lemma LatestIsUnique(t: int, u: int, v: int, now: int)
    requires LatestBefore(t, v, now) && LatestBefore(u, v, now)
    ensures t == u
  {
    assert t == t / DAY * DAY + v && u == u / DAY * DAY + v;
  }

  predicate DayOk(d: int)
  {
    1 <= d < UINT32
  }

  lemma CompletedIsLatest(v: int, day: nat, now: int)
    requires 0 <= v < DAY && 0 <= now < DAY && DayOk(day)
    ensures LatestBefore(Instant(Completed(v, day, now)), v, day * DAY + now)
  {
    var d := Completed(v, day, now).day;
    assert (d * DAY + v) % DAY == v;
  }

  /** Completed with the day before, the result is a day early. */
  lemma CompletedTooEarly(v: int, day: nat, now: int)
    requires 0 <= v < DAY && 0 <= now < DAY && DayOk(day) && DayOk(day + 1)
    ensures var t := Instant(Completed(v, day, now));
            var b := (day + 1) * DAY + now;
            !LatestBefore(t, v, b) && LatestBefore(t + DAY, v, b)
  {
    CompletedIsLatest(v, day + 1, now);
    assert Instant(Completed(v, day + 1, now)) == Instant(Completed(v, day, now)) + DAY;
  }

  /** Reconstruction is exact if and only if midnight does not pass between the two readings of
      the clock: the day is read on day `day`, the time on day `today`, the same or the next. */
  lemma ExactIffSameDay(v: int, day: nat, today: nat, now: int)
    requires 0 <= v < DAY && 0 <= now < DAY && DayOk(day) && DayOk(day + 1)
    requires today == day || today == day + 1
    ensures LatestBefore(Instant(Completed(v, day, now)), v, today * DAY + now) <==> today == day
  {
    if today == day {
      CompletedIsLatest(v, day, now);
    } else {
      CompletedTooEarly(v, day, now);
    }
  }

  /** The day before, modulo 2^32. */
  lemma YesterdayIsBefore(day: nat)
    requires day < 0x1_0000_0000
    ensures Yesterday(day) < 0x1_0000_0000 && (Yesterday(day) + 1) % 0x1_0000_0000 == day
  {
  }

  // ---------- short texts and signs ----------

  /** A text that ends before its last number is not accepted. */
  lemma ShortIsRejected(t: string, format: Format, day: nat, now: int)
    requires |t| <= if format == HHMMSS then 4 else 9
    ensures Parse(t, format, day, now) == None
  {
    if format == HHMMSS {
      assert Field(t, 4, 2) == None;
    } else {
      assert Field(t, 9, 3) == None;
    }
  }

  /** The first number that is not zero is positive, or all are zero. */
  predicate NotNegative(h: int, m: int, s: int, f: int)
  {
    if h != 0 then h > 0 else if m != 0 then m > 0 else if s != 0 then s > 0 else f >= 0
  }

  /** A sign takes one of the characters of a number. */
  lemma {:induction false} StoiBound(t: string, k: nat)
    requires |t| <= k + 1
    ensures Stoi(t).Some? ==> 0 < Stoi(t).value + Pow10(k)
  {
    if t != [] {
      if IsSpace(t[0]) {
        StoiBound(t[1..], k);
      } else if t[0] == '-' {
        var d := t[1..][..DigitCount(t[1..])];
        ValueBound(d);
        Pow10Grows(|d|, k);
      }
    }
  }

  lemma {:induction false} Pow10Grows(j: nat, k: nat)
    requires j <= k
    ensures Pow10(j) <= Pow10(k)
  {
    if j < k {
      Pow10Grows(j, k - 1);
    }
  }

  lemma FieldBound(t: string, pos: nat, k: nat)
    ensures Field(t, pos, k + 1).Some? ==> 0 < Field(t, pos, k + 1).value + Pow10(k)
  {
    match Substr(t, pos, k + 1)
    case None =>
    case Some(u) => StoiBound(u, k);
  }

  lemma SignDecides(h: int, m: int, s: int, f: int)
    requires -10 < h < 24 && -10 < m < 60 && -10 < s < 60 && -100 < f < 1000
    ensures var v := h * 3600000 + m * 60000 + s * 1000 + f;
            v < DAY && (0 <= v <==> NotNegative(h, m, s, f))
  {
  }

  /** The constructor also takes numbers with a sign. A text that it accepts becomes the latest
      instant with the time of day that it denotes, if and only if the first of its numbers that
      is not zero is positive. */
  lemma AcceptedIff(t: string, format: Format, day: nat, now: int)
    requires 0 <= now < DAY && DayOk(day) && Parse(t, format, day, now).Some?
    ensures var (h, m, s, f) := Fields(t, format);
            var r := Parse(t, format, day, now).value;
            && h.Some? && m.Some? && s.Some? && f.Some?
            && r.value == h.value * 3600000 + m.value * 60000 + s.value * 1000 + f.value
            && (LatestBefore(Instant(r), r.value, day * DAY + now) <==>
                  NotNegative(h.value, m.value, s.value, f.value))
  {
    hide Fields, NotNegative, LatestBefore, Yesterday;
    var (h, m, s, f) := Fields(t, format);
    FieldsBound(t, format);
    SignDecides(h.value, m.value, s.value, f.value);
    var v := Parse(t, format, day, now).value.value;
    if v >= 0 {
      CompletedIsLatest(v, day, now);
    } else {
      NegativeIsNotLatest(Instant(Parse(t, format, day, now).value), v, day * DAY + now);
    }
  }

  lemma NegativeIsNotLatest(t: int, v: int, now: int)
    requires v < 0
    ensures !LatestBefore(t, v, now)
  {
  }

  lemma FieldsBound(t: string, format: Format)
    ensures var (h, m, s, f) := Fields(t, format);
            && (h.Some? ==> -10 < h.value) && (m.Some? ==> -10 < m.value)
            && (s.Some? ==> -10 < s.value) && (f.Some? ==> -100 < f.value)
  {
    assert Pow10(1) == 10 && Pow10(2) == 100;
    hide Field, Pow10;
    FieldBound(t, 0, 1);
    match format
    case HHMMSS =>
      FieldBound(t, 2, 1);
      FieldBound(t, 4, 1);
    case HH_MM_SS_FFF =>
      FieldBound(t, 3, 1);
      FieldBound(t, 6, 1);
      FieldBound(t, 9, 2);
  }

  /** An hour before midnight, written as a negative time, is taken for a time of today. */
  lemma MinusOneHour(day: nat)
    ensures Parse("-1:00:00.000", HH_MM_SS_FFF, day, 5) == Some(TimeStamp(-3600000, day))
  {
    hide Fields;
    var t := "-1:00:00.000";
    assert t[0..2] == "-1" && t[3..5] == "00" && t[6..8] == "00" && t[9..12] == "000";
    MinusOneFields(t);
  }

  lemma MinusOneFields(t: string)
    requires |t| == 12 && t[0..2] == "-1" && t[3..5] == "00" && t[6..8] == "00" && t[9..12] == "000"
    ensures Fields(t, HH_MM_SS_FFF) == (Some(-1), Some(0), Some(0), Some(0))
  {
    hide Field, Value;
    MinusOne(t);
    Zeros();
    FieldAt(t, 3, "00");
    FieldAt(t, 6, "00");
    FieldAt(t, 9, "000");
  }

  lemma MinusOne(t: string)
    requires |t| >= 2 && t[0..2] == "-1"
    ensures Field(t, 0, 2) == Some(-1)
  {
    hide Stoi;
    assert t[0..2] == "" + "-" + "1" + "";
    assert Value("1") == 1 by {
      assert "1"[..0] == "";
    }
    StoiReads(t[0..2], "", "-", "1", "");
  }

  lemma Zeros()
    ensures Value("00") == 0 && Value("000") == 0
  {
    PadOne("0");
    PadOne("00");
  }

  // ---------- order ----------

  /** A report sent at `sent` and received at `received`, as the receiver stamps it. */
  function Stamp(sent: nat, received: nat, format: Format): Option<TimeStamp>
  {
    Parse(Print(sent % DAY, format), format, received / DAY, received % DAY)
  }

  /** Stamped with the true instant of sending, for any delay up to 24 hours. */
  lemma StampIsSendTime(sent: nat, received: nat, format: Format)
    requires Expressible(sent % DAY, format) && DayOk(received / DAY)
    requires sent < received <= sent + DAY
    ensures Stamp(sent, received, format).Some?
    ensures Instant(Stamp(sent, received, format).value) == sent
    ensures 0 <= Stamp(sent, received, format).value.value < DAY
  {
    ParsePrint(sent % DAY, format, received / DAY, received % DAY);
    CompletedIsLatest(sent % DAY, received / DAY, received % DAY);
    assert received == received / DAY * DAY + received % DAY;
    LatestIsUnique(sent, Instant(Stamp(sent, received, format).value), sent % DAY, received);
  }

  lemma NewerIsLater(a: TimeStamp, b: TimeStamp)
    requires 0 <= a.value < DAY && 0 <= b.value < DAY
    ensures Newer(a, b) <==> Instant(a) > Instant(b)
  {
  }

  /** operator> orders reports by the time at which they were sent, across midnights, whatever
      the formats and delays. */
  lemma OrderedBySendTime(s1: nat, r1: nat, f1: Format, s2: nat, r2: nat, f2: Format)
    requires Expressible(s1 % DAY, f1) && DayOk(r1 / DAY) && s1 < r1 <= s1 + DAY
    requires Expressible(s2 % DAY, f2) && DayOk(r2 / DAY) && s2 < r2 <= s2 + DAY
    ensures Stamp(s1, r1, f1).Some? && Stamp(s2, r2, f2).Some?
    ensures Newer(Stamp(s1, r1, f1).value, Stamp(s2, r2, f2).value) <==> s1 > s2
  {
    StampIsSendTime(s1, r1, f1);
    StampIsSendTime(s2, r2, f2);
    NewerIsLater(Stamp(s1, r1, f1).value, Stamp(s2, r2, f2).value);
  }
}
