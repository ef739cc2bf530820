/**
 The GGA sentence: how a position is printed (src/data/processor/GpsProcessor.cpp) and how it is
 parsed (src/feed/parser/GpsParser.cpp), and when the two fit together.

 Doubles are exact reals. printf rounds to the nearest decimal, ties to even.
 */
module Gga {
  import opened Options
  import opened Text
  import opened Commas
  import opened Numbers
  import opened Nmea
  import opened GgaExpression
  import opened Regex
  import opened TimeStamps
  import opened Aircrafts

  // ---------- printing ----------

  /** What a position sentence tells; `satellites` is an unsigned 8-bit number. */
  datatype Fix = Fix(
    latitude: real,
    longitude: real,
    altitude: int,
    geoid: real,
    satellites: nat)

  /** The nearest integer, ties to even. */
  function Nearest(x: real): int
  {
    var f := x.Floor;
    var rest := x - f as real;
    if rest < 0.5 || (rest == 0.5 && f % 2 == 0) then f else f + 1
  }

  lemma NearestIsNear(x: real)
    ensures -0.5 <= Nearest(x) as real - x <= 0.5
    ensures x >= 0.0 ==> Nearest(x) >= 0
  {
  }

  /** Of two integers that are equally near, it is the even one. */
  lemma NearestIsEven(x: real)
    requires x - x.Floor as real == 0.5
    ensures Nearest(x) % 2 == 0
  {
  }

  /** The degrees that evalPosition computes. */
  function Degrees(v: real): nat
  {
    if v.Floor < 0 then -v.Floor else v.Floor
  }

  function Minutes(v: real): (m: real)
    ensures m >= 0.0
  {
    Abs(60.0 * (v - Degrees(v) as real))
  }

  /** The minutes in units of the last printed decimal. */
  function Ticks(v: real): nat
  {
    NearestIsNear(Minutes(v) * 10000.0);
    Nearest(Minutes(v) * 10000.0)
  }

  /** %0<w>.0lf%07.4lf of degrees and minutes. */
  function Coordinate(v: real, width: nat): string
  {
    Printed(Degrees(v), width) + Printed(Ticks(v) / 10000, 2) + "." + Printed(Ticks(v) % 10000, 4)
  }

  /** %d */
  function Integer(n: int): string
  {
    if n < 0 then "-" + Digits(-n) else Digits(n)
  }

  /** %.1lf */
  function Tenths(x: real): string
  {
    NearestIsNear(Abs(x) * 10.0);
    var q: nat := Nearest(Abs(x) * 10.0);
    (if x < 0.0 then "-" else "") + Digits(q / 10) + "." + Printed(q % 10, 1)
  }

  /** Every integer can be read back, also a negative one. */
  lemma IntegerReadsBack(n: int)
    ensures Stoi(Integer(n)) == Some(n)
  {
    hide Stoi, Digits, Value;
    var d := Digits(if n < 0 then -n else n);
    var sign := if n < 0 then "-" else "";
    assert Integer(n) == "" + sign + d + "";
    StoiReads(Integer(n), "", sign, d, "");
  }

  /** A negative number is printed as the positive one, with a sign. */
  lemma TenthsOfNegative(x: real)
    requires x < 0.0
    ensures Tenths(x) == "-" + Tenths(-x)
  {
    hide Digits, Printed, Nearest;
    assert Abs(x) == -x == Abs(-x);
    NearestIsNear(-x * 10.0);
    var q: nat := Nearest(-x * 10.0);
    var d, t := Digits(q / 10), "." + Printed(q % 10, 1);
    assert Tenths(-x) == "" + d + t && Tenths(x) == "-" + d + t;
  }

  function South(f: Fix): string
  {
    if f.latitude < 0.0 then "S" else "N"
  }

  function West(f: Fix): string
  {
    if f.longitude < 0.0 then "W" else "E"
  }

  /** The fields of a sentence, up to its `*`; `time` is the time of day in milliseconds. */
  function PrintedFields(f: Fix, time: nat): (fs: seq<string>)
    ensures |fs| == 15
  {
    ["$GPGGA", Print(time, HHMMSS), Coordinate(f.latitude, 2), South(f), Coordinate(f.longitude, 3),
     West(f), "1", Printed(f.satellites, 2), "1", Integer(f.altitude), "M", Tenths(f.geoid), "M",
     "", ""]
  }

  function Body(f: Fix, time: nat): string
  {
    Join(PrintedFields(f, time)) + "*"
  }

  // ---------- parsing ----------

  datatype GpsPosition = GpsPosition(
    position: Position,
    timeStamp: TimeStamp,
    fixQuality: nat,
    satellites: nat,
    dilution: real,
    geoid: real)

  /** std::stod of digits with or without decimals. */
  function Decimal(t: string): real
  {
    var k := DigitCount(t);
    var whole := Value(t[..k]) as real;
    if k < |t| && AllDigits(t[k + 1..])
    then whole + Value(t[k + 1..]) as real / Pow10(|t| - k - 1) as real
    else whole
  }

  function Located(degMin: string, negative: bool): real
  {
    if negative then -DmToDeg(Decimal(degMin)) else DmToDeg(Decimal(degMin))
  }

  /** unpack, when the clock says `day` and `now`. */
  function Unpack(s: string, day: nat, now: int): Option<GpsPosition>
  {
    if !Gate(s) then None else UnpackFields(Split(s), day, now)
  }

  function UnpackFields(fs: seq<string>, day: nat, now: int): Option<GpsPosition>
  {
    if !AreGga(fs) then None
    else
      match Parse(fs[1], HHMMSS, day, now)
      case None => None
      case Some(t) =>
        Some(GpsPosition(
               Position(Located(fs[2], fs[3] == "S"), Located(fs[4], fs[5] == "W"),
                        DoubleToInt(Decimal(fs[9]))),
               t, Value(fs[6]), Value(fs[7]), Decimal(fs[8]), Decimal(fs[11])))
  }

  // ---------- what a sentence means ----------

  /** Degrees and minutes: `n` digits, of which the last two are minutes, and decimals of a minute. */
  function Angle(t: string, n: nat): real
    requires n >= 2 && IsDegMin(t, n)
  {
    DegMinDigits(t, n);
    Value(t[..n - 2]) as real +
    (Value(t[n - 2..n]) as real + Value(t[n + 1..]) as real / Pow10(|t| - n - 1) as real) / 60.0
  }

  lemma DegMinDigits(t: string, n: nat)
    requires n >= 2 && IsDegMin(t, n)
    ensures AllDigits(t[..n - 2]) && AllDigits(t[n - 2..n]) && AllDigits(t[n + 1..])
    ensures t[..n] == t[..n - 2] + t[n - 2..n] && t == t[..n] + "." + t[n + 1..]
  {
    assert forall i :: 0 <= i < n ==> IsDigit(t[..n][i]) && t[i] == t[..n][i];
  }

  lemma DmToDegMeans(d: nat, m: real)
    requires 0.0 <= m < 100.0
    ensures DmToDeg(100.0 * d as real + m) == d as real + m / 60.0
  {
    var x := 100.0 * d as real + m;
    assert x / 100.0 == d as real + m / 100.0;
    assert (x / 100.0).Floor == d;
  }

  lemma FractionBelowOne(F: string)
    requires AllDigits(F)
    ensures 0.0 <= Value(F) as real / Pow10(|F|) as real < 1.0
  {
    ValueBound(F);
    RatioBelowOne(Value(F) as real, Pow10(|F|) as real);
  }

  lemma RatioBelowOne(v: real, p: real)
    requires 0.0 <= v < p
    ensures 0.0 <= v / p < 1.0
  {
    assert v / p * p == v;
  }

  lemma DegMinMeans(t: string, n: nat)
    requires n >= 2 && IsDegMin(t, n)
    ensures DmToDeg(Decimal(t)) == Angle(t, n)
  {
    hide Decimal, DmToDeg, Value, Pow10;
    DegMinDigits(t, n);
    var D, M, F := t[..n - 2], t[n - 2..n], t[n + 1..];
    DecimalOf(t, D + M, F, Pow10(|F|));
    ValueTwo(D, M);
    FractionBelowOne(F);
    TwoDigitsBound(M);
    DmToDegMeans(Value(D), Value(M) as real + Value(F) as real / Pow10(|F|) as real);
  }

  lemma TwoDigitsBound(M: string)
    requires AllDigits(M) && |M| == 2
    ensures Value(M) < 100
  {
    ValueBound(M);
    assert Pow10(2) == 100;
  }

  /** `p` is the position that the fields of a sentence tell. Counted from 0 they are: latitude in 2
      and 3, longitude in 4 and 5, fix quality in 6, satellites in 7, dilution in 8, altitude in 9,
      geoid separation in 11. Only capital S and W make a coordinate negative, although small ones
      match too. */
  predicate Tells(fs: seq<string>, p: GpsPosition)
  {
    && |fs| == 15 && IsDegMin(fs[2], 4) && IsDegMin(fs[4], 5) && AllDigits(fs[6]) && AllDigits(fs[7])
    && p.position.latitude == Angle(fs[2], 4) * (if fs[3] == "S" then -1.0 else 1.0)
    && p.position.longitude == Angle(fs[4], 5) * (if fs[5] == "W" then -1.0 else 1.0)
    && -0.5 <= p.position.altitude as real - Decimal(fs[9]) <= 0.5
    && p.fixQuality == Value(fs[6]) && p.satellites == Value(fs[7])
    && p.dilution == Decimal(fs[8]) && p.geoid == Decimal(fs[11])
  }

  /** What the parser makes of any text: it is accepted if and only if it passes the gate, matches the
      expression and has a time of day in field 1, and then read as it says. */
  lemma UnpackMeans(s: string, day: nat, now: int)
    ensures Unpack(s, day, now).Some? <==>
              && Gate(s) && MatchesAll(s, Expression())
              && |Split(s)| > 1 && Parse(Split(s)[1], HHMMSS, day, now).Some?
    ensures Unpack(s, day, now).Some? ==>
              && Tells(Split(s), Unpack(s, day, now).value)
              && Some(Unpack(s, day, now).value.timeStamp) == Parse(Split(s)[1], HHMMSS, day, now)
  {
    hide MatchesAll, Split, Gate, Parse, Expression, Tells;
    MatchIsSplit(s);
    FieldsTell(Split(s), day, now);
  }

  lemma FieldsTell(fs: seq<string>, day: nat, now: int)
    ensures UnpackFields(fs, day, now).Some? <==>
              AreGga(fs) && Parse(fs[1], HHMMSS, day, now).Some?
    ensures UnpackFields(fs, day, now).Some? ==>
              && Tells(fs, UnpackFields(fs, day, now).value)
              && Some(UnpackFields(fs, day, now).value.timeStamp) == Parse(fs[1], HHMMSS, day, now)
  {
    hide Parse, Decimal, DmToDeg, IsDegMin, Angle, IsNumber, IsTail, IsTalker, DoubleToInt;
    if AreGga(fs) {
      DegMinMeans(fs[2], 4);
      DegMinMeans(fs[4], 5);
      NearestAwayFromZero(Decimal(fs[9]), 0);
    }
  }

  /** std::stod of the numbers that match: digits, or digits with decimals. */
  lemma DecimalMeans(W: string, F: string)
    requires AllDigits(W) && AllDigits(F)
    ensures Decimal(W) == Value(W) as real
    ensures Decimal(W + "." + F) == Value(W) as real + Value(F) as real / Pow10(|F|) as real
  {
    DigitCountAll(W);
    assert W[..|W|] == W;
    DecimalOf(W + "." + F, W, F, Pow10(|F|));
  }

  // ---------- coordinates ----------

  const LAST_DECIMAL := 0.00005 / 60.0

  /** A printed coordinate has the shape that the parser wants if and only if its minutes have two
      digits before the point. */
  lemma CoordinateShape(v: real, width: nat)
    requires width > 0 && Degrees(v) < Pow10(width)
    ensures IsDegMin(Coordinate(v, width), width + 2) <==> Ticks(v) / 10000 < 100
  {
    hide Ticks, Degrees;
    var q := Ticks(v);
    var D, M, F := Printed(Degrees(v), width), Printed(q / 10000, 2), Printed(q % 10000, 4);
    PrintedLength(Degrees(v), width);
    assert Pow10(2) == 100 && Pow10(4) == 10000;
    PrintedLength(q % 10000, 4);
    if q / 10000 < 100 {
      PrintedLength(q / 10000, 2);
      DegMinOf(D, M, F);
    } else {
      DigitsLonger(q / 10000, 2);
    }
  }

  lemma DegMinOf(D: string, M: string, F: string)
    requires AllDigits(D) && AllDigits(M) && AllDigits(F) && |M| == 2 && |F| == 4
    ensures IsDegMin(D + M + "." + F, |D| + 2)
  {
    var t, n := D + M + "." + F, |D| + 2;
    assert t[..n] == D + M && t[n + 1..] == F;
  }

  lemma DecimalOf(t: string, W: string, F: string, unit: nat)
    requires AllDigits(W) && AllDigits(F) && t == W + "." + F && unit == Pow10(|F|)
    ensures Decimal(t) == Value(W) as real + Value(F) as real / unit as real
  {
    hide Value, Pow10, DigitCount;
    var n := |W|;
    assert t[n] == '.';
    DigitCountIs(t, n);
    assert t[..n] == W && t[n + 1..] == F;
  }

  /** dmToDeg undoes the composition, also when the minutes are 60.0000. */
  lemma DmToDegComposed(d: nat, q: nat)
    requires q / 10000 < 100
    ensures DmToDeg((100 * d + q / 10000) as real + (q % 10000) as real / 10000.0) ==
            d as real + q as real / 600000.0
  {
    var x := (100 * d + q / 10000) as real + (q % 10000) as real / 10000.0;
    assert q as real == (q / 10000) as real * 10000.0 + (q % 10000) as real;
    assert x == 100.0 * d as real + q as real / 10000.0;
    assert x / 100.0 == d as real + q as real / 1000000.0;
    assert q < 1000000;
    assert (x / 100.0).Floor == d;
  }

  lemma FourDecimals(t: string, W: string, F: string)
    requires AllDigits(W) && AllDigits(F) && |F| == 4 && t == W + "." + F
    ensures Decimal(t) == Value(W) as real + Value(F) as real / 10000.0
  {
    hide Decimal, Value;
    assert Pow10(4) == 10000;
    DecimalOf(t, W, F, 10000);
  }

  lemma MinuteDigits(q: nat)
    requires q / 10000 < 100
    ensures |Printed(q / 10000, 2)| == 2 && |Printed(q % 10000, 4)| == 4
  {
    assert Pow10(2) == 100 && Pow10(4) == 10000;
    PrintedLength(q / 10000, 2);
    PrintedLength(q % 10000, 4);
  }

  lemma ComposedValue(t: string, D: string, d: nat, q: nat)
    requires AllDigits(D) && Value(D) == d && q / 10000 < 100
    requires t == D + Printed(q / 10000, 2) + "." + Printed(q % 10000, 4)
    ensures DmToDeg(Decimal(t)) == d as real + q as real / 600000.0
  {
    hide Decimal, Value, DmToDeg;
    MinuteDigits(q);
    ValueTwo(D, Printed(q / 10000, 2));
    FourDecimals(t, D + Printed(q / 10000, 2), Printed(q % 10000, 4));
    DmToDegComposed(d, q);
  }

  lemma CoordinateValue(v: real, width: nat)
    requires Ticks(v) / 10000 < 100
    ensures DmToDeg(Decimal(Coordinate(v, width))) == Degrees(v) as real + Ticks(v) as real / 600000.0
  {
    ComposedValue(Coordinate(v, width), Printed(Degrees(v), width), Degrees(v), Ticks(v));
  }

  predicate Near(a: real, b: real)
  {
    -LAST_DECIMAL <= a - b <= LAST_DECIMAL
  }

  /** Degrees and rounded minutes recompose a coordinate if and only if it is not negative. For a
      negative one evalPosition measures the minutes from the wrong side. */
  lemma RecomposedIffNonNegative(v: real)
    ensures v >= 0.0 ==> Ticks(v) / 10000 < 100 && Near(Degrees(v) as real + Ticks(v) as real / 600000.0, v)
    ensures v < 0.0 ==> !Near(-(Degrees(v) as real + Ticks(v) as real / 600000.0), v)
  {
    var d, m := Degrees(v), Minutes(v);
    NearestIsNear(m * 10000.0);
    var q := Ticks(v);
    if v >= 0.0 {
      assert m == 60.0 * (v - d as real) && m < 60.0;
      assert q as real <= 600000.5;
    } else {
      assert d >= 1 && m == 60.0 * (d as real - v);
    }
  }

  // ---------- the other numbers ----------

  /** A printed integer is a number for the parser if and only if it has no sign. */
  lemma IntegerField(n: int)
    ensures IsNumber(Integer(n)) <==> n >= 0
    ensures n >= 0 ==> DoubleToInt(Decimal(Integer(n))) == n
  {
    var t := Integer(n);
    if n >= 0 {
      DigitCountAll(t);
      assert t[..|t|] == t;
    } else {
      DigitCountIs(t, 0);
    }
  }

  /** The same of a number with one decimal, which is exact to half of it. */
  lemma TenthsField(x: real)
    ensures IsNumber(Tenths(x)) <==> x >= 0.0
    ensures x >= 0.0 ==> -0.05 <= Decimal(Tenths(x)) - x <= 0.05
  {
    var t := Tenths(x);
    if x < 0.0 {
      assert t[0] == '-';
      DigitCountIs(t, 0);
    } else {
      NearestIsNear(x * 10.0);
      var q: nat := Nearest(x * 10.0);
      TenthsValue(t, q);
      assert q as real == (q / 10) as real * 10.0 + (q % 10) as real;
    }
  }

  lemma TenthsValue(t: string, q: nat)
    requires t == Digits(q / 10) + "." + Printed(q % 10, 1)
    ensures IsNumber(t) && Decimal(t) == (q / 10) as real + (q % 10) as real / 10.0
  {
    assert |Printed(q % 10, 1)| == 1 by {
      assert Pow10(1) == 10;
      PrintedLength(q % 10, 1);
    }
    OneDecimal(t, Digits(q / 10), Printed(q % 10, 1));
  }

  lemma OneDecimal(t: string, W: string, F: string)
    requires AllDigits(W) && W != "" && AllDigits(F) && |F| == 1 && t == W + "." + F
    ensures IsNumber(t) && Decimal(t) == Value(W) as real + Value(F) as real / 10.0
  {
    hide Decimal, IsNumber, Value;
    assert Pow10(1) == 10;
    DecimalOf(t, W, F, 10);
    DecimalIsNumber(t, W, F);
  }

  lemma DecimalIsNumber(t: string, W: string, F: string)
    requires AllDigits(W) && W != "" && AllDigits(F) && F != "" && t == W + "." + F
    ensures IsNumber(t)
  {
    assert t[|W|] == '.' && t[|W| + 1..] == F;
    DigitCountIs(t, |W|);
  }

  // ---------- the sentence ----------

  /** A character that may stand in a field of a sentence. */
  predicate Plain(c: char)
  {
    c < 128 as char && !Ends(c) && c != ','
  }

  predicate AllPlain(t: string)
  {
    forall i :: 0 <= i < |t| ==> Plain(t[i])
  }

  lemma DigitsArePlain(t: string)
    requires AllDigits(t)
    ensures AllPlain(t)
  {
    forall i | 0 <= i < |t| ensures Plain(t[i]) {
      assert IsDigit(t[i]);
    }
  }

  lemma CoordinateIsPlain(v: real, width: nat)
    ensures AllPlain(Coordinate(v, width))
  {
    DigitsArePlain(Printed(Degrees(v), width));
    DigitsArePlain(Printed(Ticks(v) / 10000, 2));
    DigitsArePlain(Printed(Ticks(v) % 10000, 4));
  }

  lemma NumbersArePlain(n: int, x: real)
    ensures AllPlain(Integer(n)) && AllPlain(Tenths(x))
  {
    DigitsArePlain(Digits(if n < 0 then -n else n));
    NearestIsNear(Abs(x) * 10.0);
    var q: nat := Nearest(Abs(x) * 10.0);
    DigitsArePlain(Digits(q / 10));
    DigitsArePlain(Printed(q % 10, 1));
  }

  lemma TimeIsPlain(time: nat)
    requires Expressible(time, HHMMSS)
    ensures IsDigits(Print(time, HHMMSS), 6) && AllPlain(Print(time, HHMMSS))
  {
    var (h, m, s, f) := Clock(time);
    ClockIsExact(time);
    TwoDigits(h);
    TwoDigits(m);
    TwoDigits(s);
    DigitsArePlain(Print(time, HHMMSS));
  }

  ghost predicate PlainFields(fs: seq<string>)
  {
    forall i :: 0 <= i < |fs| ==> AllPlain(fs[i])
  }

  lemma FieldsArePlain(f: Fix, time: nat)
    requires Expressible(time, HHMMSS)
    ensures PlainFields(PrintedFields(f, time))
  {
    hide Coordinate, Print, Integer, Tenths, Printed;
    var fs := PrintedFields(f, time);
    assert AllPlain(fs[1]) by { TimeIsPlain(time); }
    assert AllPlain(fs[2]) by { CoordinateIsPlain(f.latitude, 2); }
    assert AllPlain(fs[4]) by { CoordinateIsPlain(f.longitude, 3); }
    assert AllPlain(fs[7]) by { DigitsArePlain(Printed(f.satellites, 2)); }
    assert AllPlain(fs[9]) && AllPlain(fs[11]) by { NumbersArePlain(f.altitude, f.geoid); }
  }

  predicate Narrow(c: char)
  {
    c < 128 as char && !Ends(c)
  }

  lemma JoinIsNarrow(fs: seq<string>)
    requires PlainFields(fs)
    ensures forall i :: 0 <= i < |Join(fs)| ==> Narrow(Join(fs)[i])
  {
    forall i, k | 0 <= i < |fs| && 0 <= k < |fs[i]| ensures Narrow(fs[i][k]) {
      assert AllPlain(fs[i]);
      assert Plain(fs[i][k]);
    }
    JoinAll(fs, Narrow);
  }

  /** A text of narrow characters and a `*` is a body, and its sentence passes the gate. */
  lemma NarrowIsFramed(j: string)
    requires j != "" && forall i :: 0 <= i < |j| ==> Narrow(j[i])
    ensures IsBody(j + "*") && Gate(Sentence(j + "*")) && Sum(j + "*") < 128
  {
    hide Gate, Sentence, PrintHex;
    var b := j + "*";
    assert forall i :: 0 <= i < |j| ==> b[i] == j[i];
    SentencePayload(b);
    FramedIffEven(b);
    FramedIffPositive(b);
    var payload := Payload(b);
    assert payload == b[1..|b| - 1];
    forall i | 0 <= i < |payload| ensures Bytes(payload)[i] < 128 {
      assert payload[i] == j[i + 1];
    }
    NarrowIsEven(Bytes(payload));
  }

  lemma {:induction false} NarrowIsEven(b: seq<nat>)
    requires forall i :: 0 <= i < |b| ==> b[i] < 128
    ensures Wide(b) == 0
  {
    if b != [] {
      NarrowIsEven(b[..|b| - 1]);
    }
  }

  /** What is behind the last comma. */
  function Tail(sum: nat): string
    requires sum < 128
  {
    "*" + PrintHex(sum) + "\r\n"
  }

  lemma TailIsTail(sum: nat)
    requires sum < 128
    ensures IsTail(Tail(sum)) && NoComma(Tail(sum))
  {
  }

  lemma SplitFinished(fs: seq<string>, t: string)
    requires fs != [] && PlainFields(fs) && fs[|fs| - 1] == "" && NoComma(t)
    ensures Split(Join(fs) + t) == fs[|fs| - 1 := t]
  {
    JoinAppend(fs, t);
    assert "" + t == t;
    var gs := fs[|fs| - 1 := t];
    forall i | 0 <= i < |gs| ensures NoComma(gs[i]) {
      assert i < |fs| - 1 ==> AllPlain(fs[i]);
    }
    SplitJoin(gs);
  }

  /** What the parser sees of fields that were printed, ended by `*` and finished: the fields, and
      the checksum in place of the last. */
  lemma FieldsComeBack(fs: seq<string>)
    requires |fs| >= 2 && PlainFields(fs) && fs[|fs| - 1] == ""
    ensures Gate(Sentence(Join(fs) + "*")) && IsBody(Join(fs) + "*")
    ensures var n := Sum(Join(fs) + "*");
            && n < 128 && IsTail(Tail(n))
            && Split(Sentence(Join(fs) + "*")) == fs[|fs| - 1 := Tail(n)]
  {
    hide Gate, IsBody, Sum, Sentence, Split, Join, PlainFields, Tail, IsTail;
    var j := Join(fs);
    JoinIsNarrow(fs);
    JoinIsNotEmpty(fs);
    NarrowIsFramed(j);
    var n := Sum(j + "*");
    TailIsTail(n);
    SplitFinished(fs, Tail(n));
    SentenceEndsWithTail(j);
  }

  lemma JoinIsNotEmpty(fs: seq<string>)
    requires |fs| >= 2
    ensures Join(fs) != ""
  {
    assert |Join(fs)| >= 1;
  }

  lemma SentenceEndsWithTail(j: string)
    requires Sum(j + "*") < 128
    ensures Sentence(j + "*") == j + Tail(Sum(j + "*"))
  {
    hide Sum;
    var x := PrintHex(Sum(j + "*"));
    assert j + "*" + x + "\r\n" == j + ("*" + x + "\r\n");
  }

  // ---------- the round trip ----------

  /** A position on earth and a satellite count of 8 bits. */
  predicate InRange(f: Fix)
  {
    -90.0 <= f.latitude <= 90.0 && -180.0 <= f.longitude <= 180.0 && f.satellites < 256
  }

  /** The positions that survive printing and parsing. */
  predicate Representable(f: Fix)
  {
    && f.latitude >= 0.0 && f.longitude >= 0.0
    && f.altitude >= 0 && f.geoid >= 0.0 && f.satellites <= 99
  }

  /** The parser's result is the position that was printed, up to the last printed decimal. */
  predicate Faithful(o: Option<GpsPosition>, f: Fix, t: TimeStamp)
  {
    && o.Some?
    && Near(o.value.position.latitude, f.latitude)
    && Near(o.value.position.longitude, f.longitude)
    && o.value.position.altitude == f.altitude
    && o.value.satellites == f.satellites
    && -0.05 <= o.value.geoid - f.geoid <= 0.05
    && o.value.timeStamp == t
  }

  lemma DegreesFit(v: real)
    ensures -90.0 <= v <= 90.0 ==> Degrees(v) < Pow10(2)
    ensures -180.0 <= v <= 180.0 ==> Degrees(v) < Pow10(3)
  {
    assert Pow10(2) == 100 && Pow10(3) == 1000;
  }

  lemma SatellitesField(n: nat)
    ensures IsDigits(Printed(n, 2), 2) <==> n <= 99
  {
    assert Pow10(2) == 100;
    if n <= 99 {
      PrintedLength(n, 2);
    } else {
      DigitsLonger(n, 2);
    }
  }

  /** When the expression matches the fields as printed. */
  lemma MatchesIff(f: Fix, time: nat, tail: string)
    requires InRange(f) && Expressible(time, HHMMSS) && IsTail(tail)
    ensures AreGga(PrintedFields(f, time)[14 := tail]) <==>
              && Ticks(f.latitude) / 10000 < 100 && Ticks(f.longitude) / 10000 < 100
              && f.altitude >= 0 && f.geoid >= 0.0 && f.satellites <= 99
  {
    hide Coordinate, Print, Integer, Tenths, Printed, IsDegMin, IsTail, Ticks, IsNumber, Degrees, Pow10;
    var fs := PrintedFields(f, time)[14 := tail];
    DegreesFit(f.latitude);
    DegreesFit(f.longitude);
    CoordinateShape(f.latitude, 2);
    CoordinateShape(f.longitude, 3);
    IntegerField(f.altitude);
    TenthsField(f.geoid);
    SatellitesField(f.satellites);
    TimeIsPlain(time);
    assert IsNumber("1") by { DigitCountAll("1"); NumberIsNumber("1"); }
  }

  lemma NumberIsNumber(t: string)
    requires AllDigits(t) && t != ""
    ensures IsNumber(t)
  {
    DigitCountAll(t);
  }

  /** What the parser makes of the fields as printed, if they match. */
  lemma UnpackPrinted(f: Fix, time: nat, tail: string, day: nat, now: int)
    requires Expressible(time, HHMMSS) && AreGga(PrintedFields(f, time)[14 := tail])
    ensures UnpackFields(PrintedFields(f, time)[14 := tail], day, now) ==
            Some(GpsPosition(
                   Position(Located(Coordinate(f.latitude, 2), f.latitude < 0.0),
                            Located(Coordinate(f.longitude, 3), f.longitude < 0.0),
                            DoubleToInt(Decimal(Integer(f.altitude)))),
                   Completed(time, day, now), Value("1"), f.satellites, Decimal("1"),
                   Decimal(Tenths(f.geoid))))
  {
    hide Coordinate, Print, Integer, Tenths, AreGga, Decimal, Located, Parse, Completed, DoubleToInt;
    ParsePrint(time, HHMMSS, day, now);
  }

  /** What a coordinate comes back as: a negative one is moved away from zero, by twice its floor. */
  function Mirrored(v: real): real
  {
    if v >= 0.0 then v else v + 2.0 * v.Floor as real
  }

  lemma CoordinateIsMirrored(v: real, width: nat)
    requires Ticks(v) / 10000 < 100
    ensures Near(Located(Coordinate(v, width), v < 0.0), Mirrored(v))
  {
    CoordinateValue(v, width);
    hide Coordinate, Decimal, DmToDeg;
    NearestIsNear(Minutes(v) * 10000.0);
    var d, m := Degrees(v), Minutes(v);
    if v >= 0.0 {
      assert m == 60.0 * (v - d as real);
    } else {
      assert m == 60.0 * (d as real - v);
    }
  }

  /** One coordinate comes back if and only if it is not negative. */
  lemma CoordinateComesBack(v: real, width: nat)
    requires Ticks(v) / 10000 < 100
    ensures Near(Located(Coordinate(v, width), v < 0.0), v) <==> v >= 0.0
  {
    hide Coordinate, Decimal, DmToDeg, Ticks, Degrees;
    CoordinateValue(v, width);
    RecomposedIffNonNegative(v);
  }

  /** The parser sees the fields as printed. */
  lemma UnpackIsFields(f: Fix, time: nat, day: nat, now: int)
    requires Expressible(time, HHMMSS)
    ensures var n := Sum(Body(f, time));
            && n < 128 && IsTail(Tail(n))
            && Unpack(Sentence(Body(f, time)), day, now) ==
               UnpackFields(PrintedFields(f, time)[14 := Tail(n)], day, now)
  {
    hide PrintedFields, UnpackFields, Gate, Split, Sentence, Join, IsTail, Tail, Sum, PlainFields,
         IsBody;
    var fs := PrintedFields(f, time);
    assert fs[14] == "" by { LastIsEmpty(f, time); }
    FieldsArePlain(f, time);
    FieldsComeBack(fs);
  }

  /** The round trip, exactly: what GpsProcessor prints is accepted by GpsParser and gives back the
      position, with altitude, satellites and time exact and the coordinates within half of the
      last printed decimal, if and only if neither coordinate, nor altitude, nor geoid separation
      is negative and there are at most 99 satellites. */
  lemma RoundTripIff(f: Fix, time: nat, day: nat, now: int)
    requires InRange(f) && Expressible(time, HHMMSS)
    ensures Faithful(Unpack(Sentence(Body(f, time)), day, now), f, Completed(time, day, now)) <==>
              Representable(f)
  {
    hide Coordinate, Located, Near, Decimal, DoubleToInt, Integer, Tenths, PrintedFields, Ticks,
         AreGga, UnpackFields, Completed, Gate, Split, Sentence, Join, IsTail, Tail, Sum, PlainFields,
         IsNumber, Value, IsBody;
    UnpackIsFields(f, time, day, now);
    var tail := Tail(Sum(Body(f, time)));
    var gs := PrintedFields(f, time)[14 := tail];
    MatchesIff(f, time, tail);
    RecomposedIffNonNegative(f.latitude);
    RecomposedIffNonNegative(f.longitude);
    if AreGga(gs) {
      UnpackPrinted(f, time, tail, day, now);
      CoordinateComesBack(f.latitude, 2);
      CoordinateComesBack(f.longitude, 3);
      IntegerField(f.altitude);
      TenthsField(f.geoid);
    } else {
      UnmatchedIsNone(gs, day, now);
    }
  }

  lemma OneIsOne()
    ensures Value("1") == 1 && Decimal("1") == 1.0
  {
    assert "1"[..0] == "";
    DecimalMeans("1", "");
  }

  /** What becomes of every position that is printed. It is accepted if and only if the minutes of both
      coordinates have two digits, neither altitude nor geoid separation is negative and there are at
      most 99 satellites; then negative coordinates come back mirrored, the others as they were. */
  lemma PrintedComesBack(f: Fix, time: nat, day: nat, now: int)
    requires InRange(f) && Expressible(time, HHMMSS)
    ensures var o := Unpack(Sentence(Body(f, time)), day, now);
            && (o.Some? <==>
                  && Ticks(f.latitude) / 10000 < 100 && Ticks(f.longitude) / 10000 < 100
                  && f.altitude >= 0 && f.geoid >= 0.0 && f.satellites <= 99)
            && (o.Some? ==>
                  && Near(o.value.position.latitude, Mirrored(f.latitude))
                  && Near(o.value.position.longitude, Mirrored(f.longitude))
                  && o.value.position.altitude == f.altitude && o.value.satellites == f.satellites
                  && o.value.fixQuality == 1 && o.value.dilution == 1.0
                  && -0.05 <= o.value.geoid - f.geoid <= 0.05
                  && o.value.timeStamp == Completed(time, day, now))
  {
    hide Coordinate, Located, Near, Decimal, DoubleToInt, Integer, Tenths, PrintedFields, Ticks, Mirrored,
         AreGga, UnpackFields, Completed, IsTail, Tail, Sum, IsNumber, Unpack, Body, Sentence;
    UnpackIsFields(f, time, day, now);
    var tail := Tail(Sum(Body(f, time)));
    var gs := PrintedFields(f, time)[14 := tail];
    MatchesIff(f, time, tail);
    if AreGga(gs) {
      UnpackPrinted(f, time, tail, day, now);
      OneIsOne();
      CoordinateIsMirrored(f.latitude, 2);
      CoordinateIsMirrored(f.longitude, 3);
      IntegerField(f.altitude);
      TenthsField(f.geoid);
    } else {
      UnmatchedIsNone(gs, day, now);
    }
  }

  /** A small s instead of the direction is accepted, and the latitude read as north. */
  lemma SmallSouthIsNorth(f: Fix, time: nat, day: nat, now: int)
    requires InRange(f) && Expressible(time, HHMMSS) && Representable(f)
    ensures var fs := PrintedFields(f, time)[3 := "s"];
            var o := Unpack(Sentence(Join(fs) + "*"), day, now);
            o.Some? && Near(o.value.position.latitude, f.latitude)
  {
    hide Coordinate, Located, Near, Gate, Split, Sentence, Join, Tail, Sum, IsBody, IsNumber, IsTail,
         IsDegMin, Ticks, Decimal, Print, Parse, Integer, Tenths, Printed, PlainFields, DoubleToInt;
    var fs := PrintedFields(f, time)[3 := "s"];
    assert PlainFields(fs) by {
      FieldsArePlain(f, time);
      SmallSIsPlain(PrintedFields(f, time));
    }
    FieldsComeBack(fs);
    var tail := Tail(Sum(Join(fs) + "*"));
    RecomposedIffNonNegative(f.latitude);
    RecomposedIffNonNegative(f.longitude);
    MatchesIff(f, time, tail);
    SmallSMatches(PrintedFields(f, time)[14 := tail]);
    assert fs[14 := tail] == PrintedFields(f, time)[14 := tail][3 := "s"];
    ParsePrint(time, HHMMSS, day, now);
    CoordinateComesBack(f.latitude, 2);
  }

  lemma SmallSIsPlain(fs: seq<string>)
    requires |fs| == 15 && PlainFields(fs)
    ensures PlainFields(fs[3 := "s"])
  {
  }

  lemma SmallSMatches(fs: seq<string>)
    requires AreGga(fs)
    ensures AreGga(fs[3 := "s"])
  {
  }

  lemma HalfDegree()
    ensures Ticks(-0.5) / 10000 < 100 && Located(Coordinate(-0.5, 2), true) == -2.5
  {
    assert (-0.5).Floor == -1 && Degrees(-0.5) == 1;
    assert Minutes(-0.5) == 90.0 && (900000.0).Floor == 900000 && Ticks(-0.5) == 900000;
    assert Pow10(2) == 100;
    CoordinateValue(-0.5, 2);
  }

  /** Half a degree south: the sentence is accepted, and read as two and a half degrees south. */
  lemma HalfDegreeSouth(f: Fix, time: nat, day: nat, now: int)
    requires InRange(f) && Expressible(time, HHMMSS)
    requires f.latitude == -0.5 && Representable(f.(latitude := 0.0))
    ensures var o := Unpack(Sentence(Body(f, time)), day, now);
            o.Some? && o.value.position.latitude == -2.5
  {
    hide Coordinate, Located, Near, Decimal, DoubleToInt, Integer, Tenths, Ticks, AreGga, UnpackFields,
         Completed, IsTail, Tail, Sum, Unpack, Body, Sentence;
    UnpackIsFields(f, time, day, now);
    HalfDegree();
    RecomposedIffNonNegative(f.longitude);
    var tail := Tail(Sum(Body(f, time)));
    MatchesIff(f, time, tail);
    UnpackPrinted(f, time, tail, day, now);
  }

  lemma LastIsEmpty(f: Fix, time: nat)
    ensures PrintedFields(f, time)[14] == ""
  {
  }

  lemma UnmatchedIsNone(fs: seq<string>, day: nat, now: int)
    requires !AreGga(fs)
    ensures UnpackFields(fs, day, now) == None
  {
  }

  // ---------- the processor object ----------

  class GpsProcessor {
    const out: Processor
    var directionSN: char
    var directionEW: char
    var degLatitude: nat
    var degLongitude: nat
    var minLatitude: real
    var minLongitude: real

    constructor (out: Processor)
      ensures this.out == out
    {
      this.out := out;
      directionSN, directionEW := 'x', 'x';
      degLatitude, degLongitude, minLatitude, minLongitude := 0, 0, 0.0, 0.0;
    }

    method EvalPosition(latitude: real, longitude: real)
      modifies this
      ensures directionSN == (if latitude < 0.0 then 'S' else 'N')
      ensures directionEW == (if longitude < 0.0 then 'W' else 'E')
      ensures degLatitude == Degrees(latitude) && minLatitude == Minutes(latitude)
      ensures degLongitude == Degrees(longitude) && minLongitude == Minutes(longitude)
    {
      directionSN := if latitude < 0.0 then 'S' else 'N';
      directionEW := if longitude < 0.0 then 'W' else 'E';
      degLatitude := Degrees(latitude);
      minLatitude := Abs(60.0 * (latitude - degLatitude as real));
      degLongitude := Degrees(longitude);
      minLongitude := Abs(60.0 * (longitude - degLongitude as real));
    }

    /** %0<width>.0lf%07.4lf */
    static method FormatCoordinate(deg: nat, min: real, width: nat) returns (t: string)
      requires min >= 0.0
      ensures forall v: real :: deg == Degrees(v) && min == Minutes(v) ==> t == Coordinate(v, width)
    {
      NearestIsNear(min * 10000.0);
      var q: nat := Nearest(min * 10000.0);
      t := Printed(deg, width) + Printed(q / 10000, 2) + "." + Printed(q % 10000, 4);
    }

    /** appendGPGGA at the time of day `time`, after evalPosition; the sentence fits the buffer. */
    method AppendGga(f: Fix, time: nat)
      requires out.Valid() && Expressible(time, HHMMSS) && |Body(f, time)| < BUFFER_SIZE
      modifies this, out`processed, out.buffer
      ensures out.processed == old(out.processed) + Sentence(Body(f, time))
    {
      EvalPosition(f.latitude, f.longitude);
      var lat := FormatCoordinate(degLatitude, minLatitude, 2);
      var lon := FormatCoordinate(degLongitude, minLongitude, 3);
      var fields := ["$GPGGA", TimeStamps.Print(time, HHMMSS), lat, [directionSN], lon, [directionEW],
                     "1", Printed(f.satellites, 2), "1", Integer(f.altitude), "M", Tenths(f.geoid),
                     "M", "", ""];
      hide Coordinate, TimeStamps.Print, Integer, Tenths, Printed, Join, Sentence, IsBody, Gate, Stored,
           CString, Sum, PrintHex;
      assert fields == PrintedFields(f, time);
      assert IsBody(Body(f, time)) by {
        FieldsArePlain(f, time);
        FieldsComeBack(PrintedFields(f, time));
      }
      out.AppendSentence(Join(fields) + "*");
    }
  }
}
