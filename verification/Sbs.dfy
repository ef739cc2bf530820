/**
 The SBS parser (src/feed/parser/SbsParser.cpp): a loop that looks for commas and converts the
 fields in between, against a plain split of the text.

 The conversions of single fields are parameters: std::stod, and the time stamp constructor with
 the clock at that moment. None is one of their exceptions.
 */
module SbsParser {
  import opened Options
  import opened Commas
  import opened Numbers
  import opened TimeStamps
  import opened Aircrafts

  datatype Converters = Converters(
    time: string -> Option<TimeStamp>,
    stod: string -> Option<real>)

  const SBS_FIELD_ID := 4
  const SBS_FIELD_TIME := 7
  const SBS_FIELD_ALT := 11
  const SBS_FIELD_LAT := 14
  const SBS_FIELD_LON := 15

  // ---------- what a sentence says ----------

  /** The fields of a sentence, of which the first one has number 2. */
  function Fields(s: string): seq<string>
  {
    Split(if |s| >= 6 then s[6..] else "")
  }

  function Number(fs: seq<string>, n: nat): string
    requires 2 <= n < |fs| + 2
  {
    fs[n - 2]
  }

  function Altitude(feet: real): int
  {
    DoubleToInt(feet * FEET_2_M)
  }

  /** The aircraft that a sentence reports, if it is one of type 3 with fields 2 to 15, each
      ended by a comma, if the four numbers are well-formed and the altitude is in bounds. */
  function Reported(s: string, a: Aircraft, cv: Converters, maxHeight: int): Option<Aircraft>
  {
    var fs := Fields(s);
    if |s| <= 4 || s[4] != '3' || |fs| < 15 then None
    else
      var time := cv.time(Number(fs, SBS_FIELD_TIME));
      var alt, lat, lon := cv.stod(Number(fs, SBS_FIELD_ALT)), cv.stod(Number(fs, SBS_FIELD_LAT)),
                           cv.stod(Number(fs, SBS_FIELD_LON));
      if time == None || alt == None || lat == None || lon == None then None
      else if Altitude(alt.value) > maxHeight then None
      else Some(a.(id := Number(fs, SBS_FIELD_ID),
                   info := a.info.(timeStamp := time.value,
                                   position := Position(lat.value, lon.value, Altitude(alt.value)),
                                   targetType := Transponder,
                                   aircraftType := PoweredAircraft,
                                   idType := Icao)))
  }

  /** Feet become whole metres. */
  lemma AltitudeInMetres(feet: real)
    ensures -0.5 <= Altitude(feet) as real - 0.3048 * feet <= 0.5
    ensures Altitude(10000.0) == 3048
  {
    NearestAwayFromZero(feet * FEET_2_M, 0);
  }

  /** What a text of a head of six characters and fields reports. The head counts only for its fifth
      character; of the fields, which follow two that are in the head, the third is the id, the
      sixth the time, the tenth the altitude in feet and the next but two the latitude and the
      longitude. */
  lemma ReportedMeans(s: string, head: string, fs: seq<string>, a: Aircraft, cv: Converters,
                      maxHeight: int)
    requires |head| == 6 && fs != [] && CommaFree(fs) && s == head + Join(fs)
    ensures Reported(s, a, cv, maxHeight).Some? <==>
              && head[4] == '3' && |fs| >= 15
              && cv.time(fs[5]).Some? && cv.stod(fs[9]).Some?
              && cv.stod(fs[12]).Some? && cv.stod(fs[13]).Some?
              && Altitude(cv.stod(fs[9]).value) <= maxHeight
    ensures Reported(s, a, cv, maxHeight).Some? ==>
              var r := Reported(s, a, cv, maxHeight).value;
              && r.id == fs[2] && Some(r.info.timeStamp) == cv.time(fs[5])
              && r.info.position.altitude == Altitude(cv.stod(fs[9]).value)
              && Some(r.info.position.latitude) == cv.stod(fs[12])
              && Some(r.info.position.longitude) == cv.stod(fs[13])
              && r.info.targetType == Transponder && r.info.aircraftType == PoweredAircraft
              && r.info.idType == Icao
              && r.info.movement == a.info.movement && r.info.fullInfo == a.info.fullInfo
              && r.priority == a.priority && r.age == a.age && r.serialized == a.serialized
  {
    assert s[6..] == Join(fs) && s[4] == head[4];
    SplitJoin(fs);
  }

  // ---------- the loop ----------

  /** What the first `i - 2` fields have set. */
  ghost predicate Parsed(fs: seq<string>, i: nat, p: Position, a: Aircraft, a0: Aircraft,
                         cv: Converters)
    requires 2 <= i <= |fs| + 2
  {
    && a == a0.(id := a.id, info := a0.info.(timeStamp := a.info.timeStamp))
    && (i > SBS_FIELD_ID ==> a.id == Number(fs, SBS_FIELD_ID))
    && (i > SBS_FIELD_TIME ==>
          cv.time(Number(fs, SBS_FIELD_TIME)) == Some(a.info.timeStamp))
    && (i > SBS_FIELD_ALT ==>
          var alt := cv.stod(Number(fs, SBS_FIELD_ALT)); alt.Some? && p.altitude == Altitude(alt.value))
    && (i > SBS_FIELD_LAT ==> cv.stod(Number(fs, SBS_FIELD_LAT)) == Some(p.latitude))
    && (i > SBS_FIELD_LON ==> cv.stod(Number(fs, SBS_FIELD_LON)) == Some(p.longitude))
  }

  /** A field that does not parse. */
  predicate Malformed(n: nat, field: string, cv: Converters)
  {
    || (n == SBS_FIELD_TIME && cv.time(field) == None)
    || (n in {SBS_FIELD_ALT, SBS_FIELD_LAT, SBS_FIELD_LON} && cv.stod(field) == None)
  }

  /** What a well-formed field sets. */
  function SetField(n: nat, field: string, p: Position, a: Aircraft, cv: Converters): (Position, Aircraft)
    requires !Malformed(n, field, cv)
  {
    if n == SBS_FIELD_ID then (p, a.(id := field))
    else if n == SBS_FIELD_TIME then (p, a.(info := a.info.(timeStamp := cv.time(field).value)))
    else if n == SBS_FIELD_ALT then (p.(altitude := Altitude(cv.stod(field).value)), a)
    else if n == SBS_FIELD_LAT then (p.(latitude := cv.stod(field).value), a)
    else if n == SBS_FIELD_LON then (p.(longitude := cv.stod(field).value), a)
    else (p, a)
  }

  lemma ParsedNext(fs: seq<string>, i: nat, p: Position, a: Aircraft, a0: Aircraft, cv: Converters)
    requires 2 <= i < |fs| + 2 && Parsed(fs, i, p, a, a0, cv) && !Malformed(i, Number(fs, i), cv)
    ensures var (p', a') := SetField(i, Number(fs, i), p, a, cv); Parsed(fs, i + 1, p', a', a0, cv)
  {
  }

  lemma MalformedRejected(s: string, i: nat, a: Aircraft, cv: Converters, maxHeight: int)
    requires 2 <= i < 16 && i < |Fields(s)| + 2 && Malformed(i, Number(Fields(s), i), cv)
    ensures Reported(s, a, cv, maxHeight) == None
  {
  }

  lemma Rejected(s: string, a: Aircraft, cv: Converters, maxHeight: int)
    ensures |s| <= 4 || s[4] != '3' || |Fields(s)| < 15 ==> Reported(s, a, cv, maxHeight) == None
    ensures |s| < 6 ==> Reported(s, a, cv, maxHeight) == None
  {
    NoField(s);
  }

  /** All fields read: the result is what the sentence reports. */
  lemma AllParsed(s: string, p: Position, a: Aircraft, a0: Aircraft, cv: Converters, maxHeight: int)
    requires |s| > 4 && s[4] == '3' && |Fields(s)| >= 15 && Parsed(Fields(s), 16, p, a, a0, cv)
    ensures Reported(s, a0, cv, maxHeight) ==
            if p.altitude > maxHeight then None
            else Some(a.(info := a.info.(position := p, targetType := Transponder,
                                         aircraftType := PoweredAircraft, idType := Icao)))
  {
  }

  method ParseField(n: nat, field: string, p: Position, a: Aircraft, cv: Converters)
    returns (ok: bool, p': Position, a': Aircraft)
    ensures ok <==> !Malformed(n, field, cv)
    ensures ok ==> (p', a') == SetField(n, field, p, a, cv)
  {
    ok, p', a' := true, p, a;
    if n == SBS_FIELD_ID {
      a' := a.(id := field);
    } else if n == SBS_FIELD_TIME {
      var t := cv.time(field);
      if t == None { return false, p, a; }
      a' := a.(info := a.info.(timeStamp := t.value));
    } else if n in {SBS_FIELD_ALT, SBS_FIELD_LAT, SBS_FIELD_LON} {
      var v := cv.stod(field);
      if v == None { return false, p, a; }
      if n == SBS_FIELD_ALT {
        p' := p.(altitude := Altitude(v.value));
      } else if n == SBS_FIELD_LAT {
        p' := p.(latitude := v.value);
      } else {
        p' := p.(longitude := v.value);
      }
    }
  }

  /** `p0` is the position before any of its members is set. */
  method Unpack(s: string, a: Aircraft, p0: Position, cv: Converters, maxHeight: int)
    returns (ok: bool, a': Aircraft)
    ensures ok <==> Reported(s, a, cv, maxHeight).Some?
    ensures ok ==> a' == Reported(s, a, cv, maxHeight).value
  {
    hide Reported, Split, SetField, Malformed;
    a' := a;
    NoField(s);
    Rejected(s, a, cv, maxHeight);
    if |s| < 6 || NextComma(s, 6) == |s| || s[4] != '3' {
      return false, a;
    }
    ghost var fs := Fields(s);
    var p, i, pos := 6, 2, p0;
    var delim := NextComma(s, p);
    while delim < |s| && i < 16
      invariant 6 <= p <= delim <= |s| && delim == NextComma(s, p)
      invariant 2 <= i <= 16 && i < |fs| + 2
      invariant AtField(s, fs, p, i)
      invariant Parsed(fs, i, pos, a', a, cv)
    {
      NextField(s, fs, p, i);
      var good, pos', a'' := ParseField(i, s[p..delim], pos, a', cv);
      if !good {
        MalformedRejected(s, i, a, cv, maxHeight);
        return false, a';
      }
      ParsedNext(fs, i, pos, a', a, cv);
      i, pos, a' := i + 1, pos', a'';
      p := delim + 1;
      delim := NextComma(s, p);
    }
    if i < 16 {
      LastField(s, fs, p, i);
    } else {
      AllParsed(s, pos, a', a, cv, maxHeight);
    }
    a' := a'.(info := a'.info.(position := pos, targetType := Transponder,
                               aircraftType := PoweredAircraft, idType := Icao));
    ok := i == 16 && pos.altitude <= maxHeight;
  }

  /** The text from `p` on starts with field number `i`. */
  ghost predicate AtField(s: string, fs: seq<string>, p: nat, i: nat)
  {
    p <= |s| && 2 <= i < |fs| + 2 && Split(s[p..]) == fs[i - 2..]
  }

  lemma NextField(s: string, fs: seq<string>, p: nat, i: nat)
    requires AtField(s, fs, p, i) && NextComma(s, p) < |s|
    ensures s[p..NextComma(s, p)] == Number(fs, i)
    ensures AtField(s, fs, NextComma(s, p) + 1, i + 1)
  {
    SplitAt(s, p);
    assert fs[i - 2..][0] == fs[i - 2] && fs[i - 2..][1..] == fs[i - 1..];
  }

  lemma LastField(s: string, fs: seq<string>, p: nat, i: nat)
    requires AtField(s, fs, p, i) && NextComma(s, p) == |s|
    ensures |fs| == i - 1
  {
    SplitAt(s, p);
  }

  lemma NoField(s: string)
    ensures |s| < 6 || NextComma(s, 6) == |s| ==> |Fields(s)| == 1
  {
    if |s| < 6 {
      NextCommaIs("", 0, 0);
    } else {
      SplitAt(s, 6);
    }
  }

  /** The next field of a text is what precedes its next comma. */
  lemma SplitAt(s: string, p: nat)
    requires p <= |s|
    ensures var d := NextComma(s, p);
            Split(s[p..]) == if d == |s| then [s[p..]] else [s[p..d]] + Split(s[d + 1..])
  {
    var d := NextComma(s, p);
    NextCommaIs(s[p..], 0, d - p);
    if d < |s| {
      assert s[p..][..d - p] == s[p..d];
      assert s[p..][d - p + 1..] == s[d + 1..];
    }
  }
}
