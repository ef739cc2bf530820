/** Decimal text: what the C library's printf conversions and std::stoi do with it. */
module Text {
  import opened Options

  predicate IsDigit(c: char)
  {
    '0' <= c <= '9'
  }

  predicate AllDigits(s: string)
  {
    forall i :: 0 <= i < |s| ==> IsDigit(s[i])
  }

  function DigitValue(c: char): (d: nat)
    requires IsDigit(c)
    ensures d < 10
  {
    (c - '0') as int
  }

  function DigitChar(d: nat): (c: char)
    requires d < 10
    ensures IsDigit(c) && DigitValue(c) == d
  {
    '0' + d as char
  }

  /** The number that a digit string denotes. */
  function Value(s: string): nat
    requires AllDigits(s)
  {
    if s == [] then 0 else 10 * Value(s[..|s| - 1]) + DigitValue(s[|s| - 1])
  }

  /** %d of a non-negative number. */
  function Digits(n: nat): (s: string)
    ensures AllDigits(s) && Value(s) == n && |s| > 0
  {
    if n < 10 then [DigitChar(n)] else Digits(n / 10) + [DigitChar(n % 10)]
  }

  /** A number below 10^k has at most k digits. */
  lemma {:induction false} DigitsLength(n: nat, k: nat)
    requires k > 0 && n < Pow10(k)
    ensures |Digits(n)| <= k
  {
    if n >= 10 {
      DigitsLength(n / 10, k - 1);
    }
  }

  /** ... and a number of at least 10^k has more than k digits. */
  lemma {:induction false} DigitsLonger(n: nat, k: nat)
    requires n >= Pow10(k)
    ensures |Digits(n)| > k
  {
    if k > 0 {
      assert n >= 10 * Pow10(k - 1) && Pow10(k - 1) >= 1;
      DigitsLonger(n / 10, k - 1);
    }
  }

  function Pow10(k: nat): (p: nat)
    ensures p >= 1
  {
    if k == 0 then 1 else 10 * Pow10(k - 1)
  }

  lemma {:induction false} ValueBound(d: string)
    requires AllDigits(d)
    ensures Value(d) < Pow10(|d|)
  {
    if d != [] {
      ValueBound(d[..|d| - 1]);
    }
  }

  /** Zero padding in front, as in %0<width>d. */
  function Pad(s: string, width: nat): (r: string)
    requires AllDigits(s)
    ensures AllDigits(r) && Value(r) == Value(s)
    ensures |r| == if |s| < width then width else |s|
    decreases width - |s|
  {
    if |s| >= width then s
    else PadOne(s); Pad(['0'] + s, width)
  }

  lemma {:induction false} PadOne(s: string)
    requires AllDigits(s)
    ensures AllDigits(['0'] + s) && Value(['0'] + s) == Value(s)
  {
    var t := ['0'] + s;
    if s == [] {
      assert t[..|t| - 1] == [];
    } else {
      PadOne(s[..|s| - 1]);
      assert t[..|t| - 1] == ['0'] + s[..|s| - 1];
    }
  }

  function Printed(n: nat, width: nat): (r: string)
    ensures AllDigits(r) && Value(r) == n && |r| > 0
  {
    Pad(Digits(n), width)
  }

  lemma PrintedLength(n: nat, width: nat)
    requires width > 0 && n < Pow10(width)
    ensures |Printed(n, width)| == width
  {
    DigitsLength(n, width);
  }

  // ---------- std::stoi ----------

  predicate IsSpace(c: char)
  {
    c == ' ' || 9 as char <= c <= 13 as char
  }

  /** The length of the longest digit prefix. */
  function DigitCount(s: string): (n: nat)
    ensures n <= |s| && AllDigits(s[..n]) && (n < |s| ==> !IsDigit(s[n]))
    ensures forall j :: 0 <= j < n ==> IsDigit(s[j])
  {
    if s == [] || !IsDigit(s[0]) then 0 else 1 + DigitCount(s[1..])
  }

  lemma {:induction false} DigitCountAll(s: string)
    requires AllDigits(s)
    ensures DigitCount(s) == |s|
  {
    if s != [] {
      DigitCountAll(s[1..]);
    }
  }

  lemma DigitCountIs(s: string, n: nat)
    requires n <= |s| && (n < |s| ==> !IsDigit(s[n]))
    requires forall j :: 0 <= j < n ==> IsDigit(s[j])
    ensures DigitCount(s) == n
  {
    var k := DigitCount(s);
    assert k < |s| ==> !IsDigit(s[k]);
  }

  lemma ValueOne(a: string, c: char)
    requires AllDigits(a) && IsDigit(c)
    ensures AllDigits(a + [c]) && Value(a + [c]) == 10 * Value(a) + DigitValue(c)
  {
    assert (a + [c])[..|a|] == a;
  }

  /** Appending two digits. */
  lemma ValueTwo(a: string, b: string)
    requires AllDigits(a) && AllDigits(b) && |b| == 2
    ensures AllDigits(a + b) && Value(a + b) == 100 * Value(a) + Value(b)
  {
    ValueOne(a, b[0]);
    ValueOne(a + [b[0]], b[1]);
    ValueOne([], b[0]);
    ValueOne([] + [b[0]], b[1]);
    assert a + b == a + [b[0]] + [b[1]] && b == [] + [b[0]] + [b[1]];
  }

  /** The number in front of a text, if it starts with a digit. */
  function Leading(s: string): Option<int>
  {
    var n := DigitCount(s);
    if n == 0 then None else Some(Value(s[..n]))
  }

  /** std::stoi: white space, a sign, then digits; None is std::invalid_argument. Texts here
      are at most three characters long, so the result is never out of range. */
  function Stoi(s: string): Option<int>
  {
    if s == [] then None
    else if IsSpace(s[0]) then Stoi(s[1..])
    else if s[0] == '+' then Leading(s[1..])
    else if s[0] == '-' then
      match Leading(s[1..])
      case None => None
      case Some(v) => Some(-v)
    else Leading(s)
  }

  lemma StoiOfDigits(s: string)
    requires AllDigits(s) && s != []
    ensures Stoi(s) == Some(Value(s))
  {
    assert IsDigit(s[0]);
    DigitCountAll(s);
    assert s[..|s|] == s;
  }

  predicate AllSpaces(s: string)
  {
    forall i :: 0 <= i < |s| ==> IsSpace(s[i])
  }

  /** `s` is white space, a sign or none, digits, and a rest that does not go on with a digit. */
  predicate IsNumeral(s: string, ws: string, sign: string, d: string, rest: string)
  {
    && s == ws + sign + d + rest
    && AllSpaces(ws) && (sign == "" || sign == "+" || sign == "-")
    && AllDigits(d) && d != "" && (rest == "" || !IsDigit(rest[0]))
  }

  lemma LeadingOf(d: string, rest: string)
    requires AllDigits(d) && (rest == "" || !IsDigit(rest[0]))
    ensures DigitCount(d + rest) == |d| && (d + rest)[..|d|] == d
  {
    DigitCountIs(d + rest, |d|);
  }

  /** A numeral is read as the number that it denotes ... */
  lemma {:induction false} StoiReads(s: string, ws: string, sign: string, d: string, rest: string)
    requires IsNumeral(s, ws, sign, d, rest)
    ensures Stoi(s) == Some(if sign == "-" then 0 - Value(d) else Value(d))
    decreases |ws|
  {
    hide Value, DigitCount;
    if ws != "" {
      assert IsSpace(s[0]);
      assert s[1..] == ws[1..] + sign + d + rest;
      StoiReads(s[1..], ws[1..], sign, d, rest);
    } else {
      LeadingOf(d, rest);
      if sign == "" {
        assert s == d + rest && IsDigit(s[0]);
      } else {
        assert s[0] == sign[0] && s[1..] == d + rest;
      }
    }
  }

  /** The digits in front of a text and the rest, if there are any digits. */
  lemma LeadingSplits(t: string)
    requires Leading(t).Some?
    ensures var k := DigitCount(t); IsNumeral(t, "", "", t[..k], t[k..])
  {
    var k := DigitCount(t);
    assert t == "" + "" + t[..k] + t[k..];
  }

  lemma PrependSign(s: string, sign: char, d: string, rest: string)
    requires s != "" && s[0] == sign && (sign == '+' || sign == '-')
    requires IsNumeral(s[1..], "", "", d, rest)
    ensures IsNumeral(s, "", [sign], d, rest)
  {
    assert s == [sign] + s[1..] == "" + [sign] + d + rest;
  }

  lemma PrependSpace(s: string, ws: string, sign: string, d: string, rest: string)
    requires s != "" && IsSpace(s[0]) && IsNumeral(s[1..], ws, sign, d, rest)
    ensures IsNumeral(s, [s[0]] + ws, sign, d, rest)
  {
    assert s == [s[0]] + s[1..] == [s[0]] + ws + sign + d + rest;
  }

  /** ... and nothing else is read. */
  lemma {:induction false} StoiReadsOnly(s: string)
    returns (ws: string, sign: string, d: string, rest: string)
    requires Stoi(s).Some?
    ensures IsNumeral(s, ws, sign, d, rest)
  {
    hide IsNumeral, Leading;
    if IsSpace(s[0]) {
      ws, sign, d, rest := StoiReadsOnly(s[1..]);
      PrependSpace(s, ws, sign, d, rest);
      ws := [s[0]] + ws;
    } else {
      var signed := s[0] == '+' || s[0] == '-';
      var t := if signed then s[1..] else s;
      LeadingSplits(t);
      ws, sign, d, rest := "", "", t[..DigitCount(t)], t[DigitCount(t)..];
      if signed {
        PrependSign(s, s[0], d, rest);
        sign := [s[0]];
      }
    }
  }

  /** std::string::substr; None is std::out_of_range. */
  function Substr(s: string, pos: nat, n: nat): Option<string>
  {
    if pos > |s| then None
    else Some(if pos + n <= |s| then s[pos..pos + n] else s[pos..])
  }
}
