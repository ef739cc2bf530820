/**
 NMEA 0183 sentences: the XOR checksum (include/util/math.hpp), how a processor finishes a
 sentence (include/data/processor/Processor.hpp) and the gate at which a parser checks it
 (src/feed/parser/GpsParser.cpp, src/feed/parser/WindParser.cpp).

 A char is a byte. It is taken to be signed, as on x86, and widened to 32 bits before it is
 combined, so the checksum is the 8-bit XOR, widened with its sign.
 */
module Nmea {
  import opened Options
  import opened Text

  const NUL := 0 as char
  const BUFFER_SIZE := 4096

  function Byte(c: char): (b: nat)
    ensures b < 256
  {
    c as int % 256
  }

  function Bytes(s: string): seq<nat>
  {
    seq(|s|, i requires 0 <= i < |s| => Byte(s[i]))
  }

  /** A byte as a signed 32-bit number. */
  function Signed(b: nat): int
  {
    if b < 128 then b else b - 256
  }

  // ---------- exclusive or ----------

  function Pow2(k: nat): (p: nat)
    ensures p >= 1
  {
    if k == 0 then 1 else 2 * Pow2(k - 1)
  }

  /** Bitwise exclusive or of the lowest `k` bits. */
  function Xor(a: nat, b: nat, k: nat): (r: nat)
    ensures r < Pow2(k)
  {
    if k == 0 then 0 else 2 * Xor(a / 2, b / 2, k - 1) + (a % 2 + b % 2) % 2
  }

  lemma {:induction false} XorZero(b: nat, k: nat)
    requires b < Pow2(k)
    ensures Xor(0, b, k) == b
  {
    if k > 0 {
      XorZero(b / 2, k - 1);
    }
  }

  lemma XorNext(a: nat, b: nat, k: nat, r: nat)
    requires k > 0 && Xor(a / 2, b / 2, k - 1) == r
    ensures Xor(a, b, k) == 2 * r + (a % 2 + b % 2) % 2
  {
  }

  /** Numbers are equal if their halves and their last bits are, also the bits combined with `c`. */
  lemma HalvesDecide(a: nat, b: nat, c: nat)
    ensures a == b <==> a / 2 == b / 2 && a % 2 == b % 2
    ensures (a % 2 + c % 2) % 2 == (b % 2 + c % 2) % 2 <==> a % 2 == b % 2
  {
  }

  lemma {:induction false} XorCancels(a: nat, b: nat, c: nat, k: nat)
    requires a < Pow2(k) && b < Pow2(k)
    ensures Xor(a, c, k) == Xor(b, c, k) <==> a == b
  {
    if k > 0 {
      hide Xor;
      var p, q := Xor(a / 2, c / 2, k - 1), Xor(b / 2, c / 2, k - 1);
      XorCancels(a / 2, b / 2, c / 2, k - 1);
      XorNext(a, c, k, p);
      XorNext(b, c, k, q);
      HalvesDecide(a, b, c);
    }
  }

  lemma {:induction false} XorCommutes(a: nat, b: nat, k: nat)
    ensures Xor(a, b, k) == Xor(b, a, k)
  {
    if k > 0 {
      XorCommutes(a / 2, b / 2, k - 1);
    }
  }

  lemma {:induction false} XorTopBit(a: nat, b: nat, k: nat)
    requires a < Pow2(k + 1) && b < Pow2(k + 1)
    ensures Xor(a, b, k + 1) < Pow2(k) <==> (a < Pow2(k) <==> b < Pow2(k))
  {
    if k > 0 {
      XorTopBit(a / 2, b / 2, k - 1);
    }
  }

  /** The bit of value 2^i. */
  function Bit(n: nat, i: nat): nat
  {
    if i == 0 then n % 2 else Bit(n / 2, i - 1)
  }

  /** Bit by bit, the exclusive or has the bits in which its arguments differ. */
  lemma {:induction false} XorBits(a: nat, b: nat, k: nat, i: nat)
    requires i < k
    ensures Bit(Xor(a, b, k), i) == if Bit(a, i) == Bit(b, i) then 0 else 1
    decreases k
  {
    if i > 0 {
      XorBits(a / 2, b / 2, k - 1, i - 1);
    }
  }

  lemma EightBits()
    ensures Pow2(7) == 128 && Pow2(8) == 256
  {
    assert Pow2(4) == 16;
  }

  /** The exclusive or of all bytes. */
  function XorAll(b: seq<nat>): nat
  {
    if b == [] then 0 else Xor(XorAll(b[..|b| - 1]), b[|b| - 1], 8)
  }

  /** The number of bytes that have bit `i`. */
  function Ones(b: seq<nat>, i: nat): nat
  {
    if b == [] then 0 else Ones(b[..|b| - 1], i) + Bit(b[|b| - 1], i)
  }

  /** Each bit of the exclusive or says whether an odd number of bytes have it. */
  lemma {:induction false} XorIsParity(b: seq<nat>, i: nat)
    requires i < 8
    ensures Bit(XorAll(b), i) == Ones(b, i) % 2
  {
    if b == [] {
      BitOfZero(i);
    } else {
      hide Xor, Bit;
      XorIsParity(b[..|b| - 1], i);
      XorBits(XorAll(b[..|b| - 1]), b[|b| - 1], 8, i);
      BitIsBit(b[|b| - 1], i);
    }
  }

  lemma {:induction false} BitOfZero(i: nat)
    ensures Bit(0, i) == 0
  {
    if i > 0 {
      BitOfZero(i - 1);
    }
  }

  lemma {:induction false} BitIsBit(n: nat, i: nat)
    ensures Bit(n, i) < 2
  {
    if i > 0 {
      BitIsBit(n / 2, i - 1);
    }
  }

  lemma XorAllIsByte(b: seq<nat>)
    ensures XorAll(b) < 256
  {
    EightBits();
  }

  lemma SumNext(s: string, c: char)
    ensures XorAll(Bytes(s + [c])) == Xor(XorAll(Bytes(s)), Byte(c), 8)
  {
    assert Bytes(s + [c]) == Bytes(s) + [Byte(c)];
    XorAllLast(Bytes(s + [c]), Bytes(s), Byte(c));
  }

  lemma XorAllLast(b: seq<nat>, p: seq<nat>, l: nat)
    requires b == p + [l]
    ensures XorAll(b) == Xor(XorAll(p), l, 8)
  {
    assert b[..|b| - 1] == p;
  }

  predicate Ends(c: char)
  {
    c == '*' || c == NUL
  }

  /** Where the payload ends: at the first `*` or NUL from position `i` on. */
  function PayloadEnd(s: string, i: nat): (e: nat)
    requires i <= |s|
    ensures i <= e <= |s|
    ensures e < |s| ==> Ends(s[e])
    ensures forall j :: i <= j < e ==> !Ends(s[j])
    decreases |s| - i
  {
    if i == |s| || Ends(s[i]) then i else PayloadEnd(s, i + 1)
  }

  /** The characters that the checksum covers: the first one, `$`, is not among them. */
  function Payload(s: string): string
  {
    if s == [] then "" else s[1..PayloadEnd(s, 1)]
  }

  function Sum(s: string): (b: nat)
    ensures b < 256
  {
    XorAllIsByte(Bytes(Payload(s)));
    XorAll(Bytes(Payload(s)))
  }

  method Checksum(sentence: string) returns (csum: int)
    ensures csum == Signed(Sum(sentence))
  {
    var sum := 0;
    var i := 1;
    while i < |sentence| && !Ends(sentence[i])
      invariant 1 <= i && (sentence == [] ==> i == 1)
      invariant sentence != [] ==> i <= PayloadEnd(sentence, 1) && sum == XorAll(Bytes(sentence[1..i]))
      invariant sentence == [] ==> sum == 0
    {
      assert sentence[1..i + 1] == sentence[1..i] + [sentence[i]];
      SumNext(sentence[1..i], sentence[i]);
      sum := Xor(sum, Byte(sentence[i]), 8);
      i := i + 1;
    }
    csum := Signed(sum);
  }

  // ---------- hexadecimal ----------

  function HexChar(n: nat): char
    requires n < 16
  {
    if n < 10 then '0' + n as char else 'a' + (n - 10) as char
  }

  predicate IsHex(c: char)
  {
    '0' <= c <= '9' || 'a' <= c <= 'f' || 'A' <= c <= 'F'
  }

  function HexValue(c: char): (v: nat)
    requires IsHex(c)
    ensures v < 16
  {
    if c <= '9' then (c - '0') as int
    else if c <= 'F' then (c - 'A') as int + 10
    else (c - 'a') as int + 10
  }

  /** Two digits. */
  function Hex(n: nat): string
    requires n < 256
  {
    [HexChar(n / 16), HexChar(n % 16)]
  }

  /** %02x of a checksum: a negative one has eight digits. */
  function PrintHex(b: nat): string
    requires b < 256
  {
    if b < 128 then Hex(b) else "ffffff" + Hex(b)
  }

  /** std::stoi with base 16, for at most two characters (a 0x prefix takes three). */
  function StoiHex(s: string): Option<int>
  {
    if s == [] then None
    else if IsSpace(s[0]) then StoiHex(s[1..])
    else if s[0] == '+' then HexLeading(s[1..])
    else if s[0] == '-' then
      match HexLeading(s[1..])
      case None => None
      case Some(v) => Some(-v)
    else HexLeading(s)
  }

  function HexLeading(s: string): Option<int>
  {
    if s == [] || !IsHex(s[0]) then None
    else if |s| > 1 && IsHex(s[1]) then Some(16 * HexValue(s[0]) + HexValue(s[1]))
    else Some(HexValue(s[0]))
  }

  lemma HexRoundTrip(n: nat)
    requires n < 256
    ensures StoiHex(Hex(n)) == Some(n)
  {
    assert HexValue(HexChar(n / 16)) == n / 16 && HexValue(HexChar(n % 16)) == n % 16;
  }

  const LOWER := "0123456789abcdef"
  const UPPER := "0123456789ABCDEF"

  /** Small and capital letters are the same digits, and there are no others. */
  lemma HexDigits(d: nat)
    requires d < 16
    ensures HexChar(d) == LOWER[d]
    ensures IsHex(LOWER[d]) && HexValue(LOWER[d]) == d
    ensures IsHex(UPPER[d]) && HexValue(UPPER[d]) == d
  {
    assert d in {0, 1, 2, 3, 4, 5, 6, 7, 8, 9, 10, 11, 12, 13, 14, 15};
  }

  lemma HexIsDigit(c: char)
    requires IsHex(c)
    ensures c == LOWER[HexValue(c)] || c == UPPER[HexValue(c)]
  {
    HexDigits(HexValue(c));
    assert c == HexChar(HexValue(c)) || 'A' <= c <= 'F';
  }

  /** What two characters are read as: two digits, one digit and a rest, or a digit behind a sign or
      white space. */
  lemma StoiHexMeans(a: char, b: char)
    ensures IsHex(a) && IsHex(b) ==> StoiHex([a, b]) == Some(16 * HexValue(a) + HexValue(b))
    ensures IsHex(a) && !IsHex(b) ==> StoiHex([a, b]) == Some(HexValue(a))
    ensures (IsSpace(a) || a == '+') && IsHex(b) ==> StoiHex([a, b]) == Some(HexValue(b))
    ensures a == '-' && IsHex(b) ==> StoiHex([a, b]) == Some(0 - HexValue(b))
    ensures StoiHex([a, b]).Some? ==> IsHex(a) || (IsHex(b) && (IsSpace(a) || a == '+' || a == '-'))
  {
    assert [a, b][1..] == [b] && [b][1..] == [];
    assert StoiHex([b]) == if IsHex(b) then Some(HexValue(b)) else None;
  }

  /** What is printed is the checksum as an unsigned 32-bit number, in small letters. */
  lemma PrintHexMeans(b: nat)
    requires b < 256
    ensures PrintHex(b) == (if b < 128 then "" else "ffffff") + [LOWER[b / 16], LOWER[b % 16]]
  {
    HexDigits(b / 16);
    HexDigits(b % 16);
  }

  // ---------- the gate ----------

  /** One past the last `*`, or 0. */
  function AfterStar(s: string): (i: nat)
    ensures i <= |s|
    ensures i > 0 ==> s[i - 1] == '*'
    ensures forall j :: i <= j < |s| ==> s[j] != '*'
  {
    if s == [] then 0
    else if s[|s| - 1] == '*' then |s|
    else AfterStar(s[..|s| - 1])
  }

  lemma AfterStarIs(s: string, i: nat)
    requires i <= |s| && (i > 0 ==> s[i - 1] == '*')
    requires forall j :: i <= j < |s| ==> s[j] != '*'
    ensures AfterStar(s) == i
  {
    assert i > 0 ==> s[i - 1] == '*';
  }

  /** The checksum that a sentence states: two characters after its last `*`. */
  function Stated(s: string): Option<int>
  {
    var i := AfterStar(s);
    StoiHex(if i + 2 <= |s| then s[i..i + 2] else s[i..])
  }

  /** The test that a parser makes first. */
  predicate Gate(s: string)
  {
    Stated(s) == Some(Signed(Sum(s)))
  }

  // ---------- framing ----------

  /** A text that ends with its only `*` and has no NUL: what is written to the buffer before a
      sentence is finished. */
  predicate IsBody(s: string)
  {
    && |s| >= 2 && s[|s| - 1] == '*'
    && forall i :: 0 <= i < |s| - 1 ==> !Ends(s[i])
  }

  /** A finished sentence. */
  function Sentence(body: string): string
  {
    body + PrintHex(Sum(body)) + "\r\n"
  }

  lemma PayloadEndIs(s: string, i: nat, e: nat)
    requires i <= e <= |s| && (e < |s| ==> Ends(s[e]))
    requires forall j :: i <= j < e ==> !Ends(s[j])
    ensures PayloadEnd(s, i) == e
  {
    var k := PayloadEnd(s, i);
    assert k < |s| ==> Ends(s[k]);
  }

  lemma SentencePayload(body: string)
    requires IsBody(body)
    ensures PayloadEnd(Sentence(body), 1) == |body| - 1
    ensures Payload(Sentence(body)) == Payload(body) == body[1..|body| - 1]
  {
    var s, x := Sentence(body), PrintHex(Sum(body));
    assert s == body + (x + "\r\n");
    PayloadEndIs(body, 1, |body| - 1);
    PayloadEndIs(s, 1, |body| - 1);
  }

  lemma NoStarInHex(b: nat, j: nat)
    requires b < 256 && j < |PrintHex(b) + "\r\n"|
    ensures (PrintHex(b) + "\r\n")[j] != '*'
  {
  }

  lemma SentenceStated(body: string)
    requires IsBody(body)
    ensures AfterStar(Sentence(body)) == |body|
    ensures Stated(Sentence(body)) == StoiHex(PrintHex(Sum(body))[..2])
  {
    var s, x := Sentence(body), PrintHex(Sum(body));
    var rest := x + "\r\n";
    assert s == body + rest;
    forall j | |body| <= j < |s| ensures s[j] != '*' {
      NoStarInHex(Sum(body), j - |body|);
    }
    AfterStarIs(s, |body|);
    assert s[|body|..] == rest && rest[..2] == x[..2];
    assert s[|body|..|body| + 2] == s[|body|..][..2];
  }

  /** A finished sentence passes the gate if and only if the top bit of its checksum is 0. */
  lemma FramedIffPositive(body: string)
    requires IsBody(body)
    ensures Gate(Sentence(body)) <==> Sum(body) < 128
  {
    SentencePayload(body);
    SentenceStated(body);
    var b := Sum(body);
    if b < 128 {
      HexRoundTrip(b);
      assert PrintHex(b)[..2] == Hex(b);
    } else {
      assert PrintHex(b)[..2] == "ff";
    }
  }

  /** The number of bytes above 127. */
  function Wide(b: seq<nat>): nat
  {
    if b == [] then 0 else Wide(b[..|b| - 1]) + if b[|b| - 1] < 128 then 0 else 1
  }

  lemma {:induction false} TopBitIsParity(b: seq<nat>)
    requires forall i :: 0 <= i < |b| ==> b[i] < 256
    ensures XorAll(b) < 128 <==> Wide(b) % 2 == 0
  {
    if b != [] {
      TopBitIsParity(b[..|b| - 1]);
      XorAllIsByte(b[..|b| - 1]);
      EightBits();
      XorTopBit(XorAll(b[..|b| - 1]), b[|b| - 1], 7);
    }
  }

  /** The framing law, exactly: a finished sentence passes the parsers' checksum gate if and only
      if its payload has an even number of bytes above 127. A 7-bit payload has none. */
  lemma FramedIffEven(body: string)
    requires IsBody(body)
    ensures Gate(Sentence(body)) <==> Wide(Bytes(Payload(body))) % 2 == 0
  {
    FramedIffPositive(body);
    TopBitIsParity(Bytes(Payload(body)));
  }

  /** A sentence from elsewhere: a body, two hexadecimal digits of either case, and any rest without
      `*` pass the gate, if and only if the digits are the sum of the body and that is below 128. */
  lemma ReceivedIff(body: string, x: char, y: char, rest: string)
    requires IsBody(body) && IsHex(x) && IsHex(y) && forall i :: 0 <= i < |rest| ==> rest[i] != '*'
    ensures Gate(body + [x, y] + rest) <==> 16 * HexValue(x) + HexValue(y) == Sum(body) < 128
  {
    hide Sum, StoiHex;
    var s := body + [x, y] + rest;
    assert s == body + ([x, y] + rest) && s[..|body|] == body;
    SumOfBuffer(s, body);
    AfterStarIs(s, |body|);
    assert s[|body|..|body| + 2] == [x, y];
    StoiHexMeans(x, y);
  }

  /** In particular with capital letters, as most senders write them. */
  lemma UpperCaseIff(body: string)
    requires IsBody(body)
    ensures var n := Sum(body);
            Gate(body + [UPPER[n / 16], UPPER[n % 16]] + "\r\n") <==> n < 128
  {
    var n := Sum(body);
    HexDigits(n / 16);
    HexDigits(n % 16);
    ReceivedIff(body, UPPER[n / 16], UPPER[n % 16], "\r\n");
  }

  // ---------- error detection ----------

  /** Replacing one byte by another changes the exclusive or. */
  lemma {:induction false} XorReplaced(b: seq<nat>, i: nat, x: nat)
    requires i < |b| && x < 256 && b[i] < 256
    ensures XorAll(b[i := x]) == XorAll(b) <==> x == b[i]
  {
    var p, l := b[..|b| - 1], b[|b| - 1];
    XorAllLast(b, p, l);
    EightBits();
    if i == |b| - 1 {
      XorAllLast(b[i := x], p, x);
      XorCommutes(XorAll(p), x, 8);
      XorCommutes(XorAll(p), l, 8);
      XorCancels(x, l, XorAll(p), 8);
    } else {
      XorAllLast(b[i := x], p[i := x], l);
      XorReplaced(p, i, x);
      XorAllIsByte(p);
      XorAllIsByte(p[i := x]);
      XorCancels(XorAll(p[i := x]), XorAll(p), l, 8);
    }
  }

  lemma ReplacedParts(s: string, i: nat, c: char)
    requires 1 <= i < |s| && i < PayloadEnd(s, 1) && !StatesAt(s, i) && !Ends(c)
    ensures Stated(s[i := c]) == Stated(s)
    ensures Payload(s[i := c]) == Payload(s)[i - 1 := c]
  {
    var t, e, a := s[i := c], PayloadEnd(s, 1), AfterStar(s);
    PayloadEndIs(t, 1, e);
    assert t[1..e] == s[1..e][i - 1 := c];
    AfterStarIs(t, a);
    if a + 2 <= |s| {
      assert t[a..a + 2] == s[a..a + 2];
    } else {
      assert t[a..] == s[a..];
    }
  }

  /** Position `i` is one of the two that state the checksum. */
  predicate StatesAt(s: string, i: nat)
  {
    AfterStar(s) <= i < AfterStar(s) + 2
  }

  /** Every single error in the payload is detected, unless it is where the checksum is stated: if
      a text passes the gate, it does not pass with one payload byte replaced by another, other
      than `*` and NUL. */
  lemma SingleErrorDetected(s: string, i: nat, c: char)
    requires Gate(s) && 1 <= i < |s| && i < PayloadEnd(s, 1) && !StatesAt(s, i)
    requires !Ends(c) && Byte(c) != Byte(s[i])
    ensures !Gate(s[i := c])
  {
    ReplacedParts(s, i, c);
    var b := Bytes(Payload(s));
    assert Bytes(Payload(s[i := c])) == b[i - 1 := Byte(c)];
    XorReplaced(b, i - 1, Byte(c));
  }

  /** In particular in a finished sentence, at any position between `$` and `*`. */
  lemma SentenceErrorDetected(body: string, i: nat, c: char)
    requires IsBody(body) && Wide(Bytes(Payload(body))) % 2 == 0
    requires 1 <= i < |body| - 1 && !Ends(c) && Byte(c) != Byte(body[i])
    ensures i < |Sentence(body)| && !Gate(Sentence(body)[i := c])
  {
    FramedIffEven(body);
    SentencePayload(body);
    SentenceStated(body);
    var s := Sentence(body);
    assert s[i] == body[i];
    SingleErrorDetected(s, i, c);
  }

  /** An error in the payload of `s` that is not detected. */
  predicate Undetected(s: string, i: nat, c: char)
  {
    && Gate(s)
    && 1 <= i < |s| && i < PayloadEnd(s, 1)
    && !Ends(c) && Byte(c) != Byte(s[i])
    && Gate(s[i := c])
  }

  /** The checksum of a text with a payload of one or two bytes. */
  lemma ShortSum(s: string)
    requires 2 <= |s| <= 3 && forall j :: 1 <= j < |s| ==> !Ends(s[j])
    ensures PayloadEnd(s, 1) == |s|
    ensures |s| == 2 ==> Sum(s) == Byte(s[1])
    ensures |s| == 3 ==> Sum(s) == Xor(Byte(s[1]), Byte(s[2]), 8)
  {
    PayloadEndIs(s, 1, |s|);
    var b := Bytes(Payload(s));
    EightBits();
    XorAllLast([b[0]], [], b[0]);
    XorZero(b[0], 8);
    if |s| == 2 {
      assert b == [b[0]];
    } else {
      XorAllLast(b, [b[0]], b[1]);
    }
  }

  /** A text without `*` states its checksum at its start. */
  lemma GateWithoutStar(s: string)
    requires |s| == 2 && s[0] != '*' && !Ends(s[1])
    ensures AfterStar(s) == 0 && PayloadEnd(s, 1) == 2
    ensures Gate(s) <==> StoiHex(s) == Some(Signed(Byte(s[1])))
  {
    hide StoiHex, Sum;
    ShortSum(s);
    AfterStarIs(s, 0);
    assert s[0..2] == s;
  }

  /** A text whose only `*` is at its start states its checksum right behind. */
  lemma GateBehindStar(s: string)
    requires |s| == 3 && s[0] == '*' && !Ends(s[1]) && !Ends(s[2])
    ensures AfterStar(s) == 1 && PayloadEnd(s, 1) == 3
    ensures Gate(s) <==> StoiHex([s[1], s[2]]) == Some(Signed(Xor(Byte(s[1]), Byte(s[2]), 8)))
  {
    hide StoiHex, Sum, Xor;
    ShortSum(s);
    AfterStarIs(s, 1);
    assert s[1..3] == [s[1], s[2]];
  }

  lemma PassesWithoutStar()
    ensures AfterStar("30") == 0 && Undetected("30", 1, '1')
  {
    hide Gate, AfterStar, PayloadEnd;
    GateWithoutStar("30");
    GateWithoutStar("31");
    assert "30"[1 := '1'] == "31";
  }

  lemma {:induction false} XorSelf(a: nat, k: nat)
    ensures Xor(a, a, k) == 0
  {
    if k > 0 {
      XorSelf(a / 2, k - 1);
    }
  }

  lemma XorExamples()
    ensures Xor(48, 48, 8) == 0 && Xor(48, 49, 8) == 1
    ensures Xor(98, 105, 8) == 11 && Xor(100, 105, 8) == 13
  {
    hide Xor;
    XorSelf(48, 8);
    XorSelf(24, 7);
    XorNext(48, 49, 8, 0);
    XorSelf(6, 4);
    XorNext(12, 13, 5, 0);
    XorNext(24, 26, 6, 1);
    XorNext(25, 26, 6, 1);
    XorNext(49, 52, 7, 2);
    XorNext(50, 52, 7, 3);
    XorNext(98, 105, 8, 5);
    XorNext(100, 105, 8, 6);
  }

  lemma PassesFirstBehindStar()
    ensures AfterStar("*bi") == 1 && Undetected("*bi", 1, 'd')
  {
    hide Gate, AfterStar, PayloadEnd, Xor;
    GateBehindStar("*bi");
    GateBehindStar("*di");
    XorExamples();
    assert "*bi"[1 := 'd'] == "*di";
  }

  lemma PassesSecondBehindStar()
    ensures AfterStar("*00") == 1 && Undetected("*00", 2, '1')
  {
    hide Gate, AfterStar, PayloadEnd, Xor;
    GateBehindStar("*00");
    GateBehindStar("*01");
    XorExamples();
    assert "*00"[2 := '1'] == "*01";
  }

  /** The checksum is stated inside the payload only at the start of a text: the payload ends at
      the first `*` from position 1 on. */
  lemma StatedInPayload(s: string, i: nat)
    requires 1 <= i < |s| && i < PayloadEnd(s, 1) && StatesAt(s, i)
    ensures (AfterStar(s), i) in {(0, 1), (1, 1), (1, 2)}
  {
    assert AfterStar(s) > 1 ==> Ends(s[AfterStar(s) - 1]);
  }

  /** Where the last `*` and an error can be for the error to pass, exactly: the error is in the
      first byte of the payload of a text without `*`, or in the first two bytes of the payload of
      a text that has its only `*` in place of the `$`. */
  lemma UndetectedIff(afterStar: nat, i: nat)
    ensures (exists s, c :: AfterStar(s) == afterStar && Undetected(s, i, c)) <==>
              (afterStar, i) in {(0, 1), (1, 1), (1, 2)}
  {
    hide AfterStar, Gate, PayloadEnd;
    PassesWithoutStar();
    PassesFirstBehindStar();
    PassesSecondBehindStar();
    forall s, c | AfterStar(s) == afterStar && Undetected(s, i, c)
      ensures (afterStar, i) in {(0, 1), (1, 1), (1, 2)}
    {
      if StatesAt(s, i) {
        StatedInPayload(s, i);
      } else {
        SingleErrorDetected(s, i, c);
      }
    }
  }

  // ---------- the processor object ----------

  /** strlen */
  function CLength(s: string): (n: nat)
    ensures n <= |s| && (n < |s| ==> s[n] == NUL)
    ensures forall j :: 0 <= j < n ==> s[j] != NUL
  {
    if s == [] || s[0] == NUL then 0 else 1 + CLength(s[1..])
  }

  function CString(s: string): string
  {
    s[..CLength(s)]
  }

  /** What snprintf leaves in a buffer: the text, as far as it fits, a NUL and the old rest. */
  function Stored(buffer: string, text: string): (b: string)
    requires |buffer| == BUFFER_SIZE
    ensures |b| == BUFFER_SIZE
  {
    var n := if |text| < BUFFER_SIZE then |text| else BUFFER_SIZE - 1;
    text[..n] + [NUL] + buffer[n + 1..]
  }

  /** A text that fits and has no NUL is what a reader of the buffer sees. */
  lemma StoredIs(buffer: string, text: string)
    requires |buffer| == BUFFER_SIZE && |text| < BUFFER_SIZE
    requires forall j :: 0 <= j < |text| ==> text[j] != NUL
    ensures CString(Stored(buffer, text)) == text
  {
    var b := Stored(buffer, text);
    assert b == text + ([NUL] + buffer[|text| + 1..]);
    assert b[|text|] == NUL && forall j :: 0 <= j < |text| ==> b[j] == text[j];
  }

  /** The base class of the processors: a format buffer and the text produced so far. */
  class Processor {
    const buffer: array<char>
    var processed: string

    ghost predicate Valid()
      reads this
    {
      buffer.Length == BUFFER_SIZE
    }

    constructor ()
      ensures Valid() && processed == "" && fresh(buffer)
    {
      buffer := new char[BUFFER_SIZE](_ => NUL);
      processed := "";
    }

    /** snprintf into the buffer. */
    method Format(text: string)
      requires Valid()
      modifies buffer
      ensures buffer[..] == Stored(old(buffer[..]), text)
    {
      var n := if |text| < BUFFER_SIZE then |text| else BUFFER_SIZE - 1;
      for i := 0 to n
        invariant buffer[..i] == text[..i]
        invariant forall j :: i <= j < buffer.Length ==> buffer[j] == old(buffer[j])
      {
        buffer[i] := text[i];
      }
      buffer[n] := NUL;
      assert buffer[..n] == text[..n] && buffer[n + 1..] == old(buffer[n + 1..]);
      assert buffer[..] == buffer[..n] + [NUL] + buffer[n + 1..];
    }

    /** Append the buffer to the text, up to its NUL. */
    method AppendBuffer()
      modifies this`processed
      ensures processed == old(processed) + CString(buffer[..])
    {
      var n := 0;
      while n < buffer.Length && buffer[n] != NUL
        invariant 0 <= n <= CLength(buffer[..])
      {
        n := n + 1;
      }
      processed := processed + buffer[..n];
    }

    /** Append the checksum of whatever is in the buffer, and a line end. */
    method FinishSentence()
      requires Valid()
      modifies this`processed, buffer
      ensures processed == old(processed) + PrintHex(Sum(old(buffer[..]))) + "\r\n"
    {
      hide Stored, CString, Sum, PrintHex;
      var csum := Checksum(buffer[..]);
      var text := PrintHex(if csum < 0 then csum + 256 else csum) + "\r\n";
      NoNulInHex(Sum(buffer[..]));
      StoredIs(buffer[..], text);
      Format(text);
      AppendBuffer();
    }

    /** Write a sentence and finish it, as every append function of a processor does. */
    method AppendSentence(text: string)
      requires Valid()
      modifies this`processed, buffer
      ensures var b := Stored(old(buffer[..]), text);
              processed == old(processed) + CString(b) + PrintHex(Sum(b)) + "\r\n"
      ensures IsBody(text) && |text| < 4096 ==>
                processed == old(processed) + Sentence(text)
    {
      hide Stored, CString, Sum, PrintHex, IsBody;
      ghost var was := buffer[..];
      Format(text);
      AppendBuffer();
      FinishSentence();
      if IsBody(text) && |text| < BUFFER_SIZE {
        BodyIsStored(was, text);
      }
    }
  }

  lemma BodyIsStored(buffer: string, body: string)
    requires |buffer| == BUFFER_SIZE && IsBody(body) && |body| < BUFFER_SIZE
    ensures CString(Stored(buffer, body)) == body && Sum(Stored(buffer, body)) == Sum(body)
  {
    StoredIs(buffer, body);
    assert Stored(buffer, body)[..|body|] == body;
    SumOfBuffer(Stored(buffer, body), body);
  }

  lemma NoNulInHex(b: nat)
    requires b < 256
    ensures var t := PrintHex(b) + "\r\n"; |t| < BUFFER_SIZE && forall j :: 0 <= j < |t| ==> t[j] != NUL
  {
  }

  lemma SumOfBuffer(b: string, body: string)
    requires IsBody(body) && |body| <= |b| && b[..|body|] == body
    ensures Sum(b) == Sum(body)
  {
    var e := |body| - 1;
    PayloadEndIs(body, 1, e);
    assert forall j :: 0 <= j <= e ==> b[j] == b[..|body|][j];
    PayloadEndIs(b, 1, e);
    assert b[1..e] == body[1..e];
  }
}
