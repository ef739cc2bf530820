/**
 The regular expression for GGA sentences (src/feed/parser/GpsParser.cpp), and what it says about
 the comma-separated fields of a sentence.
 */
module GgaExpression {
  import opened Options
  import opened Text
  import opened Commas
  import opened Nmea
  import opened Regex

  // ---------- the expression ----------

  const DIGIT: Class := [('0', '9')]
  const LETTER: Class := [('A', 'Z')]
  const HEX: Class := [('0', '9'), ('A', 'F')]
  const SPACE: Class := [(' ', ' '), (9 as char, 13 as char)]

  /** \d{n}\.\d{3,4} */
  function DegMin(n: nat): seq<Re>
  {
    [Exactly(DIGIT, n)] + ([One('.')] + [Chars(DIGIT, 3, Some(4))])
  }

  /** \d+(?:\.\d+)? */
  function Number(): seq<Re>
  {
    [Chars(DIGIT, 1, None), Maybe([One('.')] + [Chars(DIGIT, 1, None)])]
  }

  /** \$[A-Z]{2}GGA */
  function Talker(): seq<Re>
  {
    [One('$')] + ([Exactly(LETTER, 2)] + ([One('G')] + ([One('G')] + [One('A')])))
  }

  /** \*[0-9A-F]{2}\s*?$ */
  function Tail(): seq<Re>
  {
    [One('*')] + ([Exactly(HEX, 2)] + [Chars(SPACE, 0, None)])
  }

  /** What is between the commas, from 0 on. */
  function Piece(i: nat): seq<Re>
  {
    match i
    case 0 => Talker()
    case 1 => [Exactly(DIGIT, 6)]
    case 2 => DegMin(4)
    case 3 => [Exactly([('N', 'N'), ('S', 'S')], 1)]
    case 4 => DegMin(5)
    case 5 => [Exactly([('E', 'E'), ('W', 'W')], 1)]
    case 6 => [Exactly(DIGIT, 1)]
    case 7 => [Exactly(DIGIT, 2)]
    case 8 => Number()
    case 9 => Number()
    case 10 => [One('M')]
    case 11 => Number()
    case 12 => [One('M')]
    case 13 => []
    case _ => Tail()
  }

  function Pieces(): (ps: seq<seq<Re>>)
    ensures |ps| == 15
  {
    seq(15, i requires 0 <= i => Piece(i))
  }

  /** The whole expression. */
  function Expression(): seq<Re>
  {
    Separated(Pieces())
  }

  // ---------- what it says of the fields ----------

  predicate IsLetter(c: char)
  {
    'a' <= c <= 'z' || 'A' <= c <= 'Z'
  }

  predicate IsTalker(t: string)
  {
    && |t| == 6 && t[0] == '$' && IsLetter(t[1]) && IsLetter(t[2])
    && t[3] in "Gg" && t[4] in "Gg" && t[5] in "Aa"
  }

  /** \d{n} */
  predicate IsDigits(t: string, n: nat)
  {
    |t| == n && AllDigits(t)
  }

  /** \d{n}\.\d{3,4} */
  predicate IsDegMin(t: string, n: nat)
  {
    && (|t| == n + 4 || |t| == n + 5)
    && AllDigits(t[..n]) && t[n] == '.' && AllDigits(t[n + 1..])
  }

  /** \d+(?:\.\d+)? */
  predicate IsNumber(t: string)
  {
    var k := DigitCount(t);
    k > 0 && (k == |t| || (t[k] == '.' && k + 1 < |t| && AllDigits(t[k + 1..])))
  }

  /** \*[0-9A-F]{2}\s*?$ */
  predicate IsTail(t: string)
  {
    && |t| >= 3 && t[0] == '*' && IsHex(t[1]) && IsHex(t[2])
    && forall i :: 3 <= i < |t| ==> IsSpace(t[i])
  }

  predicate IsOneOf(t: string, cs: string)
  {
    |t| == 1 && t[0] in cs
  }

  /** The pieces of the expression between its commas; case does not matter. */
  predicate AreGga(fs: seq<string>)
  {
    && |fs| == 15
    && IsTalker(fs[0])
    && IsDigits(fs[1], 6)
    && IsDegMin(fs[2], 4) && IsOneOf(fs[3], "NSns")
    && IsDegMin(fs[4], 5) && IsOneOf(fs[5], "EWew")
    && IsDigits(fs[6], 1)
    && IsDigits(fs[7], 2)
    && IsNumber(fs[8])
    && IsNumber(fs[9]) && IsOneOf(fs[10], "Mm")
    && IsNumber(fs[11]) && IsOneOf(fs[12], "Mm")
    && fs[13] == ""
    && IsTail(fs[14])
  }

  // ---------- piece by piece ----------

  lemma ClassesFit(c: char)
    ensures Fits(DIGIT, c) <==> IsDigit(c)
    ensures Fits(LETTER, c) <==> IsLetter(c)
    ensures Fits(HEX, c) <==> IsHex(c)
    ensures Fits(SPACE, c) <==> IsSpace(c)
  {
    var d := OtherCase(c);
    HasOne(('0', '9'), c);
    HasOne(('0', '9'), d);
    HasOne(('A', 'Z'), c);
    HasOne(('A', 'Z'), d);
    HasTwo(('0', '9'), ('A', 'F'), c);
    HasTwo(('0', '9'), ('A', 'F'), d);
    HasTwo((' ', ' '), (9 as char, 13 as char), c);
    HasTwo((' ', ' '), (9 as char, 13 as char), d);
  }

  lemma PairFits(a: char, b: char, c: char)
    requires 'A' <= a <= 'Z' && 'A' <= b <= 'Z'
    ensures Fits([(a, a), (b, b)], c) <==> c in [a, b, OtherCase(a), OtherCase(b)]
  {
    HasTwo((a, a), (b, b), c);
    HasTwo((a, a), (b, b), OtherCase(c));
  }

  /** A single piece of fixed length. */
  lemma LastExactly(t: string, cs: Class, n: nat)
    ensures MatchesAll(t, [Exactly(cs, n)]) <==> |t| == n && forall i :: 0 <= i < n ==> Fits(cs, t[i])
  {
    MatchesLast(t, Exactly(cs, n));
  }

  lemma DigitsPiece(t: string, n: nat)
    ensures MatchesAll(t, [Exactly(DIGIT, n)]) <==> IsDigits(t, n)
  {
    LastExactly(t, DIGIT, n);
    forall i | 0 <= i < |t| ensures Fits(DIGIT, t[i]) <==> IsDigit(t[i]) {
      ClassesFit(t[i]);
    }
  }

  lemma DigitsFit(t: string)
    ensures (forall i :: 0 <= i < |t| ==> Fits(DIGIT, t[i])) <==> AllDigits(t)
  {
    forall i | 0 <= i < |t| ensures Fits(DIGIT, t[i]) <==> IsDigit(t[i]) {
      ClassesFit(t[i]);
    }
  }

  lemma DegMinPiece(t: string, n: nat)
    ensures MatchesAll(t, DegMin(n)) <==> IsDegMin(t, n)
  {
    var last := Chars(DIGIT, 3, Some(4));
    MatchesExactly(t, DIGIT, n, [One('.')] + [last]);
    if n <= |t| {
      DigitsFit(t[..n]);
      MatchesOne(t[n..], '.', [last]);
      if n < |t| {
        assert t[n..][1..] == t[n + 1..];
        DigitsFit(t[n + 1..]);
        MatchesLast(t[n + 1..], last);
      }
    }
  }

  lemma NumberPiece(t: string)
    ensures MatchesAll(t, Number()) <==> IsNumber(t)
  {
    var whole, part := Chars(DIGIT, 1, None), [One('.')] + [Chars(DIGIT, 1, None)];
    var k := DigitCount(t);
    assert Number()[0] == whole && Number()[1..] == [Maybe(part)];
    FractionPiece(t[k..]);
    if IsNumber(t) {
      DigitsFit(t[..k]);
      MatchesLast(t[k..], Maybe(part));
      assert t[k..] != "" ==> t[k..][1..] == t[k + 1..];
      FirstAndRest(t, k, Number());
    }
    if MatchesAll(t, Number()) {
      var j := First(t, Number());
      DigitsFit(t[..j]);
      MatchesLast(t[j..], Maybe(part));
      FractionPiece(t[j..]);
      assert forall i :: 0 <= i < j ==> IsDigit(t[..j][i]) && t[i] == t[..j][i];
      DigitCountIs(t, j);
      assert j < |t| ==> t[j..][0] == t[j] && t[j..][1..] == t[j + 1..];
    }
  }

  lemma FractionPiece(t: string)
    ensures MatchesAll(t, [One('.')] + [Chars(DIGIT, 1, None)]) <==>
              |t| > 1 && t[0] == '.' && AllDigits(t[1..])
  {
    MatchesOne(t, '.', [Chars(DIGIT, 1, None)]);
    if t != "" {
      MatchesLast(t[1..], Chars(DIGIT, 1, None));
      DigitsFit(t[1..]);
    }
  }

  lemma TalkerPiece(t: string)
    ensures MatchesAll(t, Talker()) <==> IsTalker(t)
  {
    hide MatchesAll, Fits;
    var g2 := [One('G')] + [One('A')];
    var g1 := [One('G')] + g2;
    MatchesOne(t, '$', [Exactly(LETTER, 2)] + g1);
    if t != "" {
      MatchesExactly(t[1..], LETTER, 2, g1);
      if |t| >= 3 {
        ClassesFit(t[1]);
        ClassesFit(t[2]);
        assert t[1..][0] == t[1] && t[1..][1] == t[2] && t[1..][2..] == t[3..];
        MatchesOne(t[3..], 'G', g2);
        EndPiece(t[3..]);
      }
    }
  }

  /** The letters GGA, in either case. */
  lemma EndPiece(t: string)
    ensures MatchesAll(t, [One('G')] + ([One('G')] + [One('A')])) <==>
              |t| == 3 && t[0] in "Gg" && t[1] in "Gg" && t[2] in "Aa"
  {
    hide MatchesAll, Fits;
    MatchesOne(t, 'G', [One('G')] + [One('A')]);
    if t != "" {
      MatchesOne(t[1..], 'G', [One('A')]);
      if |t| > 1 {
        assert t[1..][0] == t[1] && t[1..][1..] == t[2..];
        LetterPiece(t[2..], 'A');
      }
    }
  }

  lemma LetterPiece(t: string, c: char)
    requires 'A' <= c <= 'Z'
    ensures MatchesAll(t, [One(c)]) <==> IsOneOf(t, [c, OtherCase(c)])
  {
    LastExactly(t, [(c, c)], 1);
    if |t| == 1 {
      OneFits(c, t[0]);
    }
  }

  lemma PairPiece(t: string, a: char, b: char)
    requires 'A' <= a <= 'Z' && 'A' <= b <= 'Z'
    ensures MatchesAll(t, [Exactly([(a, a), (b, b)], 1)]) <==>
              IsOneOf(t, [a, b, OtherCase(a), OtherCase(b)])
  {
    LastExactly(t, [(a, a), (b, b)], 1);
    if |t| == 1 {
      PairFits(a, b, t[0]);
    }
  }

  lemma TailPiece(t: string)
    ensures MatchesAll(t, Tail()) <==> IsTail(t)
  {
    hide MatchesAll, Fits;
    var spaces := [Chars(SPACE, 0, None)];
    MatchesOne(t, '*', [Exactly(HEX, 2)] + spaces);
    if t != "" {
      MatchesExactly(t[1..], HEX, 2, spaces);
      if |t| >= 3 {
        ClassesFit(t[1]);
        ClassesFit(t[2]);
        assert t[1..][0] == t[1] && t[1..][1] == t[2] && t[1..][2..] == t[3..];
        MatchesLast(t[3..], spaces[0]);
        forall i | 3 <= i < |t| ensures Fits(SPACE, t[i]) <==> IsSpace(t[i]) {
          ClassesFit(t[i]);
        }
        assert forall i :: 3 <= i < |t| ==> t[i] == t[3..][i - 3];
      }
    }
  }

  /** What the expression wants of field `i`. */
  predicate Fitting(i: nat, t: string)
  {
    match i
    case 0 => IsTalker(t)
    case 1 => IsDigits(t, 6)
    case 2 => IsDegMin(t, 4)
    case 3 => IsOneOf(t, "NSns")
    case 4 => IsDegMin(t, 5)
    case 5 => IsOneOf(t, "EWew")
    case 6 => IsDigits(t, 1)
    case 7 => IsDigits(t, 2)
    case 8 => IsNumber(t)
    case 9 => IsNumber(t)
    case 10 => IsOneOf(t, "Mm")
    case 11 => IsNumber(t)
    case 12 => IsOneOf(t, "Mm")
    case 13 => t == ""
    case _ => IsTail(t)
  }

  lemma PieceFits(i: nat, t: string)
    ensures MatchesAll(t, Piece(i)) <==> Fitting(i, t)
  {
    hide MatchesAll, IsDegMin, IsNumber, IsTail, IsTalker, Talker, DegMin, Number, Tail, One, Exactly;
    match i
    case 0 => TalkerPiece(t);
    case 1 => DigitsPiece(t, 6);
    case 2 => DegMinPiece(t, 4);
    case 3 => PairPiece(t, 'N', 'S');
    case 4 => DegMinPiece(t, 5);
    case 5 => PairPiece(t, 'E', 'W');
    case 6 => DigitsPiece(t, 1);
    case 7 => DigitsPiece(t, 2);
    case 8 => NumberPiece(t);
    case 9 => NumberPiece(t);
    case 10 => LetterPiece(t, 'M');
    case 11 => NumberPiece(t);
    case 12 => LetterPiece(t, 'M');
    case 13 => MatchesEmpty(t);
    case _ => TailPiece(t);
  }

  lemma FittingAreGga(fs: seq<string>)
    requires |fs| == 15
    ensures AreGga(fs) <==> forall i :: 0 <= i < 15 ==> Fitting(i, fs[i])
  {
    hide IsDegMin, IsNumber, IsTail, IsTalker, IsDigits, IsOneOf;
    if AreGga(fs) {
      forall i | 0 <= i < 15 ensures Fitting(i, fs[i]) {
      }
    }
    if forall i :: 0 <= i < 15 ==> Fitting(i, fs[i]) {
      assert Fitting(0, fs[0]) && Fitting(1, fs[1]) && Fitting(2, fs[2]) && Fitting(3, fs[3]);
      assert Fitting(4, fs[4]) && Fitting(5, fs[5]) && Fitting(6, fs[6]) && Fitting(7, fs[7]);
      assert Fitting(8, fs[8]) && Fitting(9, fs[9]) && Fitting(10, fs[10]) && Fitting(11, fs[11]);
      assert Fitting(12, fs[12]) && Fitting(13, fs[13]) && Fitting(14, fs[14]);
    }
  }

  /** Fields match the pieces of the expression if and only if they are those of a GGA sentence. */
  lemma PiecesAreGga(fs: seq<string>)
    ensures Each(fs, Pieces()) <==> AreGga(fs)
  {
    hide MatchesAll, Fitting, Piece;
    if |fs| == 15 {
      forall i | 0 <= i < 15 ensures MatchesAll(fs[i], Pieces()[i]) <==> Fitting(i, fs[i]) {
        PieceFits(i, fs[i]);
      }
      FittingAreGga(fs);
    }
  }

  lemma NumberHasNoComma(t: string)
    requires IsNumber(t)
    ensures NoComma(t)
  {
    var k := DigitCount(t);
    forall i | 0 <= i < |t| ensures t[i] != ',' {
      if i < k {
        assert IsDigit(t[..k][i]);
      } else if i > k {
        assert IsDigit(t[k + 1..][i - k - 1]);
      }
    }
  }

  lemma DegMinHasNoComma(t: string, n: nat)
    requires IsDegMin(t, n)
    ensures NoComma(t)
  {
    forall i | 0 <= i < |t| ensures t[i] != ',' {
      if i < n {
        assert IsDigit(t[..n][i]);
      } else if i > n {
        assert IsDigit(t[n + 1..][i - n - 1]);
      }
    }
  }

  lemma GgaHasNoComma(fs: seq<string>)
    requires AreGga(fs)
    ensures CommaFree(fs)
  {
    DegMinHasNoComma(fs[2], 4);
    DegMinHasNoComma(fs[4], 5);
    NumberHasNoComma(fs[8]);
    NumberHasNoComma(fs[9]);
    NumberHasNoComma(fs[11]);
    forall i | 0 <= i < |fs| && i !in {2, 4, 8, 9, 11} ensures NoComma(fs[i]) {
    }
  }

  /** A sentence matches the expression if and only if its comma-separated fields are those of a GGA
      sentence, and it matches with these pieces and no others. */
  lemma MatchIsSplit(s: string)
    ensures MatchesAll(s, Expression()) <==> AreGga(Split(s))
    ensures forall fs :: Each(fs, Pieces()) && s == Join(fs) ==> fs == Split(s)
  {
    hide AreGga, MatchesAll, Pieces;
    JoinSplit(s);
    SeparatedIsJoin(s, Pieces());
    PiecesAreGga(Split(s));
    forall fs | Each(fs, Pieces()) && s == Join(fs) ensures fs == Split(s) {
      PiecesAreGga(fs);
      GgaHasNoComma(fs);
      SplitJoin(fs);
    }
  }
}
