/**
 Regular expressions of the kind that the GGA expression of src/feed/parser/GpsParser.cpp needs:
 classes of characters with a number of repetitions, and optional groups, matched against the
 whole text and without regard to case.
 */
module Regex {
  import opened Options
  import opened Commas

  /** Ranges of characters. */
  type Class = seq<(char, char)>

  datatype Re =
    | Chars(cs: Class, least: nat, most: Option<nat>)
    | Maybe(rs: seq<Re>)

  predicate Has(cs: Class, c: char)
  {
    cs != [] && (cs[0].0 <= c <= cs[0].1 || Has(cs[1..], c))
  }

  function OtherCase(c: char): char
  {
    if 'a' <= c <= 'z' then (c as int - 32) as char
    else if 'A' <= c <= 'Z' then (c as int + 32) as char
    else c
  }

  predicate Fits(cs: Class, c: char)
  {
    Has(cs, c) || Has(cs, OtherCase(c))
  }

  ghost predicate Matches(s: string, r: Re)
    decreases r
  {
    match r
    case Chars(cs, least, most) =>
      && least <= |s| && (most.Some? ==> |s| <= most.value)
      && forall i :: 0 <= i < |s| ==> Fits(cs, s[i])
    case Maybe(rs) => s == "" || MatchesAll(s, rs)
  }

  /** `s` can be cut into pieces that match the expressions `rs`, in order. */
  ghost predicate MatchesAll(s: string, rs: seq<Re>)
    decreases rs
  {
    if rs == [] then s == ""
    else exists k :: 0 <= k <= |s| && Matches(s[..k], rs[0]) && MatchesAll(s[k..], rs[1..])
  }

  /** Exactly `n` characters of a class. */
  function Exactly(cs: Class, n: nat): Re
  {
    Chars(cs, n, Some(n))
  }

  function One(c: char): Re
  {
    Exactly([(c, c)], 1)
  }

  /** Expressions with commas in between. */
  function Separated(ps: seq<seq<Re>>): seq<Re>
  {
    if ps == [] then [] else if |ps| == 1 then ps[0] else ps[0] + ([One(',')] + Separated(ps[1..]))
  }

  // ---------- laws ----------

  lemma HasOne(r: (char, char), c: char)
    ensures Has([r], c) <==> r.0 <= c <= r.1
  {
    assert [r][1..] == [];
  }

  lemma HasTwo(r: (char, char), q: (char, char), c: char)
    ensures Has([r, q], c) <==> r.0 <= c <= r.1 || q.0 <= c <= q.1
  {
    assert [r, q][1..] == [q];
    HasOne(q, c);
  }

  lemma OneFits(c: char, d: char)
    ensures Fits([(c, c)], d) <==> d == c || OtherCase(d) == c
  {
    HasOne((c, c), d);
    HasOne((c, c), OtherCase(d));
  }

  lemma MatchesEmpty(s: string)
    ensures MatchesAll(s, []) <==> s == ""
  {
  }

  lemma First(s: string, rs: seq<Re>) returns (k: nat)
    requires rs != [] && MatchesAll(s, rs)
    ensures k <= |s| && Matches(s[..k], rs[0]) && MatchesAll(s[k..], rs[1..])
  {
    k :| 0 <= k <= |s| && Matches(s[..k], rs[0]) && MatchesAll(s[k..], rs[1..]);
  }

  lemma FirstAndRest(s: string, k: nat, rs: seq<Re>)
    requires rs != [] && k <= |s| && Matches(s[..k], rs[0]) && MatchesAll(s[k..], rs[1..])
    ensures MatchesAll(s, rs)
  {
  }

  /** A piece of fixed length comes first. */
  lemma MatchesExactly(s: string, cs: Class, n: nat, rs: seq<Re>)
    ensures MatchesAll(s, [Exactly(cs, n)] + rs) <==>
              n <= |s| && (forall i :: 0 <= i < n ==> Fits(cs, s[i])) && MatchesAll(s[n..], rs)
  {
    hide MatchesAll, Fits;
    var all := [Exactly(cs, n)] + rs;
    assert all[0] == Exactly(cs, n) && all[1..] == rs;
    if n <= |s| && (forall i :: 0 <= i < n ==> Fits(cs, s[i])) && MatchesAll(s[n..], rs) {
      FirstAndRest(s, n, all);
    }
    if MatchesAll(s, all) {
      var k := First(s, all);
      assert forall i :: 0 <= i < n ==> s[i] == s[..k][i];
    }
  }

  lemma MatchesOne(s: string, c: char, rs: seq<Re>)
    ensures MatchesAll(s, [One(c)] + rs) <==>
              s != "" && (s[0] == c || OtherCase(s[0]) == c) && MatchesAll(s[1..], rs)
  {
    MatchesExactly(s, [(c, c)], 1, rs);
    if s != "" {
      OneFits(c, s[0]);
    }
  }

  lemma MatchesLast(s: string, r: Re)
    ensures MatchesAll(s, [r]) <==> Matches(s, r)
  {
    assert [r][1..] == [];
    assert s[..|s|] == s && s[|s|..] == "";
    if Matches(s, r) {
      assert Matches(s[..|s|], [r][0]) && MatchesAll(s[|s|..], [r][1..]);
    }
    if MatchesAll(s, [r]) {
      var k :| 0 <= k <= |s| && Matches(s[..k], [r][0]) && MatchesAll(s[k..], [r][1..]);
      assert k == |s|;
    }
  }

  lemma {:induction false} CutBetween(s: string, a: seq<Re>, b: seq<Re>) returns (k: nat)
    requires MatchesAll(s, a + b)
    ensures k <= |s| && MatchesAll(s[..k], a) && MatchesAll(s[k..], b)
    decreases a
  {
    if a == [] {
      k := 0;
      assert a + b == b && s[0..] == s && s[..0] == "";
    } else {
      hide MatchesAll, Matches;
      assert (a + b)[0] == a[0] && (a + b)[1..] == a[1..] + b;
      var i := First(s, a + b);
      var j := CutBetween(s[i..], a[1..], b);
      k := i + j;
      assert s[..k][..i] == s[..i] && s[..k][i..] == s[i..][..j] && s[k..] == s[i..][j..];
      FirstAndRest(s[..k], i, a);
    }
  }

  lemma {:induction false} PutTogether(s: string, k: nat, a: seq<Re>, b: seq<Re>)
    requires k <= |s| && MatchesAll(s[..k], a) && MatchesAll(s[k..], b)
    ensures MatchesAll(s, a + b)
    decreases a
  {
    if a == [] {
      assert a + b == b && s[k..] == s;
    } else {
      hide MatchesAll, Matches;
      assert (a + b)[0] == a[0] && (a + b)[1..] == a[1..] + b;
      var i := First(s[..k], a);
      assert s[..k][..i] == s[..i] && s[..k][i..] == s[i..][..k - i] && s[k..] == s[i..][k - i..];
      PutTogether(s[i..], k - i, a[1..], b);
      FirstAndRest(s, i, a + b);
    }
  }

  /** Each text matches the expression at its place. */
  ghost predicate Each(fs: seq<string>, ps: seq<seq<Re>>)
  {
    |fs| == |ps| && forall i :: 0 <= i < |fs| ==> MatchesAll(fs[i], ps[i])
  }

  lemma EachTail(fs: seq<string>, ps: seq<seq<Re>>)
    requires fs != [] && ps != []
    ensures Each(fs, ps) <==> MatchesAll(fs[0], ps[0]) && Each(fs[1..], ps[1..])
  {
    if MatchesAll(fs[0], ps[0]) && Each(fs[1..], ps[1..]) {
      forall i | 0 <= i < |fs| ensures MatchesAll(fs[i], ps[i]) {
        if i > 0 {
          assert MatchesAll(fs[1..][i - 1], ps[1..][i - 1]);
        }
      }
    }
  }

  /** A text matches expressions with commas in between, if and only if it is a join of texts that
      match them one by one. */
  lemma {:induction false} SeparatedIsJoin(s: string, ps: seq<seq<Re>>)
    requires ps != []
    ensures MatchesAll(s, Separated(ps)) <==> exists fs :: Each(fs, ps) && s == Join(fs)
  {
    if |ps| == 1 {
      if MatchesAll(s, ps[0]) {
        assert Each([s], ps) && s == Join([s]);
      }
    } else {
      if MatchesAll(s, Separated(ps)) {
        var fs := JoinOfMatches(s, ps);
      }
      if fs :| Each(fs, ps) && s == Join(fs) {
        MatchOfJoin(s, fs, ps);
      }
    }
  }

  lemma EachOne(t: string, p: seq<Re>)
    ensures Each([t], [p]) <==> MatchesAll(t, p)
  {
    assert Each([t], [p]) <==> MatchesAll([t][0], [p][0]);
  }

  lemma JoinOfMatches(s: string, ps: seq<seq<Re>>) returns (fs: seq<string>)
    requires |ps| > 1 && MatchesAll(s, Separated(ps))
    ensures Each(fs, ps) && |fs| == |ps| && s == Join(fs)
    decreases |ps|, 0
  {
    hide MatchesAll, Each;
    var rest := Separated(ps[1..]);
    var k := CutBetween(s, ps[0], [One(',')] + rest);
    MatchesOne(s[k..], ',', rest);
    CommaHasOneCase(s[k]);
    assert s[k..][1..] == s[k + 1..];
    var gs: seq<string> := [s[k + 1..]];
    if |ps| == 2 {
      assert ps[1..] == [ps[1]] && Separated(ps[1..]) == ps[1];
      EachOne(gs[0], ps[1]);
    } else {
      gs := JoinOfMatches(s[k + 1..], ps[1..]);
    }
    fs := [s[..k]] + gs;
    assert fs[1..] == gs;
    EachTail(fs, ps);
    assert s == s[..k] + "," + s[k + 1..];
  }

  lemma MatchOfJoin(s: string, fs: seq<string>, ps: seq<seq<Re>>)
    requires |ps| > 1 && Each(fs, ps) && s == Join(fs)
    ensures MatchesAll(s, Separated(ps))
    decreases |ps|, 0
  {
    hide MatchesAll;
    EachTail(fs, ps);
    var rest, k := Separated(ps[1..]), |fs[0]|;
    assert s == fs[0] + ("," + Join(fs[1..]));
    assert s[..k] == fs[0] && s[k..] == "," + Join(fs[1..]) && s[k..][1..] == Join(fs[1..]);
    if |ps| == 2 {
      assert fs[1..] == [fs[1]] && ps[1..] == [ps[1]];
    } else {
      MatchOfJoin(Join(fs[1..]), fs[1..], ps[1..]);
    }
    MatchesOne(s[k..], ',', rest);
    PutTogether(s, k, ps[0], [One(',')] + rest);
  }

  lemma CommaHasOneCase(c: char)
    ensures OtherCase(c) == ',' <==> c == ','
  {
  }
}
