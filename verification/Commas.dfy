/** Texts of comma-separated fields. */
module Commas {

  /** The first comma at or after `from`, or the length of the text. */
  function NextComma(s: string, from: nat): (i: nat)
    requires from <= |s|
    ensures from <= i <= |s|
    ensures i < |s| ==> s[i] == ','
    ensures forall j :: from <= j < i ==> s[j] != ','
    decreases |s| - from
  {
    if from == |s| || s[from] == ',' then from else NextComma(s, from + 1)
  }

  predicate NoComma(s: string)
  {
    forall i :: 0 <= i < |s| ==> s[i] != ','
  }

  ghost predicate CommaFree(fs: seq<string>)
  {
    forall i :: 0 <= i < |fs| ==> NoComma(fs[i])
  }

  function Split(s: string): (fs: seq<string>)
    ensures fs != []
    decreases |s|
  {
    var i := NextComma(s, 0);
    if i == |s| then [s] else [s[..i]] + Split(s[i + 1..])
  }

  function Join(fs: seq<string>): string
  {
    if fs == [] then "" else if |fs| == 1 then fs[0] else fs[0] + "," + Join(fs[1..])
  }

  lemma NextCommaIs(s: string, from: nat, i: nat)
    requires from <= i <= |s| && (i < |s| ==> s[i] == ',')
    requires forall j :: from <= j < i ==> s[j] != ','
    ensures NextComma(s, from) == i
  {
    var k := NextComma(s, from);
    assert k < |s| ==> s[k] == ',';
  }

  /** Splitting undoes joining. */
  lemma {:induction false} SplitJoin(fs: seq<string>)
    requires fs != [] && CommaFree(fs)
    ensures Split(Join(fs)) == fs
  {
    var s := Join(fs);
    if |fs| == 1 {
      NextCommaIs(s, 0, |s|);
    } else {
      assert s == fs[0] + ("," + Join(fs[1..]));
      NextCommaIs(s, 0, |fs[0]|);
      SplitJoin(fs[1..]);
      assert s[..|fs[0]|] == fs[0] && s[|fs[0]| + 1..] == Join(fs[1..]);
    }
  }

  /** Joining undoes splitting, and the fields have no comma. */
  lemma {:induction false} JoinSplit(s: string)
    ensures Join(Split(s)) == s && CommaFree(Split(s))
    decreases |s|
  {
    var i := NextComma(s, 0);
    if i < |s| {
      JoinSplit(s[i + 1..]);
      assert Split(s)[1..] == Split(s[i + 1..]);
      assert s == s[..i] + "," + s[i + 1..];
    }
  }

  /** Text behind a join goes to the last field. */
  lemma {:induction false} JoinAppend(fs: seq<string>, t: string)
    requires fs != []
    ensures Join(fs) + t == Join(fs[|fs| - 1 := fs[|fs| - 1] + t])
  {
    var gs := fs[|fs| - 1 := fs[|fs| - 1] + t];
    if |fs| > 1 {
      JoinAppend(fs[1..], t);
      assert gs[1..] == fs[1..][|fs| - 2 := fs[|fs| - 1] + t];
      assert fs[0] + "," + Join(fs[1..]) + t == fs[0] + "," + (Join(fs[1..]) + t);
    }
  }

  /** What holds of the comma and of every character of every field holds of the join. */
  lemma {:induction false} JoinAll(fs: seq<string>, p: char -> bool)
    requires p(',') && forall i, j :: 0 <= i < |fs| && 0 <= j < |fs[i]| ==> p(fs[i][j])
    ensures forall j :: 0 <= j < |Join(fs)| ==> p(Join(fs)[j])
  {
    if |fs| > 1 {
      JoinAll(fs[1..], p);
      assert forall j :: 0 <= j < |fs[0]| ==> p(fs[0][j]);
    }
  }
}
