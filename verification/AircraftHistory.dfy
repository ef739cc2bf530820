/**
 What the aircraft store holds after any run of reports and processing rounds, said from the
 outside: by the last accepted report of each id and the rounds since then.

 The ages, the deletion at 120, the loss of the FLARM type at 4 and the rendered texts of the
 store are all consequences, for every run, also one in which rendering throws.
 */
module AircraftHistory {
  import opened Options
  import opened Aircrafts
  import opened AircraftStore
  import opened TimeStamps

  datatype Event =
    | Report(a: Aircraft)
    | Process(r: Reference, throws: set<string>)

  /** The store after the events `es`. */
  function Run(es: seq<Event>, render: Renderer): Store
  {
    if es == [] then []
    else Apply(Run(es[..|es| - 1], render), es[|es| - 1], render)
  }

  function Apply(s: Store, e: Event, render: Renderer): Store
  {
    match e
    case Report(a) => Update(s, a)
    case Process(r, throws) => Round(s, r, throws, render)
  }

  /** Feeds build their records with age 0 and no text. */
  predicate FromFeeds(es: seq<Event>)
  {
    forall i :: 0 <= i < |es| && es[i].Report? ==> es[i].a.age == 0 && es[i].a.serialized == ""
  }

  // ---------- history ----------

  /** The first round after a report: its reference, and whether rendering threw. */
  datatype First = First(r: Reference, threw: bool)

  /** `last` is the last accepted report of an id, `rounds` the number of rounds since then;
      `born` is the event that put the id into the store. */
  datatype History = Unseen | Seen(last: Aircraft, rounds: nat, first: Option<First>, born: nat)

  /** The history of an id, from its own reports and the rounds alone: whether a report is accepted
      is decided by what the history so far leaves behind. */
  function Track(es: seq<Event>, id: string, render: Renderer): History
  {
    if es == [] then Unseen
    else
      var past := es[..|es| - 1];
      var h := Track(past, id, render);
      match es[|es| - 1]
      case Report(a) =>
        var b := Expected(h, render);
        if a.id != id || (b.Some? && !a.CanUpdate(b.value)) then h
        else Seen(a, 0, None, if b.Some? then h.born else |past|)
      case Process(r, throws) =>
        AfterRound(h, r, id in throws)
  }

  function AfterRound(h: History, r: Reference, threw: bool): History
  {
    if h.Unseen? then h
    else h.(rounds := h.rounds + 1,
            first := if h.first == None then Some(First(r, threw)) else h.first)
  }

  predicate Threw(h: History)
  {
    h.Seen? && h.first.Some? && h.first.value.threw
  }

  /** A throw adds one to the age, because the record is passed over twice. */
  function Age(h: History): nat
    requires h.Seen?
  {
    h.rounds + if Threw(h) then 1 else 0
  }

  /** The record that a history leaves behind. */
  function Expected(h: History, render: Renderer): Option<Aircraft>
  {
    if h.Unseen? || Age(h) >= AC_DELETE_THRESHOLD then None
    else
      var a := h.last.(age := Age(h), serialized := Text(h, render));
      Some(if Age(h) >= AC_NO_FLARM_THRESHOLD then a.SetTargetType(Transponder) else a)
  }

  function Text(h: History, render: Renderer): string
    requires h.Seen?
  {
    if h.first == None || Threw(h) then ""
    else render(h.last.id, h.last.info, h.first.value.r)
  }

  // ---------- the store is the history ----------

  lemma {:induction false} RunIsDistinct(es: seq<Event>, render: Renderer)
    ensures DistinctIds(Run(es, render))
  {
    if es != [] {
      var s := Run(es[..|es| - 1], render);
      RunIsDistinct(es[..|es| - 1], render);
      match es[|es| - 1]
      case Report(a) => UpdateKeepsDistinct(s, a);
      case Process(r, throws) => RoundKeepsDistinct(s, r, throws, render);
    }
  }

  lemma {:induction false} FindAppend(s: Store, t: Store, id: string)
    ensures Get(s + t, id) == if Get(s, id).Some? then Get(s, id) else Get(t, id)
  {
    if s == [] {
      assert s + t == t;
    } else {
      assert (s + t)[1..] == s[1..] + t;
      FindAppend(s[1..], t, id);
    }
  }

  lemma GetUpdate(s: Store, a: Aircraft, id: string)
    requires DistinctIds(s)
    ensures Get(Update(s, a), id) ==
            if a.id != id || !Accepts(s, a) then Get(s, id)
            else match Get(s, id) case None => Some(a) case Some(b) => Some(b.Assign(a))
  {
    if Find(s, a.id) == |s| {
      FindAppend(s, [a], id);
    } else {
      FindUnique(Update(s, a), id, Find(s, id));
    }
  }

  lemma FindUnique(s: Store, id: string, i: nat)
    requires i <= |s| && (i < |s| ==> s[i].id == id)
    requires forall j :: 0 <= j < i ==> s[j].id != id
    ensures Find(s, id) == i
  {
  }

  lemma GetUnique(s: Store, i: nat)
    requires DistinctIds(s) && i < |s|
    ensures Get(s, s[i].id) == Some(s[i])
  {
  }

  lemma {:induction false} GetRound(s: Store, r: Reference, throws: set<string>, render: Renderer, id: string)
    requires DistinctIds(s)
    ensures Get(Round(s, r, throws, render), id) ==
            match Get(s, id) case None => None case Some(b) => RoundOne(b, r, throws, render)
  {
    if s != [] {
      hide Get, RoundOne, Kept;
      var p, l := s[..|s| - 1], s[|s| - 1];
      LastIsNew(s);
      RoundOneKeepsId(l, r, throws, render);
      GetRound(p, r, throws, render, id);
      assert s == p + [l];
      GetLast(p, l, id);
      GetKept(Round(p, r, throws, render), RoundOne(l, r, throws, render), id);
    }
  }

  lemma RoundOneKeepsId(a: Aircraft, r: Reference, throws: set<string>, render: Renderer)
    ensures RoundOne(a, r, throws, render).Some? ==> RoundOne(a, r, throws, render).value.id == a.id
  {
  }

  lemma LastIsNew(s: Store)
    requires DistinctIds(s) && s != []
    ensures DistinctIds(s[..|s| - 1])
    ensures Get(s[..|s| - 1], s[|s| - 1].id) == None
  {
  }

  lemma GetLast(p: Store, l: Aircraft, id: string)
    ensures Get(p + [l], id) ==
            if Get(p, id).Some? then Get(p, id) else if l.id == id then Some(l) else None
  {
    FindAppend(p, [l], id);
  }

  lemma GetKept(p: Store, o: Option<Aircraft>, id: string)
    ensures Get(p + Kept(o), id) ==
            if Get(p, id).Some? then Get(p, id) else if o.Some? && o.value.id == id then o else None
  {
    if o.Some? {
      GetLast(p, o.value, id);
    } else {
      assert p + Kept(o) == p;
    }
  }

  /** What a history must satisfy: it starts with a record as a feed builds it. */
  predicate Sound(h: History, id: string)
  {
    h.Seen? ==>
      && h.last.id == id && h.last.age == 0 && h.last.serialized == ""
      && (h.first == None <==> h.rounds == 0)
  }

  /** A round does to the expected record what it does to any record. */
  lemma ExpectedAfterRound(h: History, id: string, r: Reference, throws: set<string>, render: Renderer)
    requires Sound(h, id)
    ensures Sound(AfterRound(h, r, id in throws), id)
    ensures Expected(AfterRound(h, r, id in throws), render) ==
            match Expected(h, render) case None => None case Some(b) => RoundOne(b, r, throws, render)
  {
  }

  lemma ExpectedAfterReport(a: Aircraft, born: nat, render: Renderer)
    requires a.age == 0 && a.serialized == ""
    ensures Expected(Seen(a, 0, None, born), render) == Some(a)
  {
  }

  /** For every run of feed reports and rounds, whether or not rendering throws, the store holds
      for each id exactly the record that its history leaves behind. */
  lemma {:induction false} StoreIsHistory(es: seq<Event>, id: string, render: Renderer)
    requires FromFeeds(es)
    ensures Get(Run(es, render), id) == Expected(Track(es, id, render), render)
    ensures Sound(Track(es, id, render), id)
  {
    if es != [] {
      var past, e := es[..|es| - 1], es[|es| - 1];
      StoreIsHistory(past, id, render);
      RunIsDistinct(past, render);
      match e
      case Report(a) =>
        GetUpdate(Run(past, render), a, id);
        if Track(es, id, render).Seen? {
          ExpectedAfterReport(a, Track(es, id, render).born, render);
        }
      case Process(r, throws) =>
        GetRound(Run(past, render), r, throws, render, id);
        ExpectedAfterRound(Track(past, id, render), id, r, throws, render);
    }
  }

  /** Of the last accepted report a stored record keeps everything, except that from age 4 on it is
      a transponder target. */
  lemma StoredIsLastReport(es: seq<Event>, render: Renderer, i: nat)
    requires FromFeeds(es) && i < |Run(es, render)|
    ensures var b := Run(es, render)[i];
            var h := Track(es, b.id, render);
            && h.Seen? && b.id == h.last.id && b.priority == h.last.priority
            && b.info == h.last.info.(targetType :=
                 if b.age < 4 then h.last.info.targetType else Transponder)
            && b.age == h.rounds + (if h.first.Some? && h.first.value.threw then 1 else 0)
  {
    RunIsDistinct(es, render);
    GetUnique(Run(es, render), i);
    StoreIsHistory(es, Run(es, render)[i].id, render);
  }

  /** The number of rounds among some events. */
  function Rounds(es: seq<Event>): nat
  {
    if es == [] then 0 else Rounds(es[..|es| - 1]) + if es[|es| - 1].Process? then 1 else 0
  }

  /** The first round among some events. */
  function FirstRound(es: seq<Event>, id: string): Option<First>
  {
    if es == [] then None
    else if es[0].Process? then Some(First(es[0].r, id in es[0].throws))
    else FirstRound(es[1..], id)
  }

  lemma {:induction false} FirstRoundAppend(es: seq<Event>, e: Event, id: string)
    ensures FirstRound(es + [e], id) ==
            if FirstRound(es, id).Some? then FirstRound(es, id)
            else if e.Process? then Some(First(e.r, id in e.throws)) else None
  {
    if es == [] {
      assert es + [e] == [e] && [e][1..] == [];
    } else {
      assert (es + [e])[1..] == es[1..] + [e];
      FirstRoundAppend(es[1..], e, id);
    }
  }

  /** Event `i` is the last report of `id` that the store has accepted. */
  ghost predicate LastAccepted(es: seq<Event>, i: nat, id: string, render: Renderer)
  {
    && i < |es| && es[i].Report? && es[i].a.id == id && Accepts(Run(es[..i], render), es[i].a)
    && forall j :: i < j < |es| && es[j].Report? && es[j].a.id == id ==>
         !Accepts(Run(es[..j], render), es[j].a)
  }

  lemma RoundsAfter(past: seq<Event>, e: Event, i: nat, id: string)
    requires i < |past|
    ensures var es := past + [e];
            && Rounds(es[i + 1..]) == Rounds(past[i + 1..]) + (if e.Process? then 1 else 0)
            && FirstRound(es[i + 1..], id) ==
               if FirstRound(past[i + 1..], id).Some? then FirstRound(past[i + 1..], id)
               else if e.Process? then Some(First(e.r, id in e.throws)) else None
  {
    var es := past + [e];
    assert es[i + 1..] == past[i + 1..] + [e];
    assert es[i + 1..][..|es[i + 1..]| - 1] == past[i + 1..];
    FirstRoundAppend(past[i + 1..], e, id);
  }

  /** Event `e` is a report of `id` that the store accepts. */
  predicate Taken(past: seq<Event>, e: Event, id: string, render: Renderer)
  {
    e.Report? && e.a.id == id && Accepts(Run(past, render), e.a)
  }

  lemma LastAcceptedNext(past: seq<Event>, e: Event, i: nat, id: string, render: Renderer)
    requires i < |past| ==> LastAccepted(past, i, id, render) && !Taken(past, e, id, render)
    requires i == |past| ==> Taken(past, e, id, render)
    requires i <= |past|
    ensures LastAccepted(past + [e], i, id, render)
  {
    hide Accepts;
    var es := past + [e];
    assert es[..|past|] == past;
    assert forall j :: 0 <= j < |past| ==> es[..j] == past[..j];
  }

  /** How a history goes on: the store accepts the reports that its history accepts. */
  lemma TrackNext(past: seq<Event>, e: Event, id: string, render: Renderer)
    requires FromFeeds(past)
    ensures var h, h' := Track(past, id, render), Track(past + [e], id, render);
            && (Taken(past, e, id, render) ==>
                  h'.Seen? && h'.last == e.a && h'.rounds == 0 && h'.first == None)
            && (!Taken(past, e, id, render) ==>
                  h' == if e.Process? then AfterRound(h, e.r, id in e.throws) else h)
  {
    assert (past + [e])[..|past|] == past;
    StoreIsHistory(past, id, render);
  }

  /** A history is what it says: it has the last report of its id that the store accepted, the number
      of rounds since then, and the first of them. */
  lemma {:induction false} HistoryIsLast(es: seq<Event>, id: string, render: Renderer) returns (i: nat)
    requires FromFeeds(es) && Track(es, id, render).Seen?
    ensures LastAccepted(es, i, id, render)
    ensures var h := Track(es, id, render);
            && es[i].a == h.last && h.rounds == Rounds(es[i + 1..])
            && h.first == FirstRound(es[i + 1..], id)
  {
    assert es != [];
    var past, e := es[..|es| - 1], es[|es| - 1];
    hide Track, Accepts, Run;
    assert es == past + [e];
    TrackNext(past, e, id, render);
    if Taken(past, e, id, render) {
      i := |past|;
      assert es[i + 1..] == [];
    } else {
      i := HistoryIsLast(past, id, render);
      RoundsAfter(past, e, i, id);
    }
    LastAcceptedNext(past, e, i, id, render);
  }

  // ---------- lifetime ----------

  predicate NoThrows(es: seq<Event>)
  {
    forall i :: 0 <= i < |es| && es[i].Process? ==> es[i].throws == {}
  }

  lemma {:induction false} NothingThrew(es: seq<Event>, id: string, render: Renderer)
    requires NoThrows(es)
    ensures !Threw(Track(es, id, render))
  {
    if es != [] {
      NothingThrew(es[..|es| - 1], id, render);
    }
  }

  /** An id is in the store if and only if fewer than 120 rounds have passed since its last
      accepted report, and its age is the number of these rounds. */
  lemma ExactLifetime(es: seq<Event>, id: string, render: Renderer)
    requires FromFeeds(es) && NoThrows(es)
    ensures var h := Track(es, id, render);
            var o := Get(Run(es, render), id);
            && (o.Some? <==> h.Seen? && h.rounds < 120)
            && (o.Some? ==> o.value.age == h.rounds)
  {
    StoreIsHistory(es, id, render);
    NothingThrew(es, id, render);
  }

  // ---------- FLARM preference ----------

  /** In every store a FLARM target is younger than 4, and every record younger than 120. */
  lemma FlarmIsYoung(es: seq<Event>, render: Renderer, i: nat)
    requires FromFeeds(es) && i < |Run(es, render)|
    ensures var a := Run(es, render)[i];
            && a.age < 120
            && (a.info.targetType == Flarm ==> a.age < 4)
  {
    RunIsDistinct(es, render);
    GetUnique(Run(es, render), i);
    StoreIsHistory(es, Run(es, render)[i].id, render);
  }

  /** When a report of a stored aircraft is accepted: an outdated record gives way to any newer
      report, whatever its type and priority; before that a FLARM record gives way to FLARM
      reports only, and no record to a lower priority. */
  lemma AcceptanceRule(es: seq<Event>, render: Renderer, i: nat, a: Aircraft)
    requires FromFeeds(es) && i < |Run(es, render)| && a.id == Run(es, render)[i].id
    ensures var s := Run(es, render);
            var b := s[i];
            Accepts(s, a) <==>
              && Newer(a.info.timeStamp, b.info.timeStamp)
              && (b.age < 4 ==>
                    && (b.info.targetType == Flarm ==> a.info.targetType == Flarm)
                    && a.priority >= b.priority)
  {
    RunIsDistinct(es, render);
    GetUnique(Run(es, render), i);
    FlarmIsYoung(es, render, i);
  }

  // ---------- served text ----------

  /** What must be served for one record: if its age is 1 to 3, the report rendered from its
      current fields and the reference of the first round since its last report. */
  function Due(a: Aircraft, h: History, render: Renderer): string
  {
    if 1 <= a.age < 4 && h.Seen? && h.first.Some? && !Threw(h)
    then render(a.id, a.info, h.first.value.r)
    else ""
  }

  function AllDue(s: Store, es: seq<Event>, render: Renderer): string
  {
    if s == [] then ""
    else AllDue(s[..|s| - 1], es, render) +
         Due(s[|s| - 1], Track(es, s[|s| - 1].id, render), render)
  }

  lemma DueIsServed(es: seq<Event>, render: Renderer, i: nat)
    requires FromFeeds(es) && i < |Run(es, render)|
    ensures var a := Run(es, render)[i];
            var h := Track(es, a.id, render);
            && Due(a, h, render) == (if a.age < OBJ_OUTDATED then a.serialized else "")
            && (1 <= a.age ==> h.Seen? && h.first.Some?)
  {
    RunIsDistinct(es, render);
    GetUnique(Run(es, render), i);
    StoreIsHistory(es, Run(es, render)[i].id, render);
  }

  lemma {:induction false} PrefixIsServed(es: seq<Event>, render: Renderer, n: nat)
    requires FromFeeds(es) && n <= |Run(es, render)|
    ensures Serialized(Run(es, render)[..n]) == AllDue(Run(es, render)[..n], es, render)
  {
    if n > 0 {
      PrefixIsServed(es, render, n - 1);
      DueIsServed(es, render, n - 1);
      assert Run(es, render)[..n][..n - 1] == Run(es, render)[..n - 1];
    }
  }

  /** Served text is never stale or mismatched: it is, in store order, exactly what is due. A
      record whose rendering threw is served as nothing until its next report. */
  lemma ServedIsDue(es: seq<Event>, render: Renderer)
    requires FromFeeds(es)
    ensures Serialized(Run(es, render)) == AllDue(Run(es, render), es, render)
  {
    PrefixIsServed(es, render, |Run(es, render)|);
    assert Run(es, render)[..|Run(es, render)|] == Run(es, render);
  }

  // ---------- insertion order ----------

  function Born(es: seq<Event>, id: string, render: Renderer): nat
  {
    var h := Track(es, id, render);
    if h.Seen? then h.born else 0
  }

  ghost predicate SortedBy(s: Store, key: string -> nat)
  {
    forall i, j :: 0 <= i < j < |s| ==> key(s[i].id) < key(s[j].id)
  }

  lemma {:induction false} RoundKeepsOrder(s: Store, r: Reference, throws: set<string>, render: Renderer, key: string -> nat)
    requires SortedBy(s, key)
    ensures SortedBy(Round(s, r, throws, render), key)
  {
    if s != [] {
      var p, l := s[..|s| - 1], s[|s| - 1];
      var q := Round(p, r, throws, render);
      RoundKeepsOrder(p, r, throws, render, key);
      forall j | 0 <= j < |q| ensures key(q[j].id) < key(l.id) {
        RoundIds(p, r, throws, render, j);
      }
    }
  }

  lemma {:induction false} BornBefore(es: seq<Event>, id: string, render: Renderer)
    requires Track(es, id, render).Seen?
    ensures Born(es, id, render) < |es|
  {
    var past := es[..|es| - 1];
    if Track(past, id, render).Seen? {
      BornBefore(past, id, render);
    }
  }

  /** A report leaves the birth of a stored id alone. */
  lemma StoredKeepsBirth(es: seq<Event>, a: Aircraft, render: Renderer, i: nat)
    requires FromFeeds(es) && i < |Run(es, render)|
    ensures var id := Run(es, render)[i].id;
            Born(es + [Report(a)], id, render) == Born(es, id, render) < |es|
  {
    var id := Run(es, render)[i].id;
    RunIsDistinct(es, render);
    GetUnique(Run(es, render), i);
    StoreIsHistory(es, id, render);
    BornBefore(es, id, render);
    assert (es + [Report(a)])[..|es|] == es;
  }

  /** An id that is not stored is born with its report. */
  lemma NewIsBorn(es: seq<Event>, a: Aircraft, render: Renderer)
    requires FromFeeds(es) && Get(Run(es, render), a.id) == None
    ensures Born(es + [Report(a)], a.id, render) == |es|
  {
    hide Get, Run, Expected, Sound;
    StoreIsHistory(es, a.id, render);
    assert (es + [Report(a)])[..|es|] == es;
  }

  lemma ReportKeepsOrder(s: Store, a: Aircraft, key: string -> nat)
    requires SortedBy(s, key)
    requires Find(s, a.id) == |s| ==> forall i :: 0 <= i < |s| ==> key(s[i].id) < key(a.id)
    ensures SortedBy(Update(s, a), key)
  {
  }

  /** The store is in insertion order, after any number of updates and deletions. */
  lemma {:induction false} InsertionOrder(es: seq<Event>, render: Renderer)
    requires FromFeeds(es)
    ensures SortedBy(Run(es, render), id => Born(es, id, render))
  {
    if es != [] {
      var past, e := es[..|es| - 1], es[|es| - 1];
      var s := Run(past, render);
      var key := (id: string) => Born(past, id, render);
      var key' := (id: string) => Born(es, id, render);
      InsertionOrder(past, render);
      match e
      case Process(r, throws) =>
        RoundKeepsOrder(s, r, throws, render, key);
        assert forall id :: key'(id) == key(id);
      case Report(a) =>
        assert es == past + [Report(a)];
        hide Update, Track, Born;
        forall i | 0 <= i < |s| ensures key'(s[i].id) == key(s[i].id) < |past| {
          StoredKeepsBirth(past, a, render, i);
        }
        if Get(s, a.id) == None {
          NewIsBorn(past, a, render);
        }
        ReportKeepsOrder(s, a, key');
    }
  }
}
