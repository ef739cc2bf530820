/**
 The output server's connection table (include/server/Server.hpp) over its network interface
 (src/server/net/impl/NetworkInterfaceImplBoost.cpp).

 The table is a fixed array of optional connections and a separate 8-bit counter. A connection
 is represented by the address of its peer. `ServerTable` says what the locked operations do to
 the table, `ServerRuns` what holds over all their interleavings with the event thread, and
 `Servers` has the object itself.
 */
module ServerTable {
  import opened Options

  type Table = seq<Option<string>>

  const UINT8 := 256

  predicate Holds(t: Table, address: string)
  {
    exists i :: 0 <= i < |t| && t[i] == Some(address)
  }

  predicate DistinctPeers(t: Table)
  {
    forall i, j :: 0 <= i < j < |t| && t[i].Some? ==> t[i] != t[j]
  }

  /** The number of connections. */
  function Occupied(t: Table): nat
  {
    if t == [] then 0 else Occupied(t[..|t| - 1]) + if t[|t| - 1].Some? then 1 else 0
  }

  /** The first free slot, or the size of the table. */
  function FirstFree(t: Table): (i: nat)
    ensures i <= |t|
    ensures i < |t| ==> t[i] == None
    ensures forall j :: 0 <= j < i ==> t[j].Some?
  {
    if t == [] || t[0] == None then 0 else 1 + FirstFree(t[1..])
  }

  /** The table without the connections to `lost`. */
  function Prune(t: Table, lost: set<string>): (r: Table)
    ensures |r| == |t|
    ensures forall i :: 0 <= i < |t| ==>
              r[i] == if t[i].Some? && t[i].value in lost then None else t[i]
  {
    seq(|t|, i requires 0 <= i < |t| => if t[i].Some? && t[i].value in lost then None else t[i])
  }

  /** The counter after one decrement for each slot that pruning frees. */
  function CountDown(active: nat, t: Table, lost: set<string>): nat
  {
    if t == [] then active
    else
      var n := CountDown(active, t[..|t| - 1], lost);
      if t[|t| - 1].Some? && t[|t| - 1].value in lost then (n + UINT8 - 1) % UINT8 else n
  }

  function Empty(n: nat): Table
  {
    seq(n, _ => None)
  }

  // ---------- counting ----------

  lemma {:induction false} OccupiedBound(t: Table)
    ensures Occupied(t) <= |t|
  {
    if t != [] {
      OccupiedBound(t[..|t| - 1]);
    }
  }

  /** A table with fewer connections than slots has a free slot. */
  lemma {:induction false} FreeSlotExists(t: Table)
    requires Occupied(t) < |t|
    ensures FirstFree(t) < |t|
  {
    if t[|t| - 1].Some? {
      FreeSlotExists(t[..|t| - 1]);
      var i := FirstFree(t[..|t| - 1]);
      assert t[i] == None;
    }
  }

  lemma {:induction false} OccupiedFill(t: Table, i: nat, address: string)
    requires i < |t| && t[i] == None
    ensures Occupied(t[i := Some(address)]) == Occupied(t) + 1
  {
    var t' := t[i := Some(address)];
    var p := t[..|t| - 1];
    if i == |t| - 1 {
      assert t'[..|t| - 1] == p;
    } else {
      assert t'[..|t| - 1] == p[i := Some(address)];
      OccupiedFill(p, i, address);
    }
  }

  /** How a counter modulo 256 goes up and down. */
  lemma Wraps(n: nat)
    ensures (n % UINT8 + 1) % UINT8 == (n + 1) % UINT8
    ensures n > 0 ==> (n % UINT8 + UINT8 - 1) % UINT8 == (n - 1) % UINT8
  {
    assert n == n / UINT8 * UINT8 + n % UINT8;
  }

  /** Pruning: the counter follows the table, modulo 256. */
  lemma {:induction false} OccupiedPrune(n: nat, t: Table, lost: set<string>)
    requires Occupied(t) <= n
    ensures Occupied(Prune(t, lost)) <= Occupied(t)
    ensures CountDown(n % UINT8, t, lost) == (n - Occupied(t) + Occupied(Prune(t, lost))) % UINT8
  {
    if t != [] {
      var p := t[..|t| - 1];
      OccupiedPrune(n, p, lost);
      assert Prune(t, lost)[..|t| - 1] == Prune(p, lost);
      Wraps(n - Occupied(p) + Occupied(Prune(p, lost)));
    }
  }

  lemma {:induction false} OccupiedEmpty(n: nat)
    ensures Occupied(Empty(n)) == 0
  {
    if n > 0 {
      assert Empty(n)[..n - 1] == Empty(n - 1);
      OccupiedEmpty(n - 1);
    }
  }
}

module ServerRuns {
  import opened Options
  import opened ServerTable

  /** Where the event thread is: in its loop, in attemptConnection waiting for the mutex, or
      about to call accept(). */
  datatype Io = Loop | Attempt(error: bool) | Rearm | Off

  /** `socket` is the peer of the socket that the next connection arrives on, if it is open;
      `accepting` says that an asynchronous accept is pending on it. */
  datatype State = State(
    table: Table,
    active: nat,
    running: bool,
    listening: bool,
    stopped: bool,
    socket: Option<string>,
    accepting: bool,
    io: Io)
  {
    /** The locked part of attemptConnection without error. Asking a closed socket for its
        address throws, and the handler closes it. */
    function Admit(): State
    {
      if active < |table| && socket.Some? && !Holds(table, socket.value) then
        var i := FirstFree(table);
        if i < |table|
        then this.(table := table[i := socket], active := (active + 1) % UINT8, socket := None)
        else this
      else this.(socket := None)
    }

    function Send(empty: bool, lost: set<string>): State
    {
      if empty || active == 0 then this
      else this.(table := Prune(table, lost), active := CountDown(active, table, lost))
    }

    function Stop(): State
    {
      if !running then this
      else this.(running := false, table := Empty(|table|), active := 0,
                 listening := false, stopped := true, socket := None, accepting := false)
    }

    function Accept(): State
    {
      this.(accepting := accepting || listening)
    }
  }

  datatype Label =
    | Run                         // start the event thread
    | Rearmed                     // the event thread calls accept()
    | Arrive(address: string)     // the pending accept succeeds, which needs a closed socket,
                                  // and its handler is dispatched
    | Fail                        // the pending accept fails
    | Attempted                   // attemptConnection gets the mutex
    | Sent(empty: bool, lost: set<string>)
    | Stopped

  function Init(max: nat): State
  {
    State(Empty(max), 0, false, true, false, None, false, Off)
  }

  predicate Enabled(s: State, l: Label)
  {
    match l
    case Run => s.io == Off
    case Rearmed => s.io == Rearm
    case Arrive(_) => s.io == Loop && s.accepting && !s.stopped && s.socket == None
    case Fail => s.io == Loop && s.accepting && !s.stopped
    case Attempted => s.io.Attempt?
    case Sent(_, _) => true
    case Stopped => true
  }

  function Step(s: State, l: Label): State
    requires Enabled(s, l)
  {
    match l
    case Run => s.(running := true, io := Rearm)
    case Rearmed => s.Accept().(io := Loop)
    case Arrive(address) => s.(socket := Some(address), accepting := false, io := Attempt(false))
    case Fail => s.(accepting := false, io := Attempt(true))
    case Attempted => (if s.io.error then s else s.Admit()).(io := Rearm)
    case Sent(empty, lost) => s.Send(empty, lost)
    case Stopped => s.Stop()
  }

  function Exec(s: State, ls: seq<Label>): Option<State>
    decreases ls
  {
    if ls == [] then Some(s)
    else if Enabled(s, ls[0]) then Exec(Step(s, ls[0]), ls[1..])
    else None
  }

  ghost predicate Reachable(s: State)
  {
    exists ls :: Exec(Init(|s.table|), ls) == Some(s)
  }

  // ---------- the invariant ----------

  /** The counter is the number of occupied slots. */
  predicate Consistent(s: State)
  {
    s.active == Occupied(s.table)
  }

  /** For a table of any size the counter is the number of occupied slots modulo 256. */
  ghost predicate Inv(s: State)
  {
    && s.active == Occupied(s.table) % UINT8
    && DistinctPeers(s.table)
    && s.stopped == !s.listening
    && (s.stopped ==> !s.running && s.table == Empty(|s.table|) && s.socket == None && !s.accepting)
    && (|s.table| < UINT8 && s.socket.Some? ==> s.io == Attempt(false))
    && (s.io == Off ==> !s.running && !s.accepting && !s.stopped && s.table == Empty(|s.table|))
    && (s.io != Off ==> s.running == !s.stopped)
    && (s.io != Off && !s.stopped ==> (s.accepting <==> s.io == Loop))
  }

  /** A small table has a free slot whenever the counter is below its size. */
  lemma SmallIsConsistent(s: State)
    requires s.active == Occupied(s.table) % UINT8
    ensures Occupied(s.table) <= |s.table|
    ensures |s.table| < UINT8 ==> Consistent(s)
    ensures Occupied(s.table) < |s.table| ==> FirstFree(s.table) < |s.table|
    ensures Occupied(s.table) == |s.table| ==> FirstFree(s.table) == |s.table|
  {
    OccupiedBound(s.table);
    if Occupied(s.table) < |s.table| {
      FreeSlotExists(s.table);
    } else {
      AllOccupied(s.table);
    }
  }

  lemma {:induction false} AllOccupied(t: Table)
    requires Occupied(t) == |t|
    ensures forall i :: 0 <= i < |t| ==> t[i].Some?
  {
    if t != [] {
      OccupiedBound(t[..|t| - 1]);
      AllOccupied(t[..|t| - 1]);
      assert t == t[..|t| - 1] + [t[|t| - 1]];
    }
  }

  lemma AdmitKeepsInv(s: State)
    requires Inv(s) && s.io == Attempt(false)
    ensures Inv(s.Admit().(io := Rearm))
  {
    hide Occupied, DistinctPeers, Holds, Empty;
    SmallIsConsistent(s);
    if s.active < |s.table| && s.socket.Some? && !Holds(s.table, s.socket.value)
       && FirstFree(s.table) < |s.table| {
      OccupiedFill(s.table, FirstFree(s.table), s.socket.value);
      Wraps(Occupied(s.table));
      FillKeepsDistinct(s.table, FirstFree(s.table), s.socket.value);
    }
  }

  lemma FillKeepsDistinct(t: Table, i: nat, address: string)
    requires DistinctPeers(t) && !Holds(t, address) && i < |t|
    ensures DistinctPeers(t[i := Some(address)])
  {
  }

  lemma PruneKeepsDistinct(t: Table, lost: set<string>)
    requires DistinctPeers(t)
    ensures DistinctPeers(Prune(t, lost))
    ensures t == Empty(|t|) ==> Prune(t, lost) == t
  {
  }

  lemma SendKeepsInv(s: State, empty: bool, lost: set<string>)
    requires Inv(s)
    ensures Inv(s.Send(empty, lost))
  {
    OccupiedPrune(Occupied(s.table), s.table, lost);
    PruneKeepsDistinct(s.table, lost);
  }

  lemma StepKeepsInv(s: State, l: Label)
    requires Inv(s) && Enabled(s, l)
    ensures Inv(Step(s, l)) && |Step(s, l).table| == |s.table|
  {
    match l
    case Attempted => if !s.io.error { AdmitKeepsInv(s); }
    case Sent(empty, lost) => SendKeepsInv(s, empty, lost);
    case Stopped => OccupiedEmpty(|s.table|);
    case _ =>
  }

  lemma {:induction false} RunKeepsInv(s: State, ls: seq<Label>)
    requires Inv(s) && Exec(s, ls).Some?
    ensures Inv(Exec(s, ls).value)
    decreases ls
  {
    if ls != [] {
      StepKeepsInv(s, ls[0]);
      RunKeepsInv(Step(s, ls[0]), ls[1..]);
    }
  }

  lemma ReachableInv(s: State)
    requires Reachable(s)
    ensures Inv(s)
  {
    var ls :| Exec(Init(|s.table|), ls) == Some(s);
    OccupiedEmpty(|s.table|);
    RunKeepsInv(Init(|s.table|), ls);
  }

  // ---------- the guarantees, for tables of any size ----------

  /** Over all runs no two connections have the same peer, and the 8-bit counter is the number of
      occupied slots modulo 256. */
  lemma TableStaysConsistent(s: State)
    requires Reachable(s)
    ensures DistinctPeers(s.table)
    ensures s.active == Occupied(s.table) % 256
    ensures |s.table| < 256 ==> s.active == Occupied(s.table) <= |s.table|
  {
    ReachableInv(s);
    SmallIsConsistent(s);
  }

  /** A peer is admitted if and only if it is new and some slot is free. It then gets a slot that
      was free, and the others keep theirs; otherwise nothing changes. The socket is closed or
      handed over, unless the peer is new, every slot is taken and the counter says otherwise. */
  lemma AdmittedIffRoom(s: State)
    requires Reachable(s) && s.io == Attempt(false) && s.socket.Some?
    ensures var s', i := Step(s, Attempted), FirstFree(s.table);
            var unknown := !Holds(s.table, s.socket.value);
            var room := Occupied(s.table) < |s.table|;
            && (room ==> i < |s.table|)
            && s'.table == (if unknown && room then s.table[i := s.socket] else s.table)
            && s'.active == (if unknown && room then (s.active + 1) % 256 else s.active)
            && (s'.socket.Some? <==> unknown && !room && s.active < |s.table|)
  {
    ReachableInv(s);
    SmallIsConsistent(s);
  }

  /** A message that is sent drops exactly the connections that are lost, unless it is empty or the
      counter is 0, and changes nothing else. */
  lemma SendDropsLost(s: State, empty: bool, lost: set<string>)
    requires Reachable(s)
    ensures var s' := Step(s, Sent(empty, lost));
            var written := !empty && s.active != 0;
            && s' == s.(table := s'.table, active := s'.active)
            && |s'.table| == |s.table|
            && (forall i :: 0 <= i < |s.table| ==>
                  s'.table[i] ==
                  if written && s.table[i].Some? && s.table[i].value in lost then None else s.table[i])
            && s'.active == Occupied(s'.table) % 256
  {
    ReachableInv(s);
    StepKeepsInv(s, Sent(empty, lost));
  }

  /** A failed accept changes nothing, and neither does a stop of a server that does not run. */
  lemma FailedAcceptIgnored(s: State)
    ensures s.io == Attempt(true) ==> Step(s, Attempted) == s.(io := Rearm)
    ensures !s.running ==> Step(s, Stopped) == s
  {
  }

  /** While the server runs, its event thread is accepting, or it is on its way to accept again. */
  lemma AlwaysAccepting(s: State)
    requires Reachable(s) && s.running
    ensures s.accepting || s.io.Attempt? || s.io == Rearm
    ensures s.accepting ==> s.io == Loop
  {
    ReachableInv(s);
  }

  lemma {:induction false} StoppedStaysEmpty(s: State, ls: seq<Label>)
    requires Inv(s) && s.stopped && Exec(s, ls).Some?
    ensures var s' := Exec(s, ls).value;
            s'.stopped && s'.table == Empty(|s.table|) && s'.active == 0
    decreases ls
  {
    OccupiedEmpty(|s.table|);
    if ls != [] {
      StepKeepsInv(s, ls[0]);
      StoppedStaysEmpty(Step(s, ls[0]), ls[1..]);
    }
  }

  /** After stop no later handler, and none already in flight, occupies a slot. */
  lemma StopIsFinal(s: State, ls: seq<Label>)
    requires Reachable(s) && s.running && Exec(Step(s, Stopped), ls).Some?
    ensures Exec(Step(s, Stopped), ls).value.table == Empty(|s.table|)
    ensures Exec(Step(s, Stopped), ls).value.active == 0
  {
    ReachableInv(s);
    StepKeepsInv(s, Stopped);
    StoppedStaysEmpty(Step(s, Stopped), ls);
  }

  // ---------- exactly the tables below 256 slots are sound ----------

  /** The counter is the number of connections. */
  ghost predicate AlwaysConsistent(max: nat)
  {
    forall s :: Reachable(s) && |s.table| == max ==> Consistent(s)
  }

  /** A message reaches the table: every connection that is lost is dropped. */
  ghost predicate AlwaysDelivers(max: nat)
  {
    forall s, lost, address :: Reachable(s) && |s.table| == max && address in lost ==>
      !Holds(s.Send(false, lost).table, address)
  }

  /** An accept is made on a closed socket only. */
  ghost predicate AlwaysListens(max: nat)
  {
    forall s :: Reachable(s) && |s.table| == max && s.accepting ==> s.socket == None
  }

  lemma {:induction false} ExecAppend(s: State, a: seq<Label>, b: seq<Label>)
    requires Exec(s, a).Some?
    ensures Exec(s, a + b) == Exec(Exec(s, a).value, b)
    decreases a
  {
    if a == [] {
      assert a + b == b;
    } else {
      assert (a + b)[1..] == a[1..] + b;
      ExecAppend(Step(s, a[0]), a[1..], b);
    }
  }

  lemma ReachableStep(s: State, l: Label)
    requires Reachable(s) && Enabled(s, l) && |Step(s, l).table| == |s.table|
    ensures Reachable(Step(s, l))
  {
    var ls :| Exec(Init(|s.table|), ls) == Some(s);
    ExecAppend(Init(|s.table|), ls, [l]);
    assert [l][1..] == [];
  }

  /** Peers with different addresses. */
  function Name(n: nat): (a: string)
    ensures |a| == n
  {
    seq(n, _ => 'x')
  }

  /** A table of `max` slots after the first `n` peers. */
  function FilledTable(max: nat, n: nat): Table
  {
    seq(max, i => if 0 <= i < n then Some(Name(i)) else None)
  }

  /** The server when its event thread has admitted `n` peers. */
  function Filled(max: nat, n: nat): State
  {
    State(FilledTable(max, n), n % UINT8, true, true, false, None, false, Rearm)
  }

  /** The server when the next peer has arrived. */
  function Arrived(max: nat, n: nat): State
  {
    Filled(max, n).(socket := Some(Name(n)), io := Attempt(false))
  }

  lemma ArrivedFromFilled(max: nat, n: nat)
    requires Reachable(Filled(max, n))
    ensures Reachable(Arrived(max, n))
  {
    var s := Filled(max, n);
    ReachableStep(s, Rearmed);
    ReachableStep(Step(s, Rearmed), Arrive(Name(n)));
    assert Step(Step(s, Rearmed), Arrive(Name(n))) == Arrived(max, n);
  }

  lemma NewName(max: nat, n: nat)
    requires n <= max
    ensures !Holds(FilledTable(max, n), Name(n))
    ensures FirstFree(FilledTable(max, n)) == n
    ensures n < max ==> FilledTable(max, n)[n := Some(Name(n))] == FilledTable(max, n + 1)
  {
    var i := FirstFree(FilledTable(max, n));
    assert i < max ==> FilledTable(max, n)[i] == None;
    assert n < max ==> FilledTable(max, n)[n] == None;
  }

  lemma {:induction false} FilledOccupied(max: nat, n: nat)
    requires n <= max
    ensures Occupied(FilledTable(max, n)) == n
  {
    if n == 0 {
      assert FilledTable(max, 0) == Empty(max);
      OccupiedEmpty(max);
    } else {
      FilledOccupied(max, n - 1);
      NewName(max, n - 1);
      OccupiedFill(FilledTable(max, n - 1), n - 1, Name(n - 1));
    }
  }

  /** A large table can be filled: the counter wraps and does not stop it. */
  lemma {:induction false} FilledIsReachable(max: nat, n: nat)
    requires UINT8 <= max && n <= max
    ensures Reachable(Filled(max, n))
  {
    if n == 0 {
      assert |Init(max).table| == max && Exec(Init(max), []) == Some(Init(max));
      ReachableStep(Init(max), Run);
      assert FilledTable(max, 0) == Empty(max);
    } else {
      hide FilledTable;
      FilledIsReachable(max, n - 1);
      ArrivedFromFilled(max, n - 1);
      AdmitNext(max, n - 1);
      ReachableStep(Arrived(max, n - 1), Attempted);
    }
  }

  lemma AdmitNext(max: nat, n: nat)
    requires UINT8 <= max && n < max
    ensures Step(Arrived(max, n), Attempted) == Filled(max, n + 1)
  {
    NewName(max, n);
    Wraps(n);
  }

  /** The failure: with 256 slots or more, a server with 256 connections counts none. */
  lemma CounterWraps(max: nat)
    requires 256 <= max
    ensures Reachable(Filled(max, 256)) && |Filled(max, 256).table| == max
    ensures Occupied(Filled(max, 256).table) == 256 && Filled(max, 256).active == 0
  {
    FilledIsReachable(max, UINT8);
    FilledOccupied(max, UINT8);
  }

  /** The counter is the number of connections in every run, if and only if the table has fewer
      than 256 slots. */
  lemma ConsistentIff(max: nat)
    ensures AlwaysConsistent(max) <==> max < 256
  {
    if max < UINT8 {
      forall s | Reachable(s) && |s.table| == max ensures Consistent(s) {
        TableStaysConsistent(s);
      }
    } else {
      CounterWraps(max);
      assert !Consistent(Filled(max, UINT8));
    }
  }

  lemma {:induction false} NoneOccupied(t: Table)
    requires Occupied(t) == 0
    ensures forall i :: 0 <= i < |t| ==> t[i] == None
  {
    if t != [] {
      NoneOccupied(t[..|t| - 1]);
      assert t == t[..|t| - 1] + [t[|t| - 1]];
    }
  }

  /** A message is written to the connections in every run, if and only if the table has fewer
      than 256 slots: the wrapped counter makes `send` return at once. */
  lemma DeliversIff(max: nat)
    ensures AlwaysDelivers(max) <==> max < 256
  {
    if max < UINT8 {
      forall s, lost, address | Reachable(s) && |s.table| == max && address in lost
        ensures !Holds(s.Send(false, lost).table, address)
      {
        TableStaysConsistent(s);
        SendDropsLost(s, false, lost);
        if s.active == 0 {
          NoneOccupied(s.table);
        }
      }
    } else {
      CounterWraps(max);
      var s := Filled(max, UINT8);
      assert s.table[0] == Some(Name(0)) && Name(0) in {Name(0)};
      assert Holds(s.Send(false, {Name(0)}).table, Name(0));
    }
  }

  /** One peer too many on a full table: it is neither admitted nor refused. */
  function Jammed(max: nat): State
  {
    Arrived(max, max).(io := Loop, accepting := true)
  }

  lemma JammedIsReachable(max: nat)
    requires UINT8 <= max
    ensures Reachable(Jammed(max)) && |Jammed(max).table| == max
  {
    FilledIsReachable(max, max);
    ArrivedFromFilled(max, max);
    NewName(max, max);
    var s := Arrived(max, max);
    ReachableStep(s, Attempted);
    ReachableStep(Step(s, Attempted), Rearmed);
    assert Step(Step(s, Attempted), Rearmed) == Jammed(max);
  }

  /** Every accept is made on a closed socket, if and only if the table has fewer than 256 slots. */
  lemma ListensIff(max: nat)
    ensures AlwaysListens(max) <==> max < 256
  {
    if max < UINT8 {
      forall s | Reachable(s) && |s.table| == max && s.accepting ensures s.socket == None {
        ReachableInv(s);
      }
    } else {
      JammedIsReachable(max);
    }
  }

  lemma {:induction false} DeafStays(s: State, ls: seq<Label>)
    requires Inv(s) && Exec(s, ls).Some?
    requires s.stopped || (s.socket.Some? && s.io != Attempt(false))
    ensures forall l :: l in ls ==> !l.Arrive?
    decreases ls
  {
    if ls != [] {
      StepKeepsInv(s, ls[0]);
      DeafStays(Step(s, ls[0]), ls[1..]);
      assert ls == [ls[0]] + ls[1..];
    }
  }

  /** A server that accepts on an open socket is deaf from then on: whatever is sent and whoever
      disconnects, no peer ever arrives again. */
  lemma JammedIsDeaf(s: State, ls: seq<Label>)
    requires Reachable(s) && s.accepting && s.socket.Some? && Exec(s, ls).Some?
    ensures forall l :: l in ls ==> !l.Arrive?
  {
    ReachableInv(s);
    DeafStays(s, ls);
  }
}

module Servers {
  import opened Options
  import opened ServerTable
  import opened ServerRuns

  class Server {
    const connections: array<Option<string>>
    var active: nat
    var running: bool
    // the network interface
    var listening: bool
    var stopped: bool
    var socket: Option<string>
    var accepting: bool
    var io: Io

    function View(): State
      reads this, connections
    {
      State(connections[..], active, running, listening, stopped, socket, accepting, io)
    }

    constructor (max: nat)
      ensures View() == Init(max) && fresh(connections)
    {
      connections := new Option<string>[max](_ => None);
      active, running, listening, stopped := 0, false, true, false;
      socket, accepting, io := None, false, Off;
      new;
      assert connections[..] == Empty(max);
    }

    method IsConnected(address: string) returns (r: bool)
      ensures r == Holds(connections[..], address)
    {
      for i := 0 to connections.Length
        invariant forall j :: 0 <= j < i ==> connections[j] != Some(address)
      {
        if connections[i] == Some(address) {
          return true;
        }
      }
      return false;
    }

    /** The locked part of attemptConnection, without error. */
    method Admit()
      modifies this, connections
      ensures View() == old(View()).Admit()
    {
      if active < connections.Length && socket.Some? {
        var known := IsConnected(socket.value);
        if known {
          socket := None;
          return;
        }
        var i := 0;
        while i < connections.Length && connections[i] != None
          invariant 0 <= i <= connections.Length
          invariant forall j :: 0 <= j < i ==> connections[j].Some?
        {
          i := i + 1;
        }
        assert i == FirstFree(connections[..]);
        if i < connections.Length {
          connections[i] := socket;
          socket := None;
          active := (active + 1) % UINT8;
        }
      } else {
        socket := None;
      }
    }

    /** Writing fails for the peers in `lost`. */
    method Send(msg: string, lost: set<string>)
      modifies this`active, connections
      ensures View() == old(View()).Send(msg == "", lost)
    {
      if msg == "" || active == 0 {
        return;
      }
      ghost var t := connections[..];
      for i := 0 to connections.Length
        modifies this`active, connections
        invariant active == CountDown(old(active), t[..i], lost)
        invariant forall j :: 0 <= j < connections.Length ==>
                    connections[j] == if j < i then Prune(t, lost)[j] else t[j]
      {
        assert t[..i + 1][..i] == t[..i];
        if connections[i].Some? {
          if connections[i].value in lost {
            connections[i] := None;
            active := (active + UINT8 - 1) % UINT8;
          }
        }
      }
      assert t[..connections.Length] == t;
      assert connections[..] == Prune(t, lost);
    }

    method Stop()
      modifies this, connections
      ensures View() == old(View()).Stop()
    {
      if running {
        running := false;
        for i := 0 to connections.Length
          modifies connections
          invariant forall j :: 0 <= j < i ==> connections[j] == None
        {
          if connections[i].Some? {
            connections[i] := None;
          }
        }
        assert connections[..] == Empty(connections.Length);
        active := 0;
        listening, stopped, socket, accepting := false, true, None, false;
      }
    }

    method Accept()
      modifies this`accepting
      ensures View() == old(View()).Accept()
    {
      if listening {
        accepting := true;
      }
    }

    /** The accept handler gets the mutex; it ends by calling accept(), which locks anew. */
    method AttemptConnection()
      requires Enabled(View(), Attempted)
      modifies this, connections
      ensures View() == Step(old(View()), Attempted)
    {
      if !io.error {
        Admit();
      }
      io := Rearm;
    }
  }
}
