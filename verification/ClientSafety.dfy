/**
 What every run of every input client keeps: the invariant of the connection protocol and
 the guarantees that follow from it.
 */
module ClientSafety {
  import opened Options
  import opened Connectors
  import opened ClientProtocol

  // ---------- the invariant ----------

  const DRIVERS: set<Kind> := {Resolve, Connect, Handshake, Reconnect}

  /** What may be outstanding while a client of this kind is running. */
  function Traffic(kind: ClientKind, unwatching: bool): set<Kind>
  {
    match kind
    case Sbs => {Kind.Read}
    case Gpsd => if unwatching then {Kind.Read, Unwatch} else {Kind.Read}
    case Aprsc => {Kind.Read, KeepAlive, Beacon}
    case Sensor => {Kind.Read, Deadline}
  }

  /** `o` is the only outstanding operation. A completed one has result `code`. */
  predicate Alone(c: Conn, o: Op, code: ErrorCode)
  {
    || (c.pending == [o] && c.queue == [] && c.running == None)
    || (c.pending == [] && c.queue == [Completion(o, code)] && c.running == None)
    || (c.pending == [] && c.queue == [] && c.running == Some(Completion(o, code)))
  }

  /** A connection attempt is under way, and nothing else is outstanding. */
  ghost predicate Attempting(w: World)
  {
    exists k, code :: AttemptingWith(w, k, code)
  }

  predicate AttemptingWith(w: World, k: Kind, code: ErrorCode)
  {
    && k in {Resolve, Connect, Handshake}
    && Alone(w.conn, Op(k, w.gen), code)
    && (k == Resolve ==> w.conn.running == None)
    && (k == Connect && w.conn.pending == [] && code == Success ==> w.conn.open)
    && (k == Handshake ==> w.conn.open && w.kind in {Gpsd, Aprsc})
  }

  /** A leftover of a connection that was given up: only handlers that require RUNNING. */
  predicate Stale(e: Completion, gen: nat)
  {
    e.op.gen < gen && e.op.kind in {Kind.Read, KeepAlive, Deadline, Beacon}
  }

  /** The first `n` completions of the queue are leftovers. */
  predicate StaleUpTo(q: seq<Completion>, n: nat, gen: nat)
    requires n <= |q|
  {
    forall i :: 0 <= i < n ==> Stale(q[i], gen)
  }

  /** The reconnect wait is outstanding and will succeed, and every leftover is ahead of it. */
  predicate Waiting(w: World)
  {
    Timing(w) || Draining(w) || Ringing(w)
  }

  /** The timer is running. */
  predicate Timing(w: World)
  {
    && w.conn.pending == [Op(Kind.Reconnect, w.gen)]
    && StaleUpTo(w.conn.queue, |w.conn.queue|, w.gen)
    && StaleInFlight(w)
  }

  /** The timer has expired, and its completion is the last in the queue. */
  predicate Draining(w: World)
  {
    var q := w.conn.queue;
    && w.conn.pending == []
    && q != []
    && q[|q| - 1] == Completion(Op(Kind.Reconnect, w.gen), Success)
    && StaleUpTo(q, |q| - 1, w.gen)
    && StaleInFlight(w)
  }

  /** handleTimedConnect is next, and nothing else is left. */
  predicate Ringing(w: World)
  {
    && w.conn.pending == []
    && w.conn.queue == []
    && w.conn.running == Some(Completion(Op(Kind.Reconnect, w.gen), Success))
  }

  predicate StaleInFlight(w: World)
  {
    w.conn.running.Some? ==> Stale(w.conn.running.value, w.gen)
  }

  ghost predicate Connected(w: World)
  {
    && w.conn.open
    && (w.unwatching ==> w.kind == Gpsd)
    && w.conn.Only(w.gen, Traffic(w.kind, w.unwatching))
    && w.conn.Number(Kind.Read) == 1
    && (w.kind == Aprsc ==> w.conn.Number(KeepAlive) == 1 && KeepAliveSucceeds(w.conn))
    && (w.kind == Sensor ==> w.conn.Number(Deadline) == 1)
  }

  ghost predicate KeepAliveSucceeds(c: Conn)
  {
    && (forall e :: e in c.queue && e.op.kind == KeepAlive ==> e.code == Success)
    && (c.running.Some? && c.running.value.op.kind == KeepAlive ==> c.running.value.code == Success)
  }

  /** After the connector was stopped, only a handler that was already in flight may still run. */
  predicate Halted(w: World)
  {
    && w.conn.stopped
    && !w.unwatching
    && w.state in {STOPPING, CONNECTING}
    && (w.conn.running.Some? ==> w.state == STOPPING)
  }

  ghost predicate Live(w: World)
  {
    && !w.conn.stopped
    && (w.state == CONNECTING || w.state == RUNNING)
    && (w.state == CONNECTING ==> !w.unwatching && (Attempting(w) || Waiting(w)))
    && (w.state == RUNNING ==> Connected(w))
  }

  ghost predicate Inv(w: World)
  {
    match w.thread
    case Idle => w.state == NONE && w.conn == FRESH && !w.unwatching
    case Looping => Halted(w) || Live(w)
    case Returned => w.state == NONE && w.conn.stopped && w.conn.running == None && !w.unwatching
  }

  // ---------- every step keeps it ----------

  lemma CompleteConnected(w: World, i: nat, code: ErrorCode, leftOpen: bool)
    requires Connected(w) && w.conn.CanComplete(i, code)
    ensures Connected(w.(conn := w.conn.Complete(i, code, leftOpen)))
  {
    assert w.conn.pending[i] in w.conn.pending;
    CompleteKeeps(w.conn, i, code, leftOpen, Kind.Read);
    CompleteKeeps(w.conn, i, code, leftOpen, KeepAlive);
    CompleteKeeps(w.conn, i, code, leftOpen, Deadline);
  }

  lemma CompleteAttempting(w: World, k: Kind, was: ErrorCode, i: nat, code: ErrorCode, leftOpen: bool)
    requires AttemptingWith(w, k, was) && w.conn.CanComplete(i, code)
    ensures AttemptingWith(w.(conn := w.conn.Complete(i, code, leftOpen)), k, code)
  {
  }

  lemma CompleteWaiting(w: World, i: nat, code: ErrorCode, leftOpen: bool)
    requires Waiting(w) && w.conn.CanComplete(i, code)
    ensures Draining(w.(conn := w.conn.Complete(i, code, leftOpen)))
  {
  }

  lemma CompleteStep(w: World, i: nat, code: ErrorCode, leftOpen: bool)
    requires Inv(w) && Enabled(w, Label.Complete(i, code, leftOpen))
    ensures Inv(Step(w, Label.Complete(i, code, leftOpen)))
  {
    if w.thread == Looping && Live(w) {
      if w.state == RUNNING {
        CompleteConnected(w, i, code, leftOpen);
      } else if Waiting(w) {
        CompleteWaiting(w, i, code, leftOpen);
      } else {
        var k, was :| AttemptingWith(w, k, was);
        CompleteAttempting(w, k, was, i, code, leftOpen);
      }
    }
  }

  lemma DispatchConnected(w: World, nowOpen: bool)
    requires Connected(w) && w.conn.CanDispatch()
    ensures Connected(w.(conn := w.conn.Dispatch(nowOpen)))
  {
    assert w.conn.queue[0] in w.conn.queue;
    DispatchKeeps(w.conn, nowOpen, Kind.Read);
    DispatchKeeps(w.conn, nowOpen, KeepAlive);
    DispatchKeeps(w.conn, nowOpen, Deadline);
  }

  lemma DispatchAttempting(w: World, k: Kind, code: ErrorCode, nowOpen: bool)
    requires AttemptingWith(w, k, code) && w.conn.CanDispatch()
    ensures AttemptingWith(w.(conn := w.conn.Dispatch(nowOpen)), if k == Resolve then Connect else k,
                           if k == Resolve then Failure else code)
  {
    assert w.conn.queue[1..] == [];
  }

  lemma DispatchWaiting(w: World, nowOpen: bool)
    requires Waiting(w) && w.conn.CanDispatch()
    ensures Waiting(w.(conn := w.conn.Dispatch(nowOpen)))
  {
    var q := w.conn.queue;
    assert forall i :: 0 <= i < |q| - 1 ==> q[1..][i] == q[i + 1];
  }

  lemma DispatchStep(w: World, nowOpen: bool)
    requires Inv(w) && Enabled(w, Label.Dispatch(nowOpen))
    ensures Inv(Step(w, Label.Dispatch(nowOpen)))
  {
    if w.state == RUNNING {
      DispatchConnected(w, nowOpen);
    } else if Waiting(w) {
      DispatchWaiting(w, nowOpen);
    } else {
      var k, code :| AttemptingWith(w, k, code);
      DispatchAttempting(w, k, code, nowOpen);
    }
  }

  // ----- handlers -----

  const LEFTOVERS: set<Kind> := {Kind.Read, KeepAlive, Deadline, Beacon}

  /** Giving up a connection leaves the reconnect wait pending, behind everything cancelled. */
  lemma ReconnectWaits(w: World)
    requires w.state != STOPPING && w.conn.running == None
    requires w.conn.Only(w.gen, LEFTOVERS)
    requires w.conn.open || w.conn.pending == []
    ensures Timing(w.Reconnect()) && w.Reconnect().state == CONNECTING
    ensures w.Reconnect().conn.stopped == w.conn.stopped
    ensures w.Reconnect().unwatching == w.unwatching && w.Reconnect().thread == w.thread
  {
    var c1 := w.conn.Cancel(WAITS);
    SelectedMembers(w.conn.pending, WAITS);
    AllSelected(c1.pending, SOCKET);
    CancelKeepsOnly(w.conn, WAITS, w.gen, LEFTOVERS);
    CancelKeepsOnly(c1, SOCKET, w.gen, LEFTOVERS);
    var c := w.conn.Close();
    assert c.OnTimeout(Kind.Reconnect, w.gen + 1, true).queue == c.queue;
    forall i | 0 <= i < |c.queue| ensures Stale(c.queue[i], w.gen + 1) {
      assert c.queue[i] in c.queue;
    }
  }

  /** A feed that returns false stops the client; otherwise only the count of messages grows. */
  lemma {:induction false} FeedOutcome(w: World, answers: seq<bool>)
    requires w.conn.running == None
    ensures w.Feed(answers).conn.running == None
    ensures w.Feed(answers).unwatching == w.unwatching && w.Feed(answers).thread == w.thread
    ensures w.Feed(answers).kind == w.kind
    ensures w.state == STOPPING ==>
              w.Feed(answers).state == STOPPING && w.Feed(answers).conn == w.conn
    ensures w.state == RUNNING && false in answers ==>
              w.Feed(answers).state == STOPPING && w.Feed(answers).conn.stopped
    ensures false !in answers ==> w.Feed(answers) == w.(delivered := w.delivered + |answers|)
    ensures w.Feed(answers).delivered == w.delivered + |answers|
    decreases answers
  {
    if answers != [] {
      var w1 := w.(delivered := w.delivered + 1);
      var w2 := if answers[0] then w1 else w1.Stop();
      FeedOutcome(w2, answers[1..]);
      assert answers == [answers[0]] + answers[1..];
    }
  }

  /** Issuing the next read: the one that was consumed is replaced. */
  lemma ReadKeepsConnected(w: World)
    requires w.conn.open && !w.unwatching && w.conn.running == None
    requires w.conn.Only(w.gen, Traffic(w.kind, false))
    requires w.conn.Number(Kind.Read) == 0
    requires w.kind == Aprsc ==> w.conn.Number(KeepAlive) == 1 && KeepAliveSucceeds(w.conn)
    requires w.kind == Sensor ==> w.conn.Number(Deadline) == 1
    ensures Connected(w.Read())
  {
    var c := if w.kind == Sensor then w.conn.ResetTimer() else w.conn;
    CancelKeeps(w.conn, WAITS, Kind.Read);
    CancelKeeps(w.conn, WAITS, Deadline);
    CancelKeepsOnly(w.conn, WAITS, w.gen, Traffic(w.kind, false));
    var o := Op(Kind.Read, w.gen);
    IssueAdds(c, o, Kind.Read);
    IssueAdds(c, o, KeepAlive);
    IssueAdds(c, o, Deadline);
  }

  lemma HandleReadConnected(w: World, code: ErrorCode, answers: seq<bool>)
    requires Connected(w) && !w.unwatching && w.state == RUNNING && !w.conn.stopped
    requires w.thread == Looping && w.conn.running.Some? && w.conn.running.value.op.kind == Kind.Read
    ensures Inv(w.(conn := w.conn.(running := None)).HandleRead(code, answers))
  {
    var w0 := w.(conn := w.conn.(running := None));
    if code == Failure {
      ReconnectWaits(w0);
    } else {
      FeedOutcome(w0, answers);
      var w1 := w0.Feed(answers);
      if false !in answers {
        ReadKeepsConnected(w1);
      } else {
        assert Halted(w1.Read());
      }
    }
  }

  /** The keep-alive wait is consumed before it is issued again, so no wait is cancelled. */
  lemma NoWaitPending(c: Conn, gen: nat)
    requires c.Only(gen, Traffic(Aprsc, false)) && c.Number(KeepAlive) == 0
    ensures c.OnSocket(Beacon, gen).ResetTimer() == c.OnSocket(Beacon, gen)
  {
    hide Count, CountQueued;
    var c1 := c.OnSocket(Beacon, gen);
    assert forall o :: o in c1.pending ==> o in c.pending || o == Op(Beacon, gen);
    CountMember(c.pending, KeepAlive);
    NoneSelected(c1.pending, WAITS);
  }

  lemma HandleKeepAliveConnected(w: World)
    requires Connected(w) && !w.unwatching && w.state == RUNNING && w.kind == Aprsc
    requires w.conn.running.Some? && w.conn.running.value.op.kind == KeepAlive
    ensures Connected(w.(conn := w.conn.(running := None)).HandleSendKeepAlive(Success))
  {
    hide Count, CountQueued, Among, Except, Cancelled;
    var c0 := w.conn.(running := None);
    var c1 := c0.OnSocket(Beacon, w.gen);
    IssueAdds(c0, Op(Beacon, w.gen), Kind.Read);
    IssueAdds(c0, Op(Beacon, w.gen), KeepAlive);
    NoWaitPending(c0, w.gen);
    IssueAdds(c1, Op(KeepAlive, w.gen), Kind.Read);
    IssueAdds(c1, Op(KeepAlive, w.gen), KeepAlive);
  }

  /** A cancelled deadline wait is issued again, and no other is outstanding. */
  lemma RearmedDeadline(w: World)
    requires Connected(w) && !w.unwatching && w.state == RUNNING && w.kind == Sensor
    requires w.conn.running.Some? && w.conn.running.value.op.kind == Deadline
    ensures Connected(w.(conn := w.conn.(running := None)).CheckDeadline(Failure))
  {
    var c0 := w.conn.(running := None);
    IssueAdds(c0, Op(Deadline, w.gen), Kind.Read);
    IssueAdds(c0, Op(Deadline, w.gen), Deadline);
  }

  lemma HandleConnected(w: World, answers: seq<bool>)
    requires Connected(w) && !w.unwatching && w.state == RUNNING && !w.conn.stopped
    requires w.thread == Looping && w.conn.running.Some?
    ensures Inv(Step(w, Handle(answers)))
  {
    var e := w.conn.running.value;
    var w0 := w.(conn := w.conn.(running := None));
    match e.op.kind {
      case Read => HandleReadConnected(w, e.code, answers);
      case KeepAlive => HandleKeepAliveConnected(w);
      case Deadline =>
        if e.code == Failure { RearmedDeadline(w); } else { ReconnectWaits(w0); }
      case Beacon =>
        if e.code == Failure { ReconnectWaits(w0); }
    }
  }

  /** Once a driver has succeeded nothing else is outstanding, and the next stage begins. */
  lemma HandleAttempting(w: World, k: Kind, code: ErrorCode, answers: seq<bool>)
    requires AttemptingWith(w, k, code) && w.conn.running.Some?
    requires w.state == CONNECTING && !w.unwatching && !w.conn.stopped && w.thread == Looping
    ensures Inv(Step(w, Handle(answers)))
  {
    var w0 := w.(conn := w.conn.(running := None));
    assert w0.conn.pending == [] && w0.conn.queue == [];
    if code == Failure {
      ReconnectWaits(w0);
    } else if k == Connect && w.kind in {Gpsd, Aprsc} {
      assert AttemptingWith(w0.HandleConnect(code), Handshake, Success);
    } else {
      Established(w0);
    }
  }

  lemma Established(w: World)
    requires w.conn.open && !w.unwatching
    requires w.conn.pending == [] && w.conn.queue == [] && w.conn.running == None
    ensures w.kind in {Sbs, Gpsd} ==> Connected(w.Read())
    ensures w.kind == Aprsc ==> Connected(w.WaitKeepAlive().Read())
    ensures w.kind == Sensor ==>
              Connected(w.(conn := w.conn.OnTimeout(Deadline, w.gen, true)).Read())
  {
    assert w.conn.ResetTimer() == w.conn;
    match w.kind {
      case Aprsc =>
        IssueAdds(w.conn, Op(KeepAlive, w.gen), Kind.Read);
        IssueAdds(w.conn, Op(KeepAlive, w.gen), KeepAlive);
        ReadKeepsConnected(w.WaitKeepAlive());
      case Sensor =>
        IssueAdds(w.conn, Op(Deadline, w.gen), Kind.Read);
        IssueAdds(w.conn, Op(Deadline, w.gen), Deadline);
        ReadKeepsConnected(w.(conn := w.conn.OnTimeout(Deadline, w.gen, true)));
      case Sbs => ReadKeepsConnected(w);
      case Gpsd => ReadKeepsConnected(w);
    }
  }

  /** Leftovers are ignored; the reconnect wait starts the next attempt, on an empty queue. */
  lemma HandleWaiting(w: World, answers: seq<bool>)
    requires Waiting(w) && w.conn.running.Some?
    requires w.state == CONNECTING && !w.unwatching && !w.conn.stopped && w.thread == Looping
    ensures Inv(Step(w, Handle(answers)))
  {
    if Ringing(w) {
      assert AttemptingWith(Step(w, Handle(answers)), Resolve, Success);
    }
  }

  lemma HandleStep(w: World, answers: seq<bool>)
    requires Inv(w) && Enabled(w, Handle(answers))
    ensures Inv(Step(w, Handle(answers)))
  {
    if Live(w) {
      if w.state == RUNNING {
        HandleConnected(w, answers);
      } else if Waiting(w) {
        HandleWaiting(w, answers);
      } else {
        var k, code :| AttemptingWith(w, k, code);
        HandleAttempting(w, k, code, answers);
      }
    }
  }

  // ----- stopping -----

  lemma ScheduleStopStep(w: World)
    requires Inv(w) && Enabled(w, ScheduleStop)
    ensures Inv(Step(w, ScheduleStop))
  {
    if w.kind == Gpsd && w.state == RUNNING {
      IssueAdds(w.conn, Op(Unwatch, w.gen), Kind.Read);
      assert Connected(Step(w, ScheduleStop));
    }
  }

  /** The event loop never runs out of work before it is stopped. */
  lemma LiveHasWork(w: World)
    requires Live(w)
    ensures w.conn.pending != [] || w.conn.queue != [] || w.conn.running.Some?
  {
  }

  lemma StepKeepsInv(w: World, l: Label)
    requires Inv(w) && Enabled(w, l)
    ensures Inv(Step(w, l))
  {
    match l
    case Start => assert AttemptingWith(Step(w, l), Resolve, Success);
    case Complete(i, code, leftOpen) => CompleteStep(w, i, code, leftOpen);
    case Dispatch(nowOpen) => DispatchStep(w, nowOpen);
    case Handle(answers) => HandleStep(w, answers);
    case ScheduleStop => ScheduleStopStep(w);
    case FinishStop =>
    case Return => if Live(w) { LiveHasWork(w); }
  }

  lemma {:induction false} RunKeepsInv(w: World, ls: seq<Label>)
    requires Inv(w) && Exec(w, ls).Some?
    ensures Inv(Exec(w, ls).value)
    decreases ls
  {
    if ls != [] {
      StepKeepsInv(w, ls[0]);
      RunKeepsInv(Step(w, ls[0]), ls[1..]);
    }
  }

  lemma ReachableInv(w: World)
    requires Reachable(w)
    ensures Inv(w)
  {
    var ls :| Exec(Init(w.kind), ls) == Some(w);
    RunKeepsInv(Init(w.kind), ls);
  }

  // ---------- the guarantees ----------

  /** No stale completion is ever acted on: before stop, a completion whose handler's guard
      holds belongs to the current connection. */
  lemma NoStaleCompletion(w: World)
    requires Reachable(w) && !w.conn.stopped && w.conn.running.Some?
    requires Guard(w.conn.running.value.op.kind, w.state)
    ensures w.conn.running.value.op.gen == w.gen
  {
    ReachableInv(w);
  }

  /** The same of name lookups, which nothing cancels and whose handler has no guard: before stop a
      queued lookup belongs to the current connection attempt. */
  lemma NoStaleLookup(w: World, e: Completion)
    requires Reachable(w) && !w.conn.stopped && e in w.conn.queue && e.op.kind == Resolve
    ensures e.op.gen == w.gen && w.state == CONNECTING
  {
    ReachableInv(w);
  }

  /** Everything a connection left behind has drained when the reconnect wait is handled: the
      wait has succeeded and the next attempt starts with nothing else outstanding. */
  lemma ReconnectStartsClean(w: World)
    requires Reachable(w) && !w.conn.stopped && w.conn.running.Some?
    requires w.conn.running.value.op.kind == Kind.Reconnect
    ensures w.conn.running.value.code == Success && w.state == CONNECTING
    ensures w.conn.pending == [] && w.conn.queue == []
  {
    ReachableInv(w);
  }

  /** The number of outstanding operations that can bring a connection about. */
  function Drivers(c: Conn): nat
  {
    c.Number(Resolve) + c.Number(Connect) + c.Number(Handshake) + c.Number(Kind.Reconnect)
  }

  lemma ConnectedHasNoDriver(w: World, k: Kind)
    requires Connected(w) && k in DRIVERS
    ensures w.conn.Number(k) == 0
  {
    CountMember(w.conn.pending, k);
    CountQueuedMember(w.conn.queue, k);
  }

  lemma WaitingHasOneDriver(w: World, k: Kind)
    requires Waiting(w) && k in DRIVERS
    ensures w.conn.Number(k) == if k == Kind.Reconnect then 1 else 0
  {
    var o, q := Op(Kind.Reconnect, w.gen), w.conn.queue;
    CountOne(o, Completion(o, Success), k);
    if Timing(w) {
      CountStale(q, w.gen, k);
    } else if Draining(w) {
      CountLast(q, w.gen, k);
    }
  }

  lemma {:induction false} CountStale(q: seq<Completion>, gen: nat, k: Kind)
    requires StaleUpTo(q, |q|, gen) && k in DRIVERS
    ensures CountQueued(q, k) == 0
  {
    if q != [] {
      CountStale(q[1..], gen, k);
    }
  }

  lemma {:induction false} CountLast(q: seq<Completion>, gen: nat, k: Kind)
    requires q != [] && StaleUpTo(q, |q| - 1, gen) && k in DRIVERS
    ensures CountQueued(q, k) == if q[|q| - 1].op.kind == k then 1 else 0
  {
    if |q| > 1 {
      CountLast(q[1..], gen, k);
    }
  }

  lemma AttemptHasOneDriver(w: World, d: Kind, code: ErrorCode, k: Kind)
    requires AttemptingWith(w, d, code)
    ensures w.conn.Number(k) == if k == d then 1 else 0
  {
    CountOne(Op(d, w.gen), Completion(Op(d, w.gen), code), k);
  }

  /** Before stop, a client that is connecting has exactly one driver, and a running client has
      an open socket, exactly one read and no driver. */
  lemma NeitherWedgedNorDoubled(w: World)
    requires Reachable(w) && w.thread == Looping && !w.conn.stopped
    ensures w.state in {CONNECTING, RUNNING}
    ensures Drivers(w.conn) == if w.state == CONNECTING then 1 else 0
    ensures w.state == RUNNING ==> w.conn.open && w.conn.Number(Kind.Read) == 1
  {
    ReachableInv(w);
    if w.state == RUNNING {
      ConnectedHasNoDriver(w, Resolve);
      ConnectedHasNoDriver(w, Connect);
      ConnectedHasNoDriver(w, Handshake);
      ConnectedHasNoDriver(w, Kind.Reconnect);
    } else if Waiting(w) {
      WaitingHasOneDriver(w, Resolve);
      WaitingHasOneDriver(w, Connect);
      WaitingHasOneDriver(w, Handshake);
      WaitingHasOneDriver(w, Kind.Reconnect);
    } else {
      var d, code :| AttemptingWith(w, d, code);
      AttemptHasOneDriver(w, d, code, Resolve);
      AttemptHasOneDriver(w, d, code, Connect);
      AttemptHasOneDriver(w, d, code, Handshake);
      AttemptHasOneDriver(w, d, code, Kind.Reconnect);
    }
  }

  /** A running sensor client always has exactly one deadline outstanding. */
  lemma DeadlineNeverLost(w: World)
    requires Reachable(w) && w.kind == Sensor && w.state == RUNNING
    ensures w.conn.Number(Deadline) == 1
  {
    ReachableInv(w);
  }

  /** A running APRSC client has exactly one keep-alive wait, and its handler sees Success. */
  lemma KeepAliveStaysSingle(w: World)
    requires Reachable(w) && w.kind == Aprsc && w.state == RUNNING
    ensures w.conn.Number(KeepAlive) == 1
    ensures w.conn.running.Some? && w.conn.running.value.op.kind == KeepAlive ==>
              w.conn.running.value.code == Success
  {
    ReachableInv(w);
  }

  /** The steps by which somebody asks a client to stop. */
  predicate AsksToStop(l: Label)
  {
    l == ScheduleStop || (l.Handle? && false in l.answers)
  }

  /** No handler stops the client by itself, given that the reconnect wait succeeds. */
  lemma HandlerDoesNotStop(w: World, answers: seq<bool>)
    requires Enabled(w, Handle(answers)) && !w.conn.stopped && false !in answers
    requires w.conn.running.value.op.kind == Kind.Reconnect ==> w.conn.running.value.code == Success
    ensures var w' := Step(w, Handle(answers)); !w'.conn.stopped && !w'.unwatching
  {
    FeedOutcome(w.(conn := w.conn.(running := None)), answers);
  }

  /** One step: without such a request, a client that has not stopped does not stop. */
  lemma StepDoesNotGiveUp(w: World, l: Label)
    requires Inv(w) && !w.conn.stopped && !w.unwatching && Enabled(w, l) && !AsksToStop(l)
    ensures !Step(w, l).conn.stopped && !Step(w, l).unwatching
  {
    match l
    case Handle(answers) => HandlerDoesNotStop(w, answers);
    case Return => LiveHasWork(w);
    case _ =>
  }

  lemma {:induction false} RunDoesNotGiveUp(w: World, ls: seq<Label>)
    requires Inv(w) && !w.conn.stopped && !w.unwatching && Exec(w, ls).Some?
    requires forall l :: l in ls ==> !AsksToStop(l)
    ensures !Exec(w, ls).value.conn.stopped && !Exec(w, ls).value.unwatching
    decreases ls
  {
    if ls != [] {
      assert ls[0] in ls;
      StepKeepsInv(w, ls[0]);
      StepDoesNotGiveUp(w, ls[0]);
      RunDoesNotGiveUp(Step(w, ls[0]), ls[1..]);
    }
  }

  /** A client never gives up on its own: unless it is asked to stop, `run` does not return and
      the client is connecting or running for ever, whatever fails. */
  lemma NeverGivesUp(kind: ClientKind, ls: seq<Label>)
    requires Exec(Init(kind), ls).Some?
    requires forall l :: l in ls ==> !AsksToStop(l)
    ensures var w := Exec(Init(kind), ls).value;
            w.thread == Idle || (w.thread == Looping && w.state in {CONNECTING, RUNNING})
  {
    RunKeepsInv(Init(kind), ls);
    RunDoesNotGiveUp(Init(kind), ls);
  }

  /** Before stop the loop has work: `run` returns only after a stop. */
  lemma ReturnsOnlyAfterStop(w: World)
    requires Reachable(w) && Enabled(w, Return)
    ensures w.conn.stopped
  {
    ReachableInv(w);
    if Live(w) {
      LiveHasWork(w);
    }
  }

  predicate Ended(w: World)
  {
    w.conn.stopped && w.state != RUNNING && !w.unwatching && (Halted(w) || w.thread == Returned)
  }

  lemma {:induction false} EndedStays(w: World, ls: seq<Label>)
    requires Inv(w) && Ended(w) && Exec(w, ls).Some?
    ensures Ended(Exec(w, ls).value) && Exec(w, ls).value.delivered == w.delivered
    decreases ls
  {
    if ls != [] {
      StepKeepsInv(w, ls[0]);
      EndedStays(Step(w, ls[0]), ls[1..]);
    }
  }

  /** Stop is final for data: from a state STOPPING on, no step of any continuation passes a
      message to a feed or makes the client RUNNING, although handleTimedConnect may still
      overwrite the state with CONNECTING. */
  lemma StopIsFinal(w: World, ls: seq<Label>)
    requires Reachable(w) && w.state == STOPPING && Exec(w, ls).Some?
    ensures Exec(w, ls).value.state != RUNNING
    ensures Exec(w, ls).value.delivered == w.delivered
  {
    ReachableInv(w);
    EndedStays(w, ls);
  }

  /** handleTimedConnect is in flight, and its wait has succeeded. */
  predicate Overtaken(w: World)
  {
    && w.conn.running.Some?
    && w.conn.running.value.op.kind == Kind.Reconnect
    && w.conn.running.value.code == Success
  }

  /** The steps `ls` can be taken and end in `state`. */
  predicate LeadsTo(w: World, ls: seq<Label>, state: State)
  {
    Exec(w, ls).Some? && Exec(w, ls).value.state == state
  }

  lemma {:induction false} StopStays(w: World, ls: seq<Label>)
    requires Inv(w) && Ended(w) && w.state != CONNECTING && !Overtaken(w) && Exec(w, ls).Some?
    ensures Exec(w, ls).value.state != CONNECTING
    decreases ls
  {
    if ls != [] {
      StepKeepsInv(w, ls[0]);
      StopStays(Step(w, ls[0]), ls[1..]);
    }
  }

  /** The state STOPPING can be overwritten with CONNECTING, if and only if the stop has overtaken
      a handleTimedConnect in flight. */
  lemma StopOverwrittenIff(w: World)
    requires Reachable(w) && w.state == STOPPING
    ensures (exists ls :: LeadsTo(w, ls, CONNECTING)) <==> Overtaken(w)
  {
    ReachableInv(w);
    if Overtaken(w) {
      var ls := [Handle([])];
      var w' := Step(w, ls[0]);
      assert Exec(w, ls) == Exec(w', []) == Some(w') by {
        assert ls[1..] == [];
      }
      assert LeadsTo(w, ls, CONNECTING);
    } else {
      forall ls | Exec(w, ls).Some? ensures !LeadsTo(w, ls, CONNECTING) {
        StopStays(w, ls);
      }
    }
  }

  lemma {:induction false} ExecAppend(w: World, a: seq<Label>, b: seq<Label>)
    requires Exec(w, a).Some?
    ensures Exec(w, a + b) == Exec(Exec(w, a).value, b)
    decreases a
  {
    if a == [] {
      assert a + b == b;
    } else {
      assert (a + b)[1..] == a[1..] + b;
      ExecAppend(Step(w, a[0]), a[1..], b);
    }
  }

  lemma ReachableStep(w: World, l: Label)
    requires Reachable(w) && Enabled(w, l) && Step(w, l).kind == w.kind
    ensures Reachable(Step(w, l))
  {
    var ls :| Exec(Init(w.kind), ls) == Some(w);
    ExecAppend(Init(w.kind), ls, [l]);
    assert [l][1..] == [];
  }

  /** The client while it waits after its first lookup has failed, and when that wait is over. */
  function AfterFailure(kind: ClientKind): World
  {
    World(kind, CONNECTING, FRESH.(pending := [Op(Kind.Reconnect, 1)]), 1, Looping, false, 0)
  }

  function AboutToRetry(kind: ClientKind): World
  {
    AfterFailure(kind).(conn := FRESH.(running := Some(Completion(Op(Kind.Reconnect, 1), Success))))
  }

  lemma FailureIsReachable(kind: ClientKind)
    ensures Reachable(AfterFailure(kind))
  {
    var w0 := Init(kind);
    assert Exec(w0, []) == Some(w0);
    var w1 := Step(w0, Start);
    ReachableStep(w0, Start);
    var w2 := Step(w1, Label.Complete(0, Failure, false));
    ReachableStep(w1, Label.Complete(0, Failure, false));
    var w3 := Step(w2, Label.Dispatch(false));
    ReachableStep(w2, Label.Dispatch(false));
    ReachableStep(w3, Handle([]));
    assert Step(w3, Handle([])) == AfterFailure(kind);
  }

  lemma RetryIsReachable(kind: ClientKind)
    ensures Reachable(AboutToRetry(kind))
  {
    var w := AfterFailure(kind);
    FailureIsReachable(kind);
    var w1 := Step(w, Label.Complete(0, Success, false));
    ReachableStep(w, Label.Complete(0, Success, false));
    ReachableStep(w1, Label.Dispatch(false));
    assert Step(w1, Label.Dispatch(false)) == AboutToRetry(kind);
  }

  /** A client of every kind can get there: its first lookup fails, the reconnect wait expires, and
      the stop comes before its handler has the mutex. */
  lemma StopMayBeOverwritten(kind: ClientKind)
    ensures exists w :: Reachable(w) && w.kind == kind && w.state == STOPPING && Overtaken(w)
  {
    var w := AboutToRetry(kind);
    RetryIsReachable(kind);
    ReachableStep(w, ScheduleStop);
    assert Overtaken(Step(w, ScheduleStop));
  }

  // ---------- what the handlers are for ----------

  /** A message that a running client receives reaches every feed exactly once, also the feeds
      that come after one that has ended the client. */
  lemma MessageReachesEveryFeed(w: World, answers: seq<bool>)
    requires Reachable(w) && w.state == RUNNING && Enabled(w, Handle(answers))
    requires w.conn.running.value.op.kind == Kind.Read && w.conn.running.value.code == Success
    ensures Step(w, Handle(answers)).delivered == w.delivered + |answers|
    ensures Step(w, Handle(answers)).state == if false in answers then STOPPING else RUNNING
  {
    FeedOutcome(w.(conn := w.conn.(running := None)), answers);
  }

  /** Sensor data postpones the deadline: after a message no wait is left that could expire at
      the old deadline. */
  lemma MessagePostponesDeadline(w: World, answers: seq<bool>)
    requires Reachable(w) && w.kind == Sensor && w.state == RUNNING && Enabled(w, Handle(answers))
    requires w.conn.running.value.op.kind == Kind.Read && w.conn.running.value.code == Success
    ensures Count(Step(w, Handle(answers)).conn.pending, Deadline) == 0
  {
    var w1 := w.(conn := w.conn.(running := None)).Feed(answers);
    FeedOutcome(w.(conn := w.conn.(running := None)), answers);
    SelectedMembers(w1.conn.pending, WAITS);
    CountMember(Except(w1.conn.pending, WAITS), Deadline);
    CountAppend(Except(w1.conn.pending, WAITS), [Op(Kind.Read, w1.gen)], Deadline);
    CountOne(Op(Kind.Read, w1.gen), Completion(Op(Kind.Read, w1.gen), Success), Deadline);
  }

  /** Every keep-alive wait that expires sends exactly one beacon. */
  lemma KeepAliveSendsBeacon(w: World, answers: seq<bool>)
    requires Reachable(w) && w.kind == Aprsc && w.state == RUNNING && Enabled(w, Handle(answers))
    requires w.conn.running.value.op.kind == KeepAlive
    ensures Step(w, Handle(answers)).conn.Number(Beacon) == w.conn.Number(Beacon) + 1
  {
    ReachableInv(w);
    var c0 := w.conn.(running := None);
    var c1 := c0.OnSocket(Beacon, w.gen);
    IssueAdds(c0, Op(Beacon, w.gen), Beacon);
    CancelKeeps(c1, WAITS, Beacon);
    IssueAdds(c1.ResetTimer(), Op(KeepAlive, w.gen), Beacon);
  }

  /** A running GPSD client that is told to stop first sends one Unwatch, on an open socket. */
  lemma StopSendsUnwatch(w: World)
    requires Reachable(w) && w.kind == Gpsd && w.state == RUNNING && Enabled(w, ScheduleStop)
    ensures var w' := Step(w, ScheduleStop);
            w'.conn.open && !w'.conn.stopped && w'.conn.Number(Unwatch) == 1
            && Enabled(w', FinishStop) && Step(w', FinishStop).state == STOPPING
  {
    ReachableInv(w);
    CountMember(w.conn.pending, Unwatch);
    CountQueuedMember(w.conn.queue, Unwatch);
    IssueAdds(w.conn, Op(Unwatch, w.gen), Unwatch);
  }

  // ---------- what a handler decides ----------

  /** A handler acts on its completion only if its guard holds. */
  lemma UnguardedIgnored(w: World, answers: seq<bool>)
    requires Enabled(w, Handle(answers)) && !Guard(w.conn.running.value.op.kind, w.state)
    ensures Step(w, Handle(answers)) == w.(conn := w.conn.(running := None))
  {
  }

  /** The completions after which a connection is given up. */
  predicate Lost(e: Completion)
  {
    match e.op.kind
    case Deadline => e.code == Success
    case Connect => e.code == Failure
    case Handshake => e.code == Failure
    case Read => e.code == Failure
    case Beacon => e.code == Failure
    case _ => false
  }

  lemma LostReconnects(w: World, answers: seq<bool>)
    requires Inv(w) && !w.conn.stopped && Enabled(w, Handle(answers))
    requires Guard(w.conn.running.value.op.kind, w.state) && Lost(w.conn.running.value)
    ensures Step(w, Handle(answers)) == w.(conn := w.conn.(running := None)).Reconnect()
    ensures Timing(Step(w, Handle(answers)))
  {
    ReconnectWaits(w.(conn := w.conn.(running := None)));
  }

  /** A connection that is lost is given up: the deadline has passed, or connecting, the handshake,
      reading or the beacon has failed. The socket is closed, and the only operation that is pending
      is the wait for the next attempt. */
  lemma LostIsGivenUp(w: World, answers: seq<bool>)
    requires Reachable(w) && !w.conn.stopped && Enabled(w, Handle(answers))
    requires Guard(w.conn.running.value.op.kind, w.state) && Lost(w.conn.running.value)
    ensures var w' := Step(w, Handle(answers));
            && w'.state == CONNECTING && !w'.conn.open && !w'.conn.stopped
            && w'.gen == w.gen + 1 && w'.conn.pending == [Op(Kind.Reconnect, w.gen + 1)]
            && w'.delivered == w.delivered
  {
    ReachableInv(w);
    LostReconnects(w, answers);
    CloseLeaves(w.conn.(running := None));
  }

  /** Every other completion leaves the connection alone, unless a feed ends the client. */
  lemma OthersKeepConnection(w: World, answers: seq<bool>)
    requires Reachable(w) && !w.conn.stopped && Enabled(w, Handle(answers)) && false !in answers
    requires !(Guard(w.conn.running.value.op.kind, w.state) && Lost(w.conn.running.value))
    ensures var w' := Step(w, Handle(answers));
            && w'.gen == w.gen && w'.conn.open == w.conn.open && !w'.conn.stopped
            && (w.state == RUNNING ==> w'.state == RUNNING)
  {
    ReachableInv(w);
    FeedOutcome(w.(conn := w.conn.(running := None)), answers);
  }

  /** The branches that no client takes before stop, by `ReconnectStartsClean` and
      `KeepAliveStaysSingle`: a reconnect wait that fails stops the client, and a keep-alive wait that
      fails is issued again without a beacon. */
  lemma BranchesNotTaken(w: World)
    requires w.conn.running == None
    ensures w.state in {CONNECTING, RUNNING} ==>
              var w' := w.HandleTimedConnect(Failure);
              w'.state == STOPPING && w'.conn.stopped && !w'.conn.open && w'.gen == w.gen
    ensures w.state == RUNNING ==>
              var p := w.HandleSendKeepAlive(Failure).conn.pending;
              && p != [] && p[|p| - 1] == Op(KeepAlive, w.gen)
              && forall i :: 0 <= i < |p| - 1 ==> p[i] in w.conn.pending && p[i].kind !in WAITS
  {
    CloseLeaves(w.conn);
    CloseLeaves(w.conn.OnSocket(Unwatch, w.gen));
    ResetLeaves(w.conn);
    var q := w.conn.ResetTimer().pending;
    assert forall i :: 0 <= i < |q| ==> q[i] in q;
  }

  /** The operation whose success makes a client of this kind RUNNING. */
  function LastDriver(kind: ClientKind): Kind
  {
    match kind
    case Sbs => Connect
    case Sensor => Connect
    case Gpsd => Handshake
    case Aprsc => Handshake
  }

  /** A client becomes RUNNING by exactly one kind of step: its connect has succeeded or, with GPSD
      and APRSC, its handshake. */
  lemma RunsAfterHandshake(w: World, l: Label)
    requires Reachable(w) && w.state != RUNNING && !w.conn.stopped && Enabled(w, l)
    ensures Step(w, l).state == RUNNING <==>
              l.Handle? && w.conn.running == Some(Completion(Op(LastDriver(w.kind), w.gen), Success))
  {
    ReachableInv(w);
  }

  /** The connect of a GPSD or APRSC client is followed by its handshake and nothing else. */
  lemma HandshakeFollowsConnect(w: World, answers: seq<bool>)
    requires Reachable(w) && w.kind in {Gpsd, Aprsc} && w.state == CONNECTING && !w.conn.stopped
    requires Enabled(w, Handle(answers)) && w.conn.running == Some(Completion(Op(Connect, w.gen), Success))
    ensures var w' := Step(w, Handle(answers));
            && w'.state == CONNECTING && w'.gen == w.gen
            && w'.conn == Conn(true, [Op(Handshake, w.gen)], [], None, false)
  {
    ReachableInv(w);
  }

  /** A first attempt, and every attempt after a wait, starts with a name lookup and nothing else. */
  lemma AttemptStartsWithLookup(kind: ClientKind, w: World, answers: seq<bool>)
    requires Reachable(w) && !w.conn.stopped && Enabled(w, Handle(answers))
    requires w.conn.running.value.op.kind == Kind.Reconnect
    ensures Step(Init(kind), Start).state == CONNECTING
    ensures Step(Init(kind), Start).conn == Conn(false, [Op(Resolve, 0)], [], None, false)
    ensures var w' := Step(w, Handle(answers));
            && w'.state == CONNECTING && w'.gen == w.gen
            && w'.conn == Conn(w.conn.open, [Op(Resolve, w.gen)], [], None, false)
  {
    ReachableInv(w);
  }

  /** Messages reach the feeds in no other way than by a read that succeeds while RUNNING. */
  lemma OnlyReadsDeliver(w: World, l: Label)
    requires Enabled(w, l)
    ensures Step(w, l).delivered == w.delivered +
              if l.Handle? && w.state == RUNNING && w.conn.running.value.op.kind == Kind.Read
                 && w.conn.running.value.code == Success
              then |l.answers| else 0
  {
    if l.Handle? {
      FeedOutcome(w.(conn := w.conn.(running := None)), l.answers);
    }
  }

  // ---------- what a stop does ----------

  /** The client is STOPPING, its socket is closed and nothing is dispatched any more: no wait, read
      or write is pending, only perhaps an unfinished attempt to connect. */
  predicate StoppedCleanly(w: World)
  {
    && w.state == STOPPING && w.conn.stopped && !w.conn.open && !w.unwatching
    && forall i :: 0 <= i < |w.conn.pending| ==> w.conn.pending[i].kind in {Resolve, Connect}
  }

  lemma BaseStopStops(w: World)
    requires Live(w)
    ensures StoppedCleanly(w.(unwatching := false).BaseStop())
    ensures w.BaseStop().conn.running == w.conn.running
  {
    CloseLeaves(w.conn);
    var p := w.conn.Close().pending;
    assert forall i :: 0 <= i < |p| ==> p[i] in p;
  }

  /** Any client that has not stopped is stopped by `scheduleStop`, at once or, if it is a running
      GPSD client, after its farewell. */
  lemma StopStops(w: World)
    requires Reachable(w) && w.thread == Looping && !w.conn.stopped && !w.unwatching
    ensures Enabled(w, ScheduleStop)
    ensures var w' := Step(w, ScheduleStop);
            if w.kind == Gpsd && w.state == RUNNING then w'.unwatching && w'.state == RUNNING
            else StoppedCleanly(w') && w'.conn.running == w.conn.running
  {
    ReachableInv(w);
    BaseStopStops(w);
  }

  /** Whatever happens during the farewell, it ends in a stop. */
  lemma FarewellStops(w: World)
    requires Reachable(w) && w.unwatching
    ensures Enabled(w, FinishStop) && StoppedCleanly(Step(w, FinishStop))
    ensures Step(w, FinishStop).conn.running == w.conn.running
  {
    ReachableInv(w);
    BaseStopStops(w);
  }

  /** Once a client is stopped, `run` returns as soon as the handler in flight, if any, has run. */
  lemma StoppedReturns(w: World)
    requires Reachable(w) && w.thread == Looping && w.conn.stopped
    ensures w.conn.running == None ==> Enabled(w, Return) && Step(w, Return).state == NONE
    ensures w.conn.running.Some? ==>
              Enabled(w, Handle([])) && Enabled(Step(w, Handle([])), Return)
  {
    ReachableInv(w);
    if w.conn.running.Some? {
      HandleStep(w, []);
    }
  }

  /** A feed that returns false stops the client too; a GPSD client sends its Unwatch first, once. */
  lemma FeedStops(w: World, answers: seq<bool>)
    requires Reachable(w) && w.state == RUNNING && Enabled(w, Handle(answers)) && false in answers
    requires w.conn.running.value.op.kind == Kind.Read && w.conn.running.value.code == Success
    ensures var w' := Step(w, Handle(answers));
            && w'.state == STOPPING && w'.conn.stopped && !w'.conn.open
            && w'.conn.Number(Unwatch) == if w.kind == Gpsd then 1 else 0
  {
    hide Connected, Attempting, Waiting;
    var w0 := w.(conn := w.conn.(running := None));
    assert w0.conn.open && w0.conn.Number(Unwatch) == 0 by {
      ReachableInv(w);
      NoUnwatchBefore(w);
    }
    ReadStoppedBy(w0, answers);
    ReadWhenClosed(w0.Feed(answers), Unwatch);
  }

  lemma NoUnwatchBefore(w: World)
    requires Inv(w) && w.state == RUNNING && !w.unwatching
    ensures w.conn.open && w.conn.(running := None).Number(Unwatch) == 0
  {
    CountMember(w.conn.pending, Unwatch);
    CountQueuedMember(w.conn.queue, Unwatch);
  }

  /** On a closed socket a read is dropped. */
  lemma ReadWhenClosed(w: World, k: Kind)
    requires !w.conn.open
    ensures w.Read().conn.Number(k) == w.conn.Number(k)
    ensures !w.Read().conn.open && w.Read().conn.stopped == w.conn.stopped && w.Read().state == w.state
  {
    CancelKeeps(w.conn, WAITS, k);
  }

  /** The first false answer stops the client, and the others change nothing. */
  lemma {:induction false} ReadStoppedBy(w: World, answers: seq<bool>)
    requires w.state == RUNNING && w.conn.open && w.conn.running == None && false in answers
    ensures var w' := w.Feed(answers);
            && w'.state == STOPPING && w'.conn.stopped && !w'.conn.open && w'.kind == w.kind
            && w'.conn.Number(Unwatch) == w.conn.Number(Unwatch) + if w.kind == Gpsd then 1 else 0
    decreases answers
  {
    var w1 := w.(delivered := w.delivered + 1);
    if answers[0] {
      assert answers == [true] + answers[1..];
      ReadStoppedBy(w1, answers[1..]);
    } else {
      var c := if w.kind == Gpsd then w.conn.OnSocket(Unwatch, w.gen) else w.conn;
      IssueAdds(w.conn, Op(Unwatch, w.gen), Unwatch);
      CloseKeeps(c, Unwatch);
      CloseLeaves(c);
      FeedOutcome(w1.Stop(), answers[1..]);
    }
  }
}
