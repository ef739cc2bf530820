/**
 A client always comes back: from every state that it reaches before it is stopped, every
 continuation that is long enough, and in which nobody asks for a stop and no operation fails any
 more, makes it RUNNING; and there is such a continuation.
 */
module ClientRecovery {
  import opened Options
  import opened Connectors
  import opened ClientProtocol
  import opened ClientSafety

  /** The next step towards RUNNING when everything the environment does goes well. */
  function Next(w: World): Label
  {
    if w.conn.running.Some? then Handle([])
    else if w.conn.queue != [] then Label.Dispatch(true)
    else Label.Complete(0, Success, true)
  }

  /** The completion or operation that is nearest to being handled. */
  function Head(c: Conn): Completion
  {
    if c.running.Some? then c.running.value
    else if c.queue != [] then c.queue[0]
    else Completion(if c.pending != [] then c.pending[0] else Op(Kind.Reconnect, 0), Success)
  }

  function Weight(c: Conn): nat
  {
    3 * |c.pending| + 2 * |c.queue| + if c.running.Some? then 1 else 0
  }

  /** How far each stage is from the end: a failed attempt has to wait and start again. */
  function Stage(e: Completion): nat
  {
    match e.op.kind
    case Resolve => if e.code == Failure then 100 else 20
    case Connect => if e.code == Failure then 100 else 10
    case Handshake => if e.code == Failure then 100 else 0
    case _ => 30
  }

  ghost predicate Trying(w: World)
  {
    Inv(w) && w.thread == Looping && !w.conn.stopped && w.state == CONNECTING
  }

  function Rank(w: World): nat
  {
    Stage(Head(w.conn)) + Weight(w.conn)
  }

  /** While waiting, the next completion is a leftover or the reconnect wait itself. */
  lemma WaitingHead(w: World)
    requires Waiting(w)
    ensures Stage(Head(w.conn)) == 30
  {
  }

  // ---------- every continuation recovers ----------

  /** A step by which something goes wrong from now on. */
  predicate Disturbs(l: Label)
  {
    AsksToStop(l) || (l.Complete? && l.code == Failure)
  }

  lemma AttemptHandled(w: World, k: Kind, code: ErrorCode, answers: seq<bool>)
    requires AttemptingWith(w, k, code) && w.state == CONNECTING && Enabled(w, Handle(answers))
    ensures var w' := Step(w, Handle(answers)); w'.state == RUNNING || Rank(w') < Rank(w)
  {
    if code == Failure {
      var w0 := w.(conn := w.conn.(running := None));
      assert w0.conn.Close().pending == [] && w0.conn.Close().queue == [];
      assert w0.Reconnect().conn.pending == [Op(Kind.Reconnect, w.gen + 1)];
    }
  }

  lemma AttemptProgresses(w: World, k: Kind, code: ErrorCode, l: Label)
    requires Trying(w) && AttemptingWith(w, k, code) && Enabled(w, l) && !Disturbs(l)
    ensures var w' := Step(w, l); w'.state == RUNNING || Rank(w') < Rank(w)
  {
    match l
    case Handle(answers) => AttemptHandled(w, k, code, answers);
    case _ =>
  }

  lemma WaitProgresses(w: World, l: Label)
    requires Trying(w) && Waiting(w) && Enabled(w, l) && !Disturbs(l)
    ensures Rank(Step(w, l)) < Rank(w)
  {
    WaitingHead(w);
    var w' := Step(w, l);
    match l
    case Complete(i, code, leftOpen) =>
      CompleteWaiting(w, i, code, leftOpen);
      WaitingHead(w');
    case Dispatch(nowOpen) =>
      DispatchWaiting(w, nowOpen);
      WaitingHead(w');
    case Handle(_) =>
      if Ringing(w) {
        assert w'.conn.pending == [Op(Resolve, w.gen)];
      } else {
        WaitingHead(w');
      }
    case Return =>
      LiveHasWork(w);
  }

  lemma Progresses(w: World, l: Label)
    requires Trying(w) && Enabled(w, l) && !Disturbs(l)
    ensures Inv(Step(w, l))
    ensures var w' := Step(w, l); w'.state == RUNNING || (Trying(w') && Rank(w') < Rank(w))
  {
    if Waiting(w) {
      WaitProgresses(w, l);
    } else {
      var k, code :| AttemptingWith(w, k, code);
      AttemptProgresses(w, k, code, l);
    }
    StepKeepsInv(w, l);
    StepDoesNotGiveUp(w, l);
  }

  lemma {:induction false} ReachesRunning(w: World, ls: seq<Label>) returns (n: nat)
    requires Trying(w) && Exec(w, ls).Some? && |ls| > Rank(w)
    requires forall l :: l in ls ==> !Disturbs(l)
    ensures n <= |ls| && LeadsTo(w, ls[..n], RUNNING)
    decreases ls
  {
    assert ls[0] in ls;
    Progresses(w, ls[0]);
    var w' := Step(w, ls[0]);
    if w'.state == RUNNING {
      n := 1;
      assert ls[..1][1..] == [];
    } else {
      n := ReachesRunning(w', ls[1..]);
      n := n + 1;
      assert ls[..n][1..] == ls[1..][..n - 1];
    }
  }

  /** From every state before stop, every continuation without a further failure and without a
      request to stop makes the client RUNNING, within a number of steps known in advance. */
  lemma AlwaysRecovers(w: World, ls: seq<Label>)
    requires Reachable(w) && w.thread == Looping && !w.conn.stopped
    requires Exec(w, ls).Some? && |ls| > Rank(w) && forall l :: l in ls ==> !Disturbs(l)
    ensures exists n :: 0 <= n <= |ls| && LeadsTo(w, ls[..n], RUNNING)
  {
    ReachableInv(w);
    if w.state == RUNNING {
      assert LeadsTo(w, ls[..0], RUNNING);
    } else {
      var n := ReachesRunning(w, ls);
    }
  }

  // ---------- some continuation recovers ----------

  lemma Advances(w: World)
    requires Trying(w)
    ensures Enabled(w, Next(w)) && !Disturbs(Next(w))
  {
    if !Waiting(w) {
      var k, code :| AttemptingWith(w, k, code);
    }
  }

  lemma {:induction false} ReachRunning(w: World) returns (ls: seq<Label>)
    requires Trying(w)
    ensures LeadsTo(w, ls, RUNNING)
    ensures forall l :: l in ls ==> !Disturbs(l)
    decreases Rank(w)
  {
    Advances(w);
    Progresses(w, Next(w));
    var w' := Step(w, Next(w));
    var rest := [];
    if w'.state != RUNNING {
      rest := ReachRunning(w');
    }
    ls := [Next(w)] + rest;
    assert ls[1..] == rest;
  }

  /** Whatever failed so far, a client that nobody has stopped can become RUNNING again. */
  lemma CanAlwaysRecover(w: World)
    requires Reachable(w) && w.thread == Looping && !w.conn.stopped
    ensures exists ls :: LeadsTo(w, ls, RUNNING) && forall l :: l in ls ==> !Disturbs(l)
  {
    ReachableInv(w);
    if w.state == RUNNING {
      assert LeadsTo(w, [], RUNNING);
    } else {
      var ls := ReachRunning(w);
    }
  }
}
