/**
 The asynchronous TCP connector that every input client runs on
 (src/client/net/impl/ConnectorImplBoost.cpp).

 A connector owns one socket, one timer and one event queue. What Boost.Asio promises is
 stated here once, as the behaviour of the functions below:
 - completions are dispatched in FIFO order, by one thread;
 - closing the socket, cancelling the timer and re-arming the timer append one Failure
   completion for each operation pending on it at that moment, waits before socket
   operations and each group in the order of issue;
 - a completion that is already queued keeps its result;
 - a timer wait fails only by being cancelled;
 - a successful connect leaves the socket open;
 - after `Stop` nothing more is dispatched.
 */
module Connectors {
  import opened Options

  datatype ErrorCode = Success | Failure

  /** What an operation was issued for, which is also the handler that its completion calls. */
  datatype Kind =
    | Resolve    // first half of onConnect
    | Connect    // second half of onConnect
    | Handshake  // login (APRSC) or watch request (GPSD)
    | Read
    | Beacon     // APRSC keep-alive message
    | Unwatch    // GPSD message on stop
    | Reconnect  // wait before the next connection attempt
    | KeepAlive  // wait before the next beacon
    | Deadline   // wait for sensor data

  const WAITS: set<Kind> := {Reconnect, KeepAlive, Deadline}
  const SOCKET: set<Kind> := {Connect, Handshake, Read, Beacon, Unwatch}

  /** An operation, tagged with the connection generation that issued it. */
  datatype Op = Op(kind: Kind, gen: nat)

  datatype Completion = Completion(op: Op, code: ErrorCode)

  /** `running` is the completion that the event thread has taken from the queue and whose
      handler has not yet run: it may be waiting for the client's mutex. */
  datatype Conn = Conn(
    open: bool,
    pending: seq<Op>,
    queue: seq<Completion>,
    running: Option<Completion>,
    stopped: bool)
  {
    function Cancel(ks: set<Kind>): Conn
    {
      this.(pending := Except(pending, ks), queue := queue + Cancelled(Among(pending, ks)))
    }

    // ----- the calls a client makes -----

    function ResetTimer(): Conn
    {
      Cancel(WAITS)
    }

    /** A name lookup is not cancelled by closing the socket. */
    function Close(): Conn
    {
      var c := Cancel(WAITS);
      if c.open then c.Cancel(SOCKET).(open := false) else c
    }

    function Stop(): Conn
    {
      Close().(stopped := true)
    }

    function OnConnect(gen: nat): Conn
    {
      this.(pending := pending + [Op(Resolve, gen)])
    }

    /** onRead and onWrite: without an open socket the operation and its handler are dropped. */
    function OnSocket(k: Kind, gen: nat): Conn
    {
      if open then this.(pending := pending + [Op(k, gen)]) else this
    }

    /** onTimeout; `rearm` says that a timeout greater than zero was given. */
    function OnTimeout(k: Kind, gen: nat, rearm: bool): Conn
    {
      var c := if rearm then ResetTimer() else this;
      c.(pending := c.pending + [Op(k, gen)])
    }

    // ----- what the environment does -----

    predicate CanComplete(i: nat, code: ErrorCode)
    {
      && i < |pending|
      && (pending[i].kind in WAITS ==> code == Success)
    }

    /** A pending operation finishes. `leftOpen` is the socket after a failed connect. */
    function Complete(i: nat, code: ErrorCode, leftOpen: bool): Conn
      requires CanComplete(i, code)
    {
      var o := pending[i];
      this.(pending := pending[..i] + pending[i + 1..],
            queue := queue + [Completion(o, code)],
            open := if o.kind == Connect then code == Success || leftOpen else open)
    }

    predicate CanDispatch()
    {
      !stopped && running == None && queue != []
    }

    /** The event thread takes the next completion. handleResolve and the Unwatch handler take
        no mutex, so they run at once; every other handler is left in `running`.
        `nowOpen` is the socket once the connect has been started. */
    function Dispatch(nowOpen: bool): Conn
      requires CanDispatch()
    {
      var Completion(o, code) := queue[0];
      var c := this.(queue := queue[1..]);
      if o.kind == Resolve && code == Success then
        c.(pending := c.pending + [Op(Connect, o.gen)], open := nowOpen)
      else if o.kind == Resolve then
        c.(running := Some(Completion(Op(Connect, o.gen), Failure)))
      else if o.kind == Unwatch then
        c
      else
        c.(running := Some(queue[0]))
    }

    // ----- everything outstanding -----

    /** How many operations of kind `k` are pending, queued or in flight. */
    function Number(k: Kind): nat
    {
      Count(pending, k) + CountQueued(queue, k) +
      if running.Some? && running.value.op.kind == k then 1 else 0
    }

    /** Every outstanding operation belongs to generation `gen` and has a kind in `ks`. */
    ghost predicate Only(gen: nat, ks: set<Kind>)
    {
      && (forall o :: o in pending ==> o.gen == gen && o.kind in ks)
      && (forall e :: e in queue ==> e.op.gen == gen && e.op.kind in ks)
      && (running.Some? ==> running.value.op.gen == gen && running.value.op.kind in ks)
    }
  }

  const FRESH := Conn(false, [], [], None, false)

  // ---------- selecting and cancelling ----------

  /** The operations of `ops` whose kind is in `ks`, in order. */
  function Among(ops: seq<Op>, ks: set<Kind>): (r: seq<Op>)
  {
    if ops == [] then []
    else if ops[0].kind in ks then [ops[0]] + Among(ops[1..], ks)
    else Among(ops[1..], ks)
  }

  /** The other operations of `ops`, in order. */
  function Except(ops: seq<Op>, ks: set<Kind>): (r: seq<Op>)
  {
    if ops == [] then []
    else if ops[0].kind in ks then Except(ops[1..], ks)
    else [ops[0]] + Except(ops[1..], ks)
  }

  /** The Failure completions of cancelled operations. */
  function Cancelled(ops: seq<Op>): seq<Completion>
  {
    seq(|ops|, i requires 0 <= i < |ops| => Completion(ops[i], Failure))
  }

  // ---------- counting ----------

  function Count(ops: seq<Op>, k: Kind): nat
  {
    if ops == [] then 0 else (if ops[0].kind == k then 1 else 0) + Count(ops[1..], k)
  }

  function CountQueued(q: seq<Completion>, k: Kind): nat
  {
    if q == [] then 0 else (if q[0].op.kind == k then 1 else 0) + CountQueued(q[1..], k)
  }

  lemma {:induction false} CountAppend(a: seq<Op>, b: seq<Op>, k: Kind)
    ensures Count(a + b, k) == Count(a, k) + Count(b, k)
  {
    if a == [] {
      assert a + b == b;
    } else {
      assert (a + b)[1..] == a[1..] + b;
      CountAppend(a[1..], b, k);
    }
  }

  lemma {:induction false} CountQueuedAppend(a: seq<Completion>, b: seq<Completion>, k: Kind)
    ensures CountQueued(a + b, k) == CountQueued(a, k) + CountQueued(b, k)
  {
    if a == [] {
      assert a + b == b;
    } else {
      assert (a + b)[1..] == a[1..] + b;
      CountQueuedAppend(a[1..], b, k);
    }
  }

  lemma {:induction false} CountCancelled(ops: seq<Op>, k: Kind)
    ensures CountQueued(Cancelled(ops), k) == Count(ops, k)
  {
    if ops != [] {
      assert Cancelled(ops)[1..] == Cancelled(ops[1..]);
      CountCancelled(ops[1..], k);
    }
  }

  /** Selecting splits the operations in two. */
  lemma {:induction false} CountSplits(ops: seq<Op>, ks: set<Kind>, k: Kind)
    ensures Count(Among(ops, ks), k) + Count(Except(ops, ks), k) == Count(ops, k)
  {
    if ops != [] {
      CountSplits(ops[1..], ks, k);
    }
  }

  lemma {:induction false} SelectedMembers(ops: seq<Op>, ks: set<Kind>)
    ensures forall o :: o in Among(ops, ks) <==> o in ops && o.kind in ks
    ensures forall o :: o in Except(ops, ks) <==> o in ops && o.kind !in ks
  {
    if ops != [] {
      SelectedMembers(ops[1..], ks);
      assert ops == [ops[0]] + ops[1..];
    }
  }

  lemma {:induction false} NoneSelected(ops: seq<Op>, ks: set<Kind>)
    requires forall o :: o in ops ==> o.kind !in ks
    ensures Among(ops, ks) == [] && Except(ops, ks) == ops
  {
    if ops != [] {
      NoneSelected(ops[1..], ks);
    }
  }

  lemma {:induction false} AllSelected(ops: seq<Op>, ks: set<Kind>)
    requires forall o :: o in ops ==> o.kind in ks
    ensures Except(ops, ks) == []
  {
    if ops != [] {
      AllSelected(ops[1..], ks);
    }
  }

  lemma CountOne(o: Op, e: Completion, k: Kind)
    ensures Count([o], k) == if o.kind == k then 1 else 0
    ensures CountQueued([e], k) == if e.op.kind == k then 1 else 0
  {
    assert [o][1..] == [] && [e][1..] == [];
  }

  /** What is counted is there. */
  lemma {:induction false} CountMember(ops: seq<Op>, k: Kind)
    ensures Count(ops, k) > 0 <==> exists o :: o in ops && o.kind == k
  {
    if ops != [] {
      CountMember(ops[1..], k);
      assert ops == [ops[0]] + ops[1..];
    }
  }

  lemma {:induction false} CountQueuedMember(q: seq<Completion>, k: Kind)
    ensures CountQueued(q, k) > 0 <==> exists e :: e in q && e.op.kind == k
  {
    if q != [] {
      CountQueuedMember(q[1..], k);
      assert q == [q[0]] + q[1..];
    }
  }

  /** Cancelling only moves operations from pending to queued: none is lost and none is added. */
  lemma CancelKeeps(c: Conn, ks: set<Kind>, k: Kind)
    ensures c.Cancel(ks).Number(k) == c.Number(k)
  {
    var gone := Among(c.pending, ks);
    CountSplits(c.pending, ks, k);
    CountQueuedAppend(c.queue, Cancelled(gone), k);
    CountCancelled(gone, k);
  }

  /** Selecting keeps the order: it goes through the operations one by one. */
  lemma {:induction false} SelectingIsOrdered(a: seq<Op>, b: seq<Op>, ks: set<Kind>)
    ensures Among(a + b, ks) == Among(a, ks) + Among(b, ks)
    ensures Except(a + b, ks) == Except(a, ks) + Except(b, ks)
  {
    if a == [] {
      assert a + b == b;
    } else {
      assert (a + b)[1..] == a[1..] + b;
      SelectingIsOrdered(a[1..], b, ks);
    }
  }

  /** Cancelling leaves the queue as it is and appends to it, one failure for each operation that
      was pending and is not any more. */
  lemma CancelFails(c: Conn, ks: set<Kind>)
    ensures var c' := c.Cancel(ks);
            && |c'.queue| >= |c.queue| && c'.queue[..|c.queue|] == c.queue
            && (forall i :: |c.queue| <= i < |c'.queue| ==>
                  c'.queue[i].code == Failure && c'.queue[i].op in c.pending
                  && c'.queue[i].op.kind in ks)
            && (forall o :: o in c'.pending <==> o in c.pending && o.kind !in ks)
  {
    SelectedMembers(c.pending, ks);
    var gone := Among(c.pending, ks);
    assert forall i :: 0 <= i < |gone| ==> gone[i] in gone;
  }

  /** Re-arming the timer cancels every wait and nothing else. */
  lemma ResetLeaves(c: Conn)
    ensures forall o :: o in c.ResetTimer().pending <==>
              o in c.pending && o.kind != Reconnect && o.kind != KeepAlive && o.kind != Deadline
    ensures c.ResetTimer().open == c.open
  {
    CancelFails(c, WAITS);
  }

  /** After closing, the socket is closed and no wait is pending; if it was open, only name lookups
      are, and they all are. */
  lemma CloseLeaves(c: Conn)
    ensures !c.Close().open && c.Close().running == c.running && c.Close().stopped == c.stopped
    ensures forall o :: o in c.Close().pending ==>
              o in c.pending && o.kind !in {Reconnect, KeepAlive, Deadline} && (c.open ==> o.kind == Resolve)
    ensures forall o :: o in c.pending && o.kind == Resolve ==> o in c.Close().pending
  {
    CancelFails(c, WAITS);
    CancelFails(c.Cancel(WAITS), SOCKET);
  }

  lemma CloseKeeps(c: Conn, k: Kind)
    ensures c.Close().Number(k) == c.Number(k)
  {
    CancelKeeps(c, WAITS, k);
    CancelKeeps(c.Cancel(WAITS), SOCKET, k);
  }

  /** A wait that is issued is the last pending operation, and the only wait if the timer is armed
      for it. */
  lemma TimeoutIssues(c: Conn, k: Kind, gen: nat, rearm: bool)
    ensures var p := c.OnTimeout(k, gen, rearm).pending;
            && p != [] && p[|p| - 1] == Op(k, gen)
            && (rearm ==> forall i :: 0 <= i < |p| - 1 ==> p[i].kind !in {Reconnect, KeepAlive, Deadline})
            && (!rearm ==> p[..|p| - 1] == c.pending)
  {
    ResetLeaves(c);
    var q := c.ResetTimer().pending;
    assert forall i :: 0 <= i < |q| ==> q[i] in q;
  }

  lemma CancelKeepsOnly(c: Conn, cancelled: set<Kind>, gen: nat, ks: set<Kind>)
    requires c.Only(gen, ks)
    ensures c.Cancel(cancelled).Only(gen, ks)
  {
    SelectedMembers(c.pending, cancelled);
  }

  lemma CompleteKeeps(c: Conn, i: nat, code: ErrorCode, leftOpen: bool, k: Kind)
    requires c.CanComplete(i, code)
    ensures c.Complete(i, code, leftOpen).Number(k) == c.Number(k)
  {
    var o := c.pending[i];
    assert c.pending == c.pending[..i] + ([o] + c.pending[i + 1..]);
    CountAppend(c.pending[..i], [o] + c.pending[i + 1..], k);
    CountAppend(c.pending[..i], c.pending[i + 1..], k);
    CountQueuedAppend(c.queue, [Completion(o, code)], k);
  }

  /** Dispatching keeps the numbers, except that a lookup becomes a connect and an Unwatch ends. */
  lemma DispatchKeeps(c: Conn, nowOpen: bool, k: Kind)
    requires c.CanDispatch()
    ensures c.queue[0].op.kind !in {Resolve, Unwatch} ==>
              c.Dispatch(nowOpen).Number(k) == c.Number(k)
    ensures c.queue[0].op.kind == Resolve ==>
              c.Dispatch(nowOpen).Number(k) ==
              c.Number(k) - (if k == Resolve then 1 else 0) + (if k == Connect then 1 else 0)
    ensures c.queue[0].op.kind == Unwatch ==>
              c.Dispatch(nowOpen).Number(k) == c.Number(k) - (if k == Unwatch then 1 else 0)
  {
    hide Count, CountQueued;
    var o := Op(Connect, c.queue[0].op.gen);
    CountHead(c.queue, k);
    CountOne(o, c.queue[0], k);
    CountAppend(c.pending, [o], k);
  }

  lemma CountHead(q: seq<Completion>, k: Kind)
    requires q != []
    ensures CountQueued(q, k) == (if q[0].op.kind == k then 1 else 0) + CountQueued(q[1..], k)
  {
  }

  /** Issuing an operation adds exactly one. */
  lemma IssueAdds(c: Conn, o: Op, k: Kind)
    ensures c.(pending := c.pending + [o]).Number(k) == c.Number(k) + if o.kind == k then 1 else 0
  {
    CountAppend(c.pending, [o], k);
  }

  // ---------- the object ----------

  /** The connector object; its methods are the functions above, in place. */
  class Connector {
    var open: bool
    var pending: seq<Op>
    var queue: seq<Completion>
    var running: Option<Completion>
    var stopped: bool

    function View(): Conn
      reads this
    {
      Conn(open, pending, queue, running, stopped)
    }

    constructor ()
      ensures View() == FRESH
    {
      open, pending, queue, running, stopped := false, [], [], None, false;
    }

    method ResetTimer()
      modifies this`pending, this`queue
      ensures View() == old(View()).ResetTimer()
    {
      queue := queue + Cancelled(Among(pending, WAITS));
      pending := Except(pending, WAITS);
    }

    method Close()
      modifies this`pending, this`queue, this`open
      ensures View() == old(View()).Close()
    {
      ResetTimer();
      if open {
        queue := queue + Cancelled(Among(pending, SOCKET));
        pending := Except(pending, SOCKET);
        open := false;
      }
    }

    method Stop()
      modifies this`pending, this`queue, this`open, this`stopped
      ensures View() == old(View()).Stop()
    {
      Close();
      if !stopped {
        stopped := true;
      }
    }

    method OnConnect(gen: nat)
      modifies this`pending
      ensures View() == old(View()).OnConnect(gen)
    {
      pending := pending + [Op(Resolve, gen)];
    }

    method OnSocket(k: Kind, gen: nat)
      modifies this`pending
      ensures View() == old(View()).OnSocket(k, gen)
    {
      if open {
        pending := pending + [Op(k, gen)];
      }
    }

    method OnTimeout(k: Kind, gen: nat, timeout: nat)
      modifies this`pending, this`queue
      ensures View() == old(View()).OnTimeout(k, gen, timeout > 0)
    {
      if timeout > 0 {
        ResetTimer();
      }
      pending := pending + [Op(k, gen)];
    }
  }
}
