/**
 The connection protocol of the input clients, as a state machine
 (src/client/Client.cpp and its four subclasses).

 A `World` is one client together with its connector. Mutex-protected handlers are atomic
 steps; a handler that the event thread has already entered but that still waits for the
 mutex is `conn.running`, and other steps may come before it runs. `GpsdClient::stop` called
 from another thread keeps the mutex while it waits for its last message to be sent: that
 interval is the `unwatching` flag, during which the connector goes on and no handler runs.

 `gen` counts the connections given up so far. It is a history variable that no branch reads:
 the code itself has nothing that tells one connection from the next.
 */
module ClientProtocol {
  import opened Options
  import opened Connectors

  datatype State = NONE | CONNECTING | RUNNING | STOPPING

  datatype ClientKind = Sbs | Gpsd | Aprsc | Sensor

  /** Where the thread is that calls `Client::run`. */
  datatype Thread = Idle | Looping | Returned

  /** `delivered` counts the messages passed to feeds. */
  datatype World = World(
    kind: ClientKind,
    state: State,
    conn: Conn,
    gen: nat,
    thread: Thread,
    unwatching: bool,
    delivered: nat)
  {
    // ----- operations of the base class and its overrides -----

    function Connect(): World
    {
      this.(state := CONNECTING, conn := conn.OnConnect(gen))
    }

    function Reconnect(): World
    {
      if state == STOPPING then this
      else this.(state := CONNECTING,
                 gen := gen + 1,
                 conn := conn.Close().OnTimeout(Kind.Reconnect, gen + 1, true))
    }

    function BaseStop(): World
    {
      if state == RUNNING || state == CONNECTING
      then this.(state := STOPPING, conn := conn.Stop())
      else this
    }

    /** `stop` called by a handler: the event thread itself waits, so nothing is dispatched
        between the Unwatch message and the end. */
    function Stop(): World
    {
      if kind == Gpsd && state == RUNNING
      then this.(conn := conn.OnSocket(Unwatch, gen)).BaseStop()
      else BaseStop()
    }

    function Read(): World
    {
      var c := if kind == Sensor then conn.ResetTimer() else conn;
      this.(conn := c.OnSocket(Kind.Read, gen))
    }

    /** Pass a message to every feed; `answers` is what the feeds return. */
    function Feed(answers: seq<bool>): World
      decreases answers
    {
      if answers == [] then this
      else
        var w := this.(delivered := delivered + 1);
        (if answers[0] then w else w.Stop()).Feed(answers[1..])
    }

    function WaitKeepAlive(): World
    {
      this.(conn := conn.OnTimeout(KeepAlive, gen, true))
    }

    // ----- handlers -----

    function HandleConnect(code: ErrorCode): World
    {
      if state != CONNECTING then this
      else if code == Failure then Reconnect()
      else
        match kind
        case Sbs => this.(state := RUNNING).Read()
        case Sensor => this.(state := RUNNING, conn := conn.OnTimeout(Deadline, gen, true)).Read()
        case Gpsd => this.(conn := conn.OnSocket(Handshake, gen))
        case Aprsc => this.(conn := conn.OnSocket(Handshake, gen))
    }

    /** handleLogin and handleWatch. */
    function HandleHandshake(code: ErrorCode): World
    {
      if state != CONNECTING then this
      else if code == Failure then Reconnect()
      else if kind == Aprsc then this.(state := RUNNING).WaitKeepAlive().Read()
      else this.(state := RUNNING).Read()
    }

    function HandleTimedConnect(code: ErrorCode): World
    {
      if code == Success then Connect() else Stop()
    }

    function HandleRead(code: ErrorCode, answers: seq<bool>): World
    {
      if state != RUNNING then this
      else if code == Failure then Reconnect()
      else Feed(answers).Read()
    }

    function HandleSendKeepAlive(code: ErrorCode): World
    {
      if state != RUNNING then this
      else if code == Failure then WaitKeepAlive()
      else this.(conn := conn.OnSocket(Beacon, gen)).WaitKeepAlive()
    }

    function HandleBeacon(code: ErrorCode): World
    {
      if state != RUNNING || code == Success then this else Reconnect()
    }

    function CheckDeadline(code: ErrorCode): World
    {
      if state != RUNNING then this
      else if code == Success then Reconnect()
      else this.(conn := conn.OnTimeout(Deadline, gen, false))
    }

    function HandleCompletion(e: Completion, answers: seq<bool>): World
    {
      match e.op.kind
      case Connect => HandleConnect(e.code)
      case Handshake => HandleHandshake(e.code)
      case Read => HandleRead(e.code, answers)
      case Beacon => HandleBeacon(e.code)
      case Reconnect => HandleTimedConnect(e.code)
      case KeepAlive => HandleSendKeepAlive(e.code)
      case Deadline => CheckDeadline(e.code)
      case Resolve => this
      case Unwatch => this
    }
  }

  /** The state in which a handler acts on its completion; handleTimedConnect has no guard. */
  predicate Guard(k: Kind, s: State)
  {
    match k
    case Connect => s == CONNECTING
    case Handshake => s == CONNECTING
    case Reconnect => true
    case Resolve => false
    case Unwatch => false
    case Read => s == RUNNING
    case Beacon => s == RUNNING
    case KeepAlive => s == RUNNING
    case Deadline => s == RUNNING
  }

  // ---------- steps and runs ----------

  datatype Label =
    | Start
    | Complete(i: nat, code: ErrorCode, leftOpen: bool)
    | Dispatch(nowOpen: bool)
    | Handle(answers: seq<bool>)
    | ScheduleStop  // by another thread, at any moment at which the mutex is free
    | FinishStop    // the Unwatch message was sent, or 500 ms are over
    | Return        // the event loop has stopped or has run out of work

  function Init(kind: ClientKind): World
  {
    World(kind, NONE, FRESH, 0, Idle, false, 0)
  }

  predicate Enabled(w: World, l: Label)
  {
    match l
    case Start => w.thread == Idle && w.state == NONE
    case Complete(i, code, _) => w.conn.CanComplete(i, code)
    case Dispatch(_) => w.thread == Looping && w.conn.CanDispatch()
    case Handle(_) => w.thread == Looping && w.conn.running.Some? && !w.unwatching
    case ScheduleStop => !w.unwatching
    case FinishStop => w.unwatching
    case Return =>
      && w.thread == Looping
      && w.conn.running == None
      && (w.conn.stopped || (w.conn.pending == [] && w.conn.queue == []))
  }

  function Step(w: World, l: Label): World
    requires Enabled(w, l)
  {
    match l
    case Start => w.Connect().(thread := Looping)
    case Complete(i, code, leftOpen) => w.(conn := w.conn.Complete(i, code, leftOpen))
    case Dispatch(nowOpen) => w.(conn := w.conn.Dispatch(nowOpen))
    case Handle(answers) =>
      w.(conn := w.conn.(running := None)).HandleCompletion(w.conn.running.value, answers)
    case ScheduleStop =>
      if w.kind == Gpsd && w.state == RUNNING
      then w.(conn := w.conn.OnSocket(Unwatch, w.gen), unwatching := true)
      else w.BaseStop()
    case FinishStop => w.(unwatching := false).BaseStop()
    case Return => w.(state := NONE, thread := Returned)
  }

  /** The world after the steps `ls`, if each of them is possible when its turn comes. */
  function Exec(w: World, ls: seq<Label>): Option<World>
    decreases ls
  {
    if ls == [] then Some(w)
    else if Enabled(w, ls[0]) then Exec(Step(w, ls[0]), ls[1..])
    else None
  }

  ghost predicate Reachable(w: World)
  {
    exists ls :: Exec(Init(w.kind), ls) == Some(w)
  }
}
