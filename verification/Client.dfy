/**
 The input client as an object. Each method carries out one operation or handler of
 src/client/Client.cpp or of a subclass in place, and is proved to be the corresponding
 operation of `ClientProtocol`, so that the guarantees of `ClientSafety` are about it.

 The four subclasses differ in three virtual functions, which branch on `kind` here.
 */
module Clients {
  import opened Options
  import opened Connectors
  import opened ClientProtocol

  const C_CON_WAIT_TIMEVAL := 120
  const AC_BEACON_INT := 600
  const WC_RCV_TIMEOUT := 5

  class Client {
    const kind: ClientKind
    const connector: Connector
    var state: State
    var delivered: nat
    var gen: nat          // history: connections given up
    var thread: Thread    // history: where `run` is
    var unwatching: bool  // history: the mutex is held inside GpsdClient::stop

    function View(): World
      reads this, connector
    {
      World(kind, state, connector.View(), gen, thread, unwatching, delivered)
    }

    constructor (kind: ClientKind, connector: Connector)
      requires connector.View() == FRESH
      ensures this.connector == connector
      ensures View() == Init(kind)
    {
      this.kind := kind;
      this.connector := connector;
      state, delivered, gen, thread, unwatching := NONE, 0, 0, Idle, false;
    }

    // ----- operations -----

    method Connect()
      modifies this, connector
      ensures View() == old(View()).Connect()
    {
      state := CONNECTING;
      connector.OnConnect(gen);
    }

    method Reconnect()
      modifies this, connector
      ensures View() == old(View()).Reconnect()
    {
      if state != STOPPING {
        state := CONNECTING;
        gen := gen + 1;
        connector.Close();
        TimedConnect();
      }
    }

    method TimedConnect()
      modifies connector
      ensures View() == old(View()).(conn := old(View()).conn.OnTimeout(Kind.Reconnect, gen, true))
    {
      connector.OnTimeout(Kind.Reconnect, gen, C_CON_WAIT_TIMEVAL);
    }

    method BaseStop()
      modifies this, connector
      ensures View() == old(View()).BaseStop()
    {
      if state == RUNNING || state == CONNECTING {
        state := STOPPING;
        connector.Stop();
      }
    }

    method Stop()
      modifies this, connector
      ensures View() == old(View()).Stop()
    {
      if kind == Gpsd && state == RUNNING {
        connector.OnSocket(Unwatch, gen);
      }
      BaseStop();
    }

    method Read()
      modifies connector
      ensures View() == old(View()).Read()
    {
      if kind == Sensor {
        connector.ResetTimer();
      }
      connector.OnSocket(Kind.Read, gen);
    }

    method SendKeepAlive()
      modifies connector
      ensures View() == old(View()).WaitKeepAlive()
    {
      connector.OnTimeout(KeepAlive, gen, AC_BEACON_INT);
    }

    // ----- handlers -----

    method HandleConnect(code: ErrorCode)
      modifies this, connector
      ensures View() == old(View()).HandleConnect(code)
    {
      if state == CONNECTING {
        if code == Success {
          match kind {
            case Sbs =>
              state := RUNNING;
              Read();
            case Sensor =>
              state := RUNNING;
              connector.OnTimeout(Deadline, gen, WC_RCV_TIMEOUT);
              Read();
            case Aprsc => connector.OnSocket(Handshake, gen);
            case Gpsd => connector.OnSocket(Handshake, gen);
          }
        } else {
          Reconnect();
        }
      }
    }

    method HandleHandshake(code: ErrorCode)
      modifies this, connector
      ensures View() == old(View()).HandleHandshake(code)
    {
      if state == CONNECTING {
        if code == Success {
          state := RUNNING;
          if kind == Aprsc {
            SendKeepAlive();
          }
          Read();
        } else {
          Reconnect();
        }
      }
    }

    method HandleTimedConnect(code: ErrorCode)
      modifies this, connector
      ensures View() == old(View()).HandleTimedConnect(code)
    {
      if code == Success {
        Connect();
      } else {
        Stop();
      }
    }

    /** `answers` is what the subscribed feeds return for the message. */
    method HandleRead(code: ErrorCode, answers: seq<bool>)
      modifies this, connector
      ensures View() == old(View()).HandleRead(code, answers)
    {
      if state == RUNNING {
        if code == Success {
          var i := 0;
          while i < |answers|
            invariant 0 <= i <= |answers|
            invariant View().Feed(answers[i..]) == old(View()).Feed(answers)
          {
            assert answers[i..][1..] == answers[i + 1..];
            delivered := delivered + 1;
            if !answers[i] {
              Stop();
            }
            i := i + 1;
          }
          assert answers[i..] == [];
          Read();
        } else {
          Reconnect();
        }
      }
    }

    method HandleSendKeepAlive(code: ErrorCode)
      modifies this, connector
      ensures View() == old(View()).HandleSendKeepAlive(code)
    {
      if state == RUNNING {
        if code == Success {
          connector.OnSocket(Beacon, gen);
          SendKeepAlive();
        } else {
          SendKeepAlive();
        }
      }
    }

    method HandleBeacon(code: ErrorCode)
      modifies this, connector
      ensures View() == old(View()).HandleBeacon(code)
    {
      if state == RUNNING {
        if code != Success {
          Reconnect();
        }
      }
    }

    method CheckDeadline(code: ErrorCode)
      modifies this, connector
      ensures View() == old(View()).CheckDeadline(code)
    {
      if state == RUNNING {
        if code == Success {
          Reconnect();
        } else {
          connector.OnTimeout(Deadline, gen, 0);
        }
      }
    }

    // ----- steps -----

    /** `run`, up to the event loop; a client that has already been started ignores it. */
    method Start()
      requires state == NONE ==> thread == Idle
      modifies this, connector
      ensures View() == if old(state) == NONE then Step(old(View()), Label.Start) else old(View())
    {
      if state == NONE {
        Connect();
        thread := Looping;
      }
    }

    /** The handler in flight gets the mutex. */
    method RunHandler(answers: seq<bool>)
      requires Enabled(View(), Handle(answers))
      modifies this, connector
      ensures View() == Step(old(View()), Handle(answers))
    {
      var e := connector.running.value;
      connector.running := None;
      match e.op.kind {
        case Connect => HandleConnect(e.code);
        case Handshake => HandleHandshake(e.code);
        case Read => HandleRead(e.code, answers);
        case Beacon => HandleBeacon(e.code);
        case Reconnect => HandleTimedConnect(e.code);
        case KeepAlive => HandleSendKeepAlive(e.code);
        case Deadline => CheckDeadline(e.code);
        case Resolve =>
        case Unwatch =>
      }
    }

    /** `scheduleStop` of another thread; a running GPSD client goes on in `FinishStop`. */
    method ScheduleStop()
      requires Enabled(View(), Label.ScheduleStop)
      modifies this, connector
      ensures View() == Step(old(View()), Label.ScheduleStop)
    {
      if kind == Gpsd && state == RUNNING {
        connector.OnSocket(Unwatch, gen);
        unwatching := true;
      } else {
        BaseStop();
      }
    }

    method FinishStop()
      requires Enabled(View(), Label.FinishStop)
      modifies this, connector
      ensures View() == Step(old(View()), Label.FinishStop)
    {
      unwatching := false;
      BaseStop();
    }

    /** `run`, after the event loop. */
    method Return()
      requires Enabled(View(), Label.Return)
      modifies this
      ensures View() == Step(old(View()), Label.Return)
    {
      state := NONE;
      thread := Returned;
    }
  }
}
