/** The serial-port monitor of the serial store: while monitoring is on, it keeps
    one WebSocket to the backend's port-list endpoint, asks for the port list
    whenever that socket opens, replaces the port drop-down and the selected port
    on every `ports_update` snapshot, and schedules one reconnect each time a
    socket closes while monitoring is on.

    The WebSocket objects and the timers are not modelled as such. A socket is a
    number handed out in creation order; `live` holds the sockets whose close
    event is still to come (only those can deliver events). A timer is a number
    too; `pending` holds the timers that have been scheduled and neither fired
    nor been cleared. The module-level variables `ws` and `reconnectTimer` hold
    one of those numbers or nothing. There is no clock: a timer fires whenever
    the environment says so.

    Each handler is a function from the old state to the new one (the `...Step`
    functions below); the class `PortMonitor` at the end holds the state in
    fields and has one method per handler, each proved to compute its step. */
module SerialMonitor {
  import opened Wrappers

  type SocketId = nat
  type TimerId = nat

  /** One entry of the port drop-down: `{ label: port, value: port }`. */
  datatype PortOption = PortOption(caption: string, value: string)

  /** An inbound message, as far as `onmessage` tells messages apart. */
  datatype Inbound =
    | PortsUpdate(ports: seq<string>) // `{"type":"ports_update","ports":[...]}`
    | OtherMessage                    // well-formed JSON with another `type`
    | Malformed                       // JSON.parse throws, or `ports` is not an array

  /** The baud rate the store starts with. */
  const DefaultBaudRate: string := "115200"

  datatype Monitor = Monitor(
    isMonitoring: bool,
    ws: Option<SocketId>,             // the module-level `ws`
    live: set<SocketId>,              // sockets whose close event has not fired yet
    connected: set<SocketId>,         // sockets whose open event has fired
    sockets: nat,                     // sockets created so far, numbered 0, 1, ...
    reconnectTimer: Option<TimerId>,  // the module-level `reconnectTimer`
    pending: set<TimerId>,            // timers scheduled, not yet fired or cleared
    timers: nat,                      // timers scheduled so far, numbered 0, 1, ...
    sent: seq<SocketId>,              // the `get_ports` requests, by the socket they went out on
    portOptions: seq<PortOption>,
    selectedPort: string,
    selectedBaudRate: string,
    baudRate: string)                 // `settings.baudRate`

  /** The store as created: stopped, with no socket, timer, request or port,
      and the default baud rate in both rate fields. */
  function Initial(): (m: Monitor)
    ensures ValidState(m) && SelectionConsistent(m)
    ensures !m.isMonitoring && m.ws.None? && m.live == {} && m.reconnectTimer.None? && m.pending == {}
    ensures m.sent == [] && m.portOptions == [] && m.selectedPort == "" && m.selectedBaudRate == m.baudRate == DefaultBaudRate
  {
    Monitor(false, None, {}, {}, 0, None, {}, 0, [], [], "", DefaultBaudRate, DefaultBaudRate)
  }

  /** Socket and timer numbers refer to sockets and timers that exist, the
      current socket is one that can still deliver events, and every request went
      out on a socket that had opened. */
  ghost predicate ValidState(m: Monitor) {
    (forall s :: s in m.live ==> s < m.sockets)
    && (forall s :: s in m.connected ==> s < m.sockets)
    && (forall t :: t in m.pending ==> t < m.timers)
    && (m.ws.Some? ==> m.ws.value in m.live)
    && (m.reconnectTimer.Some? ==> m.reconnectTimer.value < m.timers)
    && (forall i :: 0 <= i < |m.sent| ==> m.sent[i] in m.connected)
  }

  // ---------------------------------------------------------------------------
  // The handlers

  /** `connectWebSocket()`: a new socket to the port-list endpoint becomes the
      current one. It is still connecting: its open event is to come. */
  function ConnectStep(m: Monitor): (r: Monitor)
    ensures r.ws == Some(m.sockets) && r.live == m.live + {m.sockets} && r.sockets == m.sockets + 1
    ensures r == m.(ws := r.ws, live := r.live, sockets := r.sockets)
    ensures ValidState(m) ==> ValidState(r) && m.sockets !in m.live && m.sockets !in m.connected
  {
    m.(ws := Some(m.sockets), live := m.live + {m.sockets}, sockets := m.sockets + 1)
  }

  /** `startPortMonitoring()`. */
  function StartStep(m: Monitor): (r: Monitor)
    ensures m.isMonitoring ==> r == m
    ensures !m.isMonitoring ==> r.isMonitoring && r.ws == Some(m.sockets) && r.sockets == m.sockets + 1
    ensures !m.isMonitoring ==>
              r == m.(isMonitoring := true, ws := Some(m.sockets), live := m.live + {m.sockets}, sockets := m.sockets + 1)
    ensures ValidState(m) ==> ValidState(r)
  {
    if m.isMonitoring then m else ConnectStep(m.(isMonitoring := true))
  }

  /** `stopPortMonitoring()`: the flag is cleared, the current socket is asked to
      close and forgotten, the stored timer is cleared. The socket's close event
      is still to come, so it stays in `live`. The port list and the selection
      are left as they are. */
  function StopStep(m: Monitor): (r: Monitor)
    ensures !r.isMonitoring && r.ws.None? && r.reconnectTimer.None?
    ensures r.pending == if m.reconnectTimer.Some? then m.pending - {m.reconnectTimer.value} else m.pending
    ensures r == m.(isMonitoring := false, ws := None, reconnectTimer := None, pending := r.pending)
    ensures ValidState(m) ==> ValidState(r)
  {
    var pending := if m.reconnectTimer.Some? then m.pending - {m.reconnectTimer.value} else m.pending;
    m.(isMonitoring := false, ws := None, reconnectTimer := None, pending := pending)
  }

  /** `ws.onopen` of socket s: s is now open, and one `{"type":"get_ports"}`
      request goes out on the current socket (`ws?.send(...)`), which need not be
      s. When there is no current socket nothing is sent, and when the current
      socket is still connecting `send` throws and nothing is sent either. */
  function OpenStep(m: Monitor, s: SocketId): (r: Monitor)
    requires s in m.live
    ensures r.connected == m.connected + {s}
    ensures m.ws.Some? && m.ws.value in r.connected ==> r.sent == m.sent + [m.ws.value]
    ensures m.ws.None? || m.ws.value !in r.connected ==> r.sent == m.sent
    ensures r == m.(connected := r.connected, sent := r.sent)
    ensures ValidState(m) ==> ValidState(r)
  {
    var open := m.(connected := m.connected + {s});
    if m.ws.Some? && m.ws.value in open.connected then open.(sent := m.sent + [m.ws.value]) else open
  }

  /** The port drop-down built from a snapshot. */
  function Options(ports: seq<string>): (options: seq<PortOption>)
    ensures |options| == |ports|
    ensures forall k :: 0 <= k < |ports| ==> options[k] == PortOption(ports[k], ports[k])
  {
    seq(|ports|, k requires 0 <= k < |ports| => PortOption(ports[k], ports[k]))
  }

  /** The selected port is empty or the value of one of the options. */
  predicate SelectionConsistent(m: Monitor) {
    m.selectedPort == "" || exists k :: 0 <= k < |m.portOptions| && m.portOptions[k].value == m.selectedPort
  }

  /** `ws.onmessage`: a snapshot replaces the options, one per port in the order
      reported, and always selects the first port, or nothing when there is
      none, whatever was selected before; any other message changes nothing. */
  function MessageStep(m: Monitor, msg: Inbound): (r: Monitor)
    ensures msg.PortsUpdate? ==>
              |r.portOptions| == |msg.ports|
              && (forall k :: 0 <= k < |msg.ports| ==>
                    r.portOptions[k].caption == r.portOptions[k].value == msg.ports[k])
              && r.selectedPort == (if |msg.ports| > 0 then msg.ports[0] else "")
              && SelectionConsistent(r)
              && r == m.(portOptions := r.portOptions, selectedPort := r.selectedPort)
    ensures !msg.PortsUpdate? ==> r == m
    ensures ValidState(m) ==> ValidState(r)
  {
    match msg
    case PortsUpdate(ports) =>
      var r := m.(portOptions := Options(ports), selectedPort := if |ports| > 0 then ports[0] else "");
      assert |ports| > 0 ==> r.portOptions[0].value == r.selectedPort;
      r
    case _ => m
  }

  /** `ws.onclose` of socket s: the current-socket variable is cleared, whichever
      socket closed, and a reconnect timer is scheduled and stored when
      monitoring is on. */
  function CloseStep(m: Monitor, s: SocketId): (r: Monitor)
    requires s in m.live
    ensures r.ws.None? && r.live == m.live - {s}
    ensures m.isMonitoring ==>
              r.reconnectTimer == Some(m.timers) && r.pending == m.pending + {m.timers} && r.timers == m.timers + 1
    ensures !m.isMonitoring ==>
              r.reconnectTimer == m.reconnectTimer && r.pending == m.pending && r.timers == m.timers
    ensures r == m.(ws := None, live := r.live, reconnectTimer := r.reconnectTimer,
                    pending := r.pending, timers := r.timers)
    ensures ValidState(m) ==> ValidState(r)
  {
    var closed := m.(ws := None, live := m.live - {s});
    if m.isMonitoring then
      closed.(reconnectTimer := Some(m.timers), pending := m.pending + {m.timers}, timers := m.timers + 1)
    else closed
  }

  /** Closing while monitoring schedules exactly one new timer, and closing while
      not monitoring schedules none. */
  lemma CloseSchedulesOneReconnect(m: Monitor, s: SocketId)
    requires ValidState(m) && s in m.live
    ensures |CloseStep(m, s).pending| == |m.pending| + (if m.isMonitoring then 1 else 0)
  {
    assert m.timers !in m.pending;
  }

  /** The reconnect timer firing, as written: its callback calls
      `connectWebSocket()` without looking at `isMonitoring`. The stored handle is
      left as it is. */
  function FireStep(m: Monitor, t: TimerId): (r: Monitor)
    requires t in m.pending
    ensures r.pending == m.pending - {t}
    ensures r.ws == Some(m.sockets) && r.sockets == m.sockets + 1
    ensures r == ConnectStep(m.(pending := m.pending - {t}))
    ensures ValidState(m) ==> ValidState(r)
  {
    ConnectStep(m.(pending := m.pending - {t}))
  }

  /** The reconnect timer firing, corrected: it reconnects only while monitoring
      is on. */
  function GuardedFireStep(m: Monitor, t: TimerId): (r: Monitor)
    requires t in m.pending
    ensures r.pending == m.pending - {t}
    ensures m.isMonitoring ==> r.ws == Some(m.sockets) && r.sockets == m.sockets + 1
    ensures m.isMonitoring ==>
              r == m.(pending := m.pending - {t}, ws := Some(m.sockets), live := m.live + {m.sockets},
                      sockets := m.sockets + 1)
    ensures !m.isMonitoring ==> r == m.(pending := r.pending)
    ensures ValidState(m) ==> ValidState(r)
  {
    var fired := m.(pending := m.pending - {t});
    if m.isMonitoring then ConnectStep(fired) else fired
  }

  /** `updatePort(port)`: only the selection changes. */
  function UpdatePortStep(m: Monitor, port: string): (r: Monitor)
    ensures r.selectedPort == port && r == m.(selectedPort := port)
  {
    m.(selectedPort := port)
  }

  /** `updateBaudRate(baudRate)`: the selected rate and the settings' rate both
      become the new rate; nothing else changes. */
  function UpdateBaudRateStep(m: Monitor, baudRate: string): (r: Monitor)
    ensures r.selectedBaudRate == r.baudRate == baudRate
    ensures r == m.(selectedBaudRate := baudRate, baudRate := baudRate)
  {
    m.(selectedBaudRate := baudRate, baudRate := baudRate)
  }

  // ---------------------------------------------------------------------------
  // Runs of events

  datatype Event =
    | Start
    | Stop
    | Open(socket: SocketId)
    | Message(socket: SocketId, msg: Inbound)
    | Close(socket: SocketId)
    | Fire(timer: TimerId)
    | UpdatePort(port: string)
    | UpdateBaudRate(baudRate: string)

  /** Which timer callback a run uses: the store's own, or the corrected one. */
  datatype Callback = AsWritten | Corrected

  /** Only a socket whose close event is still to come delivers events; a socket
      opens once, and only an open socket receives messages; only a pending
      timer fires. Whether `close()` was called on a socket is not recorded, so
      open and message events are allowed on a socket that `stopPortMonitoring`
      closed while it was still connecting, which a browser never delivers.
      This only admits more runs: what is proved for all runs holds for the
      ones that can happen. */
  predicate Enabled(m: Monitor, e: Event) {
    match e
    case Open(s) => s in m.live && s !in m.connected
    case Message(s, _) => s in m.live && s in m.connected
    case Close(s) => s in m.live
    case Fire(t) => t in m.pending
    case _ => true
  }

  /** One event, with the given timer callback. */
  function Step(m: Monitor, e: Event, cb: Callback): Monitor
    requires Enabled(m, e)
  {
    match e
    case Start => StartStep(m)
    case Stop => StopStep(m)
    case Open(s) => OpenStep(m, s)
    case Message(_, msg) => MessageStep(m, msg)
    case Close(s) => CloseStep(m, s)
    case Fire(t) => if cb == AsWritten then FireStep(m, t) else GuardedFireStep(m, t)
    case UpdatePort(p) => UpdatePortStep(m, p)
    case UpdateBaudRate(b) => UpdateBaudRateStep(m, b)
  }

  /** The state after a sequence of events; an event that cannot happen in the
      state reached so far is passed over. */
  function Run(m: Monitor, events: seq<Event>, cb: Callback): Monitor
    decreases |events|
  {
    if events == [] then m
    else Run(if Enabled(m, events[0]) then Step(m, events[0], cb) else m, events[1..], cb)
  }

  lemma StepKeepsValid(m: Monitor, e: Event, cb: Callback)
    requires ValidState(m) && Enabled(m, e)
    ensures ValidState(Step(m, e, cb))
  {
  }

  /** The handle invariant holds after any run, with either timer callback. */
  lemma {:induction false} RunKeepsValid(m: Monitor, events: seq<Event>, cb: Callback)
    requires ValidState(m)
    ensures ValidState(Run(m, events, cb))
    decreases |events|
  {
    if events != [] {
      var next := if Enabled(m, events[0]) then Step(m, events[0], cb) else m;
      if Enabled(m, events[0]) { StepKeepsValid(m, events[0], cb); }
      RunKeepsValid(next, events[1..], cb);
    }
  }

  // ---------------------------------------------------------------------------
  // Properties

  /** A second `startPortMonitoring()` does nothing: in particular it opens no
      second socket. The first one, from a stopped monitor, opens exactly one. */
  lemma StartIsIdempotent(m: Monitor)
    ensures StartStep(StartStep(m)) == StartStep(m)
    ensures StartStep(StartStep(m)).sockets == StartStep(m).sockets
    ensures ValidState(m) && !m.isMonitoring ==>
              |StartStep(m).live| == |m.live| + 1 && StartStep(m).ws == Some(m.sockets)
  {
  }

  /** A selection change the operator makes picks an offered port or nothing. */
  predicate PicksOffered(m: Monitor, e: Event) {
    e.UpdatePort? ==>
      e.port == "" || exists k :: 0 <= k < |m.portOptions| && m.portOptions[k].value == e.port
  }

  /** Every prefix of the run picks offered ports only. */
  predicate PicksOfferedThroughout(m: Monitor, events: seq<Event>, cb: Callback)
    decreases |events|
  {
    events == [] ||
    (PicksOffered(m, events[0]) &&
     PicksOfferedThroughout(if Enabled(m, events[0]) then Step(m, events[0], cb) else m, events[1..], cb))
  }

  /** The selected port stays empty or offered, with either timer callback:
      snapshots re-establish it, and no other event but `updatePort` touches the
      options or the selection. */
  lemma {:induction false} SelectionStaysConsistent(m: Monitor, events: seq<Event>, cb: Callback)
    requires SelectionConsistent(m) && PicksOfferedThroughout(m, events, cb)
    ensures SelectionConsistent(Run(m, events, cb))
    decreases |events|
  {
    if events != [] {
      var e := events[0];
      var next := if Enabled(m, e) then Step(m, e, cb) else m;
      assert SelectionConsistent(next) by {
        if Enabled(m, e) && e.UpdatePort? && e.port != "" {
          var k :| 0 <= k < |m.portOptions| && m.portOptions[k].value == e.port;
          assert next.portOptions[k].value == next.selectedPort;
        }
      }
      SelectionStaysConsistent(next, events[1..], cb);
    }
  }

  predicate NoStart(events: seq<Event>) {
    forall i :: 0 <= i < |events| ==> !events[i].Start?
  }

  /** With the corrected callback, once monitoring is off no event but a start
      creates a socket or schedules a timer: no reconnect follows a stop. */
  lemma {:induction false} NoReconnectWhileStopped(m: Monitor, events: seq<Event>)
    requires !m.isMonitoring && NoStart(events)
    ensures Run(m, events, Corrected).sockets == m.sockets && Run(m, events, Corrected).timers == m.timers
    ensures !Run(m, events, Corrected).isMonitoring
    decreases |events|
  {
    if events != [] {
      var next := if Enabled(m, events[0]) then Step(m, events[0], Corrected) else m;
      assert next.sockets == m.sockets && next.timers == m.timers && !next.isMonitoring;
      assert NoStart(events[1..]) by {
        forall i | 0 <= i < |events| - 1 ensures !events[1..][i].Start? {
          assert events[1..][i] == events[i + 1];
        }
      }
      NoReconnectWhileStopped(next, events[1..]);
    }
  }

  /** With the corrected callback, `stopPortMonitoring()` followed by any events
      without a start opens no socket. */
  lemma StopPreventsReconnect(m: Monitor, events: seq<Event>)
    requires NoStart(events)
    ensures Run(StopStep(m), events, Corrected).sockets == m.sockets
  {
    NoReconnectWhileStopped(StopStep(m), events);
  }

  /** The callback as written reconnects after a stop. A socket closed by
      `stopPortMonitoring()` still delivers its close event later; if monitoring
      was restarted in between, that event clears `ws` and schedules timer 0.
      When the new socket then closes as well, timer 1 overwrites the stored
      handle, so the next stop clears timer 1 only. Timer 0 is still pending
      with monitoring off, and when it fires it opens socket 2. */
  lemma StaleCloseReconnectsAfterStop()
    ensures var m := StopStep(CloseStep(CloseStep(StartStep(StopStep(StartStep(Initial()))), 0), 1));
      !m.isMonitoring && 0 in m.pending
      && FireStep(m, 0).sockets == m.sockets + 1 && FireStep(m, 0).ws == Some(2)
      && GuardedFireStep(m, 0).sockets == m.sockets
  {
    var m0 := StartStep(Initial());
    assert m0.ws == Some(0) && m0.live == {0} && m0.isMonitoring;
    var m1 := StopStep(m0);
    var m2 := StartStep(m1);
    assert m2.live == {0, 1} && m2.ws == Some(1) && m2.isMonitoring;
    var m3 := CloseStep(m2, 0);
    assert m3.reconnectTimer == Some(0) && m3.pending == {0} && m3.live == {1};
    var m4 := CloseStep(m3, 1);
    assert m4.reconnectTimer == Some(1) && m4.pending == {0, 1};
    var m5 := StopStep(m4);
    assert m5.pending == {0} && m5.sockets == 2;
  }

  /** Start, stop, start, both sockets close, stop, and timer 0 fires. */
  function StaleCloseTrace(): seq<Event> {
    [Start, Stop, Start, Close(0), Close(1), Stop, Fire(0)]
  }

  /** The same trace as a run of events: with the store's callback it ends with
      monitoring off and a third socket opened, with the corrected one it does
      not open that socket. */
  lemma StaleCloseRunReconnects()
    ensures var trace := StaleCloseTrace();
      !Run(Initial(), trace, AsWritten).isMonitoring
      && Run(Initial(), trace, AsWritten).sockets == 3
      && Run(Initial(), trace, Corrected).sockets == 2
  {
    var m := StopStep(CloseStep(CloseStep(StartStep(StopStep(StartStep(Initial()))), 0), 1));
    assert 0 in m.pending && m.sockets == 2 && !m.isMonitoring by { StaleCloseReconnectsAfterStop(); }
    StaleCloseRunPrefix(AsWritten);
    StaleCloseRunPrefix(Corrected);
    FireAfterStop(m, AsWritten);
    FireAfterStop(m, Corrected);
  }

  /** A pending timer firing while stopped: the store's callback opens a socket,
      the corrected one does not. */
  lemma FireAfterStop(m: Monitor, cb: Callback)
    requires 0 in m.pending && !m.isMonitoring
    ensures !Run(m, [Fire(0)], cb).isMonitoring
    ensures Run(m, [Fire(0)], cb).sockets == if cb == AsWritten then m.sockets + 1 else m.sockets
  {
    RunHead(m, [Fire(0)], cb);
  }

  /** The first six events of that trace, step by step. */
  lemma StaleCloseRunPrefix(cb: Callback)
    ensures var m := StopStep(CloseStep(CloseStep(StartStep(StopStep(StartStep(Initial()))), 0), 1));
      Run(Initial(), StaleCloseTrace(), cb) == Run(m, [Fire(0)], cb)
  {
    var trace := StaleCloseTrace();
    var m1 := StartStep(Initial());
    var m2 := StopStep(m1);
    var m3 := StartStep(m2);
    assert m3.live == {0, 1} && m3.isMonitoring;
    var m4 := CloseStep(m3, 0);
    assert m4.live == {1} && m4.pending == {0};
    var m5 := CloseStep(m4, 1);
    var m6 := StopStep(m5);
    var t1 := [Stop, Start, Close(0), Close(1), Stop, Fire(0)];
    var t2 := [Start, Close(0), Close(1), Stop, Fire(0)];
    var t3 := [Close(0), Close(1), Stop, Fire(0)];
    var t4 := [Close(1), Stop, Fire(0)];
    var t5 := [Stop, Fire(0)];
    assert Run(Initial(), trace, cb) == Run(m1, t1, cb) by { RunHead(Initial(), trace, cb); assert trace[1..] == t1; }
    assert Run(m1, t1, cb) == Run(m2, t2, cb) by { RunHead(m1, t1, cb); assert t1[1..] == t2; }
    assert Run(m2, t2, cb) == Run(m3, t3, cb) by { RunHead(m2, t2, cb); assert t2[1..] == t3; }
    assert Run(m3, t3, cb) == Run(m4, t4, cb) by { RunHead(m3, t3, cb); assert t3[1..] == t4; }
    assert Run(m4, t4, cb) == Run(m5, t5, cb) by { RunHead(m4, t4, cb); assert t4[1..] == t5; }
    assert Run(m5, t5, cb) == Run(m6, [Fire(0)], cb) by { RunHead(m5, t5, cb); assert t5[1..] == [Fire(0)]; }
  }

  /** A run starts with its first event, when that event can happen. */
  lemma RunHead(m: Monitor, events: seq<Event>, cb: Callback)
    requires events != [] && Enabled(m, events[0])
    ensures Run(m, events, cb) == Run(Step(m, events[0], cb), events[1..], cb)
  {
  }

  /** An orphaned socket's open event sends nothing while the current socket is
      still connecting; the request goes out when the current socket opens.
      Here socket 0's late close clears `ws` while socket 1 is connecting, and
      timer 0 then makes socket 2 current, so socket 1 is orphaned but open. */
  lemma OpenWhileConnectingSendsNothing()
    ensures var m := FireStep(CloseStep(StartStep(StopStep(StartStep(Initial()))), 0), 0);
      m.ws == Some(2) && m.isMonitoring && 1 in m.live && OpenStep(m, 1).sent == []
      && 2 in OpenStep(m, 1).live && OpenStep(OpenStep(m, 1), 2).sent == [2]
  {
    var m2 := StartStep(StopStep(StartStep(Initial())));
    assert m2.ws == Some(1) && m2.live == {0, 1} && m2.connected == {} && m2.isMonitoring;
    var m3 := CloseStep(m2, 0);
    assert m3.pending == {0} && m3.live == {1};
    var m := FireStep(m3, 0);
    assert m.ws == Some(2) && m.live == {1, 2} && m.connected == {} && m.sent == [];
    assert OpenStep(m, 1).connected == {1};
  }

  // ---------------------------------------------------------------------------
  // The store

  /** The monitoring part of the serial store. Its methods are the store's
      actions and the socket's and timer's callbacks. */
  class PortMonitor {
    var isMonitoring: bool
    var ws: Option<SocketId>
    var live: set<SocketId>
    var connected: set<SocketId>
    var sockets: nat
    var reconnectTimer: Option<TimerId>
    var pending: set<TimerId>
    var timers: nat
    var sent: seq<SocketId>
    var portOptions: seq<PortOption>
    var selectedPort: string
    var selectedBaudRate: string
    var baudRate: string

    function State(): Monitor
      reads this
    {
      Monitor(isMonitoring, ws, live, connected, sockets, reconnectTimer, pending, timers, sent,
              portOptions, selectedPort, selectedBaudRate, baudRate)
    }

    ghost predicate Valid()
      reads this
    {
      ValidState(State())
    }

    constructor ()
      ensures Valid() && State() == Initial()
    {
      isMonitoring, ws, live, connected, sockets := false, None, {}, {}, 0;
      reconnectTimer, pending, timers, sent := None, {}, 0, [];
      portOptions, selectedPort := [], "";
      selectedBaudRate, baudRate := DefaultBaudRate, DefaultBaudRate;
    }

    method StartPortMonitoring()
      requires Valid()
      modifies this
      ensures Valid() && State() == StartStep(old(State()))
    {
      if isMonitoring {
        return;
      }
      isMonitoring := true;
      ConnectWebSocket();
    }

    method StopPortMonitoring()
      requires Valid()
      modifies this
      ensures Valid() && State() == StopStep(old(State()))
    {
      isMonitoring := false;
      if ws.Some? {
        ws := None;
      }
      if reconnectTimer.Some? {
        pending := pending - {reconnectTimer.value};
        reconnectTimer := None;
      }
    }

    method ConnectWebSocket()
      requires Valid()
      modifies this
      ensures Valid() && State() == ConnectStep(old(State()))
    {
      ws := Some(sockets);
      live := live + {sockets};
      sockets := sockets + 1;
    }

    method OnOpen(socket: SocketId)
      requires Valid() && socket in live
      modifies this
      ensures Valid() && State() == OpenStep(old(State()), socket)
    {
      connected := connected + {socket};
      if ws.Some? && ws.value in connected {
        sent := sent + [ws.value];
      }
    }

    method OnMessage(socket: SocketId, msg: Inbound)
      requires Valid() && socket in live
      modifies this
      ensures Valid() && State() == MessageStep(old(State()), msg)
    {
      if msg.PortsUpdate? {
        portOptions := Options(msg.ports);
        if |msg.ports| > 0 {
          selectedPort := msg.ports[0];
        } else {
          selectedPort := "";
        }
      }
    }

    method OnClose(socket: SocketId)
      requires Valid() && socket in live
      modifies this
      ensures Valid() && State() == CloseStep(old(State()), socket)
    {
      live := live - {socket};
      ws := None;
      if isMonitoring {
        reconnectTimer := Some(timers);
        pending := pending + {timers};
        timers := timers + 1;
      }
    }

    /** The reconnect timer's callback: it reconnects whether or not monitoring
        is on. */
    method OnReconnectTimer(timer: TimerId)
      requires Valid() && timer in pending
      modifies this
      ensures Valid() && State() == FireStep(old(State()), timer)
    {
      pending := pending - {timer};
      ConnectWebSocket();
    }

    /** The reconnect timer's callback with the check on `isMonitoring` that the
        store's callback lacks. */
    method OnReconnectTimerCorrected(timer: TimerId)
      requires Valid() && timer in pending
      modifies this
      ensures Valid() && State() == GuardedFireStep(old(State()), timer)
    {
      pending := pending - {timer};
      if isMonitoring {
        ConnectWebSocket();
      }
    }

    method UpdatePort(port: string)
      requires Valid()
      modifies this
      ensures Valid() && State() == UpdatePortStep(old(State()), port)
    {
      selectedPort := port;
    }

    method UpdateBaudRate(rate: string)
      requires Valid()
      modifies this
      ensures Valid() && State() == UpdateBaudRateStep(old(State()), rate)
    {
      selectedBaudRate := rate;
      baudRate := rate;
    }
  }
}
