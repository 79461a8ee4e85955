/** The WebSocket client's reconnect machine, run against a browser that owns the sockets and the timers. */
module ReconnectClient {
  import opened IssueModel

  /** A socket told to close is closing until the browser reports it closed. */
  datatype Phase = Connecting | Open | Closing | Closed

  /** `watched` says whether the close handler is still attached. */
  datatype Socket = Socket(phase: Phase, watched: bool)

  /** `ws`, `reconnectTimer` and `hasConnectedBefore` are the client's fields; `sockets` and `timers` (the timeouts
      still to fire) belong to the browser; `rounds` counts how often the reconnect callbacks were called. */
  datatype State = State(
    ws: Option<nat>,
    reconnectTimer: Option<nat>,
    hasConnectedBefore: bool,
    sockets: seq<Socket>,
    timers: set<nat>,
    nextTimer: nat,
    rounds: nat)

  datatype Event =
    | Connect
    | Disconnect
    | SocketOpened(socket: nat)
    | AuthAck(socket: nat)
    | SocketClosed(socket: nat)
    | TimerFires(timer: nat)

  const INITIAL := State(None, None, false, [], {}, 0, 0)

  /** What the browser can bring about: a socket opens or closes once, only an open one receives, only a pending
      timeout fires. */
  predicate Possible(s: State, e: Event)
  {
    match e
    case Connect => true
    case Disconnect => true
    case SocketOpened(i) => i < |s.sockets| && s.sockets[i].phase.Connecting?
    case AuthAck(i) => i < |s.sockets| && s.sockets[i].phase.Open?
    case SocketClosed(i) => i < |s.sockets| && !s.sockets[i].phase.Closed?
    case TimerFires(t) => t in s.timers
  }

  function Connected(s: State): State
  {
    s.(ws := Some(|s.sockets|), sockets := s.sockets + [Socket(Connecting, true)])
  }

  /** The close handler is taken off before the socket is closed. */
  function Shut(socket: Socket): Socket { Socket(if socket.phase.Closed? then Closed else Closing, false) }

  function Disconnected(s: State): State
  {
    s.(timers := if s.reconnectTimer.Some? then s.timers - {s.reconnectTimer.value} else s.timers,
       reconnectTimer := None,
       sockets := if s.ws.Some? && s.ws.value < |s.sockets|
         then s.sockets[s.ws.value := Shut(s.sockets[s.ws.value])] else s.sockets,
       ws := None,
       hasConnectedBefore := false)
  }

  function Authenticated(s: State): State
  {
    s.(rounds := if s.hasConnectedBefore then s.rounds + 1 else s.rounds, hasConnectedBefore := true)
  }

  /** `tokenAuth`: the client sends a token when the socket opens and waits for the server to acknowledge it. */
  function Step(s: State, e: Event, tokenAuth: bool): State
    requires Possible(s, e)
  {
    match e
    case Connect => Connected(s)
    case Disconnect => Disconnected(s)
    case SocketOpened(i) =>
      var s' := s.(sockets := s.sockets[i := s.sockets[i].(phase := Open)]);
      if tokenAuth then s' else Authenticated(s')
    case AuthAck(i) => Authenticated(s)
    case SocketClosed(i) =>
      var closed := s.(sockets := s.sockets[i := s.sockets[i].(phase := Closed)]);
      if s.sockets[i].watched
      then closed.(timers := s.timers + {s.nextTimer}, reconnectTimer := Some(s.nextTimer),
        nextTimer := s.nextTimer + 1)
      else closed
    case TimerFires(t) => Connected(s.(timers := s.timers - {t}))
  }

  class WSClient {
    const tokenAuth: bool
    var ws: Option<nat>
    var reconnectTimer: Option<nat>
    var hasConnectedBefore: bool
    var sockets: seq<Socket>
    var timers: set<nat>
    var nextTimer: nat
    var rounds: nat

    function Value(): State
      reads this
    {
      State(ws, reconnectTimer, hasConnectedBefore, sockets, timers, nextTimer, rounds)
    }

    constructor (tokenAuth: bool)
      ensures Value() == INITIAL && this.tokenAuth == tokenAuth
    {
      this.tokenAuth := tokenAuth;
      ws, reconnectTimer, hasConnectedBefore := None, None, false;
      sockets, timers, nextTimer, rounds := [], {}, 0, 0;
    }

    method Connect()
      modifies this
      ensures Value() == Step(old(Value()), Event.Connect, tokenAuth)
    {
      ws := Some(|sockets|);
      sockets := sockets + [Socket(Connecting, true)];
    }

    method Disconnect()
      modifies this
      ensures Value() == Step(old(Value()), Event.Disconnect, tokenAuth)
    {
      if reconnectTimer.Some? {
        timers := timers - {reconnectTimer.value};
        reconnectTimer := None;
      }
      if ws.Some? {
        if ws.value < |sockets| { sockets := sockets[ws.value := Shut(sockets[ws.value])]; }
        ws := None;
      }
      hasConnectedBefore := false;
    }

    method OnAuthenticated()
      modifies this
      ensures Value() == Authenticated(old(Value()))
    {
      if hasConnectedBefore { rounds := rounds + 1; }
      hasConnectedBefore := true;
    }

    method OnOpen(socket: nat)
      requires Possible(Value(), SocketOpened(socket))
      modifies this
      ensures Value() == Step(old(Value()), SocketOpened(socket), tokenAuth)
    {
      sockets := sockets[socket := sockets[socket].(phase := Open)];
      if tokenAuth { return; }
      OnAuthenticated();
    }

    method OnClose(socket: nat)
      requires Possible(Value(), SocketClosed(socket))
      modifies this
      ensures Value() == Step(old(Value()), SocketClosed(socket), tokenAuth)
    {
      var watched := sockets[socket].watched;
      sockets := sockets[socket := sockets[socket].(phase := Closed)];
      if watched {
        timers := timers + {nextTimer};
        reconnectTimer := Some(nextTimer);
        nextTimer := nextTimer + 1;
      }
    }

    method OnTimer(timer: nat)
      requires Possible(Value(), TimerFires(timer))
      modifies this
      ensures Value() == Step(old(Value()), TimerFires(timer), tokenAuth)
    {
      timers := timers - {timer};
      Connect();
    }
  }

  // ----- nothing pending after a disconnect

  /** The socket will schedule a reconnect when it closes. */
  predicate Live(s: State, i: nat) { i < |s.sockets| && s.sockets[i].watched && !s.sockets[i].phase.Closed? }

  /** Nothing can reconnect any more. */
  ghost predicate Quiet(s: State) { s.timers == {} && forall i :: 0 <= i < |s.sockets| ==> !Live(s, i) }

  /** The client still holds whatever could reconnect. */
  ghost predicate Held(s: State)
  {
    && (forall t :: t in s.timers ==> s.reconnectTimer == Some(t))
    && (forall i :: 0 <= i < |s.sockets| && Live(s, i) ==> s.ws == Some(i))
  }

  /** A disconnect silences the client exactly when no socket or timeout has slipped out of its fields. */
  lemma DisconnectSilencesExactly(s: State)
    ensures Quiet(Disconnected(s)) <==> Held(s)
  {
    var d := Disconnected(s);
    if Quiet(d) {
      forall t | t in s.timers ensures s.reconnectTimer == Some(t) {
        assert t !in d.timers;
      }
      forall i | 0 <= i < |s.sockets| && Live(s, i) ensures s.ws == Some(i) {
        assert !Live(d, i);
      }
    }
    if Held(s) {
      assert d.timers == {};
      forall i | 0 <= i < |d.sockets| ensures !Live(d, i) {
        assert Live(d, i) ==> Live(s, i);
      }
    }
  }

  /** The silence lasts until the application connects again. */
  lemma QuietStays(s: State, e: Event, tokenAuth: bool)
    requires Quiet(s) && Possible(s, e) && !e.Connect?
    ensures Quiet(Step(s, e, tokenAuth))
  {
    var r := Step(s, e, tokenAuth);
    if e.SocketClosed? { assert !Live(s, e.socket); }
    assert r.timers == {};
    forall i | 0 <= i < |r.sockets| ensures !Live(r, i) {
      assert !Live(s, i);
    }
  }

  /** A close starts one timeout exactly when the client still listened to that socket; while the client holds
      whatever could reconnect, it holds this timeout too, so that a disconnect still silences it. */
  lemma CloseSchedulesExactly(s: State, i: nat, tokenAuth: bool)
    requires Possible(s, SocketClosed(i)) && s.nextTimer !in s.timers
    ensures var r := Step(s, SocketClosed(i), tokenAuth);
      && (r.timers != s.timers <==> Live(s, i))
      && !Live(r, i)
      && (Held(s) && (s.timers == {} || !Live(s, i)) ==> Quiet(Disconnected(r)))
  {
    var r := Step(s, SocketClosed(i), tokenAuth);
    if Live(s, i) {
      assert s.nextTimer in r.timers;
    }
    if Held(s) && (s.timers == {} || !Live(s, i)) {
      forall j | 0 <= j < |r.sockets| && Live(r, j) ensures r.ws == Some(j) {
        assert Live(s, j);
      }
      DisconnectSilencesExactly(r);
    }
  }

  // ----- runs

  datatype Run = Start | Then(before: Run, event: Event)

  function After(r: Run, tokenAuth: bool): State
    requires Happens(r, tokenAuth)
    decreases r, 1
  {
    match r
    case Start => INITIAL
    case Then(before, e) => Step(After(before, tokenAuth), e, tokenAuth)
  }

  predicate Happens(r: Run, tokenAuth: bool)
    decreases r, 0
  {
    match r
    case Start => true
    case Then(before, e) => Happens(before, tokenAuth) && Possible(After(before, tokenAuth), e)
  }

  /** The application asked for a connection and has not disconnected since. */
  predicate Wanted(r: Run)
  {
    match r
    case Start => false
    case Then(before, e) => if e.Connect? then true else if e.Disconnect? then false else Wanted(before)
  }

  /** The application connects only when it does not already want a connection. */
  predicate ConnectsOnce(r: Run)
  {
    match r
    case Start => true
    case Then(before, e) => ConnectsOnce(before) && (e.Connect? ==> !Wanted(before))
  }

  /** The client waits for one socket. */
  ghost predicate OnSocket(s: State)
  {
    && s.timers == {} && s.ws.Some? && Live(s, s.ws.value)
    && forall i :: 0 <= i < |s.sockets| && Live(s, i) ==> i == s.ws.value
  }

  /** The client waits for one timeout. */
  ghost predicate OnTimeout(s: State)
  {
    && s.reconnectTimer.Some? && s.timers == {s.reconnectTimer.value}
    && forall i :: 0 <= i < |s.sockets| ==> !Live(s, i)
  }

  ghost predicate Working(s: State) { OnSocket(s) || OnTimeout(s) }

  lemma OnSocketStep(s: State, e: Event, tokenAuth: bool)
    requires OnSocket(s) && Possible(s, e) && !e.Connect? && !e.Disconnect?
    ensures Working(Step(s, e, tokenAuth))
  {
    var r := Step(s, e, tokenAuth);
    if e.SocketClosed? {
      forall i | 0 <= i < |r.sockets| && i != e.socket ensures Live(r, i) == Live(s, i) {
      }
      if s.sockets[e.socket].watched {
        assert Live(s, e.socket);
        assert OnTimeout(r);
      } else {
        assert OnSocket(r);
      }
    } else {
      forall i | 0 <= i < |r.sockets| ensures Live(r, i) == Live(s, i) {
      }
    }
  }

  lemma OnTimeoutStep(s: State, e: Event, tokenAuth: bool)
    requires OnTimeout(s) && Possible(s, e) && !e.Connect? && !e.Disconnect?
    ensures Working(Step(s, e, tokenAuth))
  {
    var r := Step(s, e, tokenAuth);
    forall i | 0 <= i < |s.sockets| ensures !Live(r, i) {
      assert !Live(s, i);
    }
    if e.TimerFires? {
      assert r.timers == {};
      assert Live(r, |s.sockets|);
      assert OnSocket(r);
    } else {
      if e.SocketClosed? { assert !Live(s, e.socket); }
      assert OnTimeout(r);
    }
  }

  lemma ConnectWorks(s: State)
    requires Quiet(s)
    ensures OnSocket(Connected(s))
  {
    var r := Connected(s);
    forall i | 0 <= i < |s.sockets| ensures !Live(r, i) {
      assert !Live(s, i);
    }
  }

  /** With one connect per disconnect, a wanted client always has exactly one socket or one timeout going, and an
      unwanted one has nothing that could reconnect. */
  lemma {:induction false} OneThingPending(r: Run, tokenAuth: bool)
    requires Happens(r, tokenAuth) && ConnectsOnce(r)
    ensures if Wanted(r) then Working(After(r, tokenAuth)) else Quiet(After(r, tokenAuth))
  {
    if r.Then? {
      OneThingPending(r.before, tokenAuth);
      var s := After(r.before, tokenAuth);
      if r.event.Connect? {
        ConnectWorks(s);
      } else if r.event.Disconnect? {
        assert Held(s);
        DisconnectSilencesExactly(s);
      } else if Wanted(r.before) {
        if OnSocket(s) { OnSocketStep(s, r.event, tokenAuth); } else { OnTimeoutStep(s, r.event, tokenAuth); }
      } else {
        QuietStays(s, r.event, tokenAuth);
      }
    }
  }

  /** Connecting twice leaves a first socket that a disconnect does not reach. */
  lemma SecondConnectLeavesAnOrphan(s: State)
    requires OnSocket(s)
    ensures !Quiet(Disconnected(Connected(s)))
  {
    assert Live(Connected(s), s.ws.value);
    DisconnectSilencesExactly(Connected(s));
  }

  // ----- the reconnect callbacks

  /** How often the client learned that it is authenticated since the last disconnect. */
  function Authentications(r: Run, tokenAuth: bool): nat
  {
    match r
    case Start => 0
    case Then(before, e) =>
      if e.Disconnect? then 0
      else Authentications(before, tokenAuth) + (if e.AuthAck? || (e.SocketOpened? && !tokenAuth) then 1 else 0)
  }

  /** The rounds of callbacks before the last disconnect. */
  function EarlierRounds(r: Run, tokenAuth: bool): nat
    requires Happens(r, tokenAuth)
  {
    match r
    case Start => 0
    case Then(before, e) => if e.Disconnect? then After(before, tokenAuth).rounds else EarlierRounds(before, tokenAuth)
  }

  /** The reconnect callbacks are called once for every authentication after the first. */
  lemma {:induction false} CallbacksFromSecondAuthentication(r: Run, tokenAuth: bool)
    requires Happens(r, tokenAuth)
    ensures var n := Authentications(r, tokenAuth);
      && After(r, tokenAuth).rounds == EarlierRounds(r, tokenAuth) + (if n == 0 then 0 else n - 1)
      && (After(r, tokenAuth).hasConnectedBefore <==> n > 0)
  {
    if r.Then? { CallbacksFromSecondAuthentication(r.before, tokenAuth); }
  }
}
