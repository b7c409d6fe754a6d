/** The internal WebSocket client and its bounded linear backoff
    (services/InternalWebSocketClient.ts).

    Sockets and timers are numbered from one counter. `live` are the sockets that may still emit
    events, `timers` the scheduled reconnects that have neither fired nor been cleared; `handle` is
    the one timer the client remembers. `connects` counts calls of `connect`, and `delays` lists
    the delays scheduled since a socket last opened. */
module Reconnect {
  import opened Optional

  const MAX_ATTEMPTS: nat := 5
  const DELAY: nat := 5000

  datatype State = State(
    live: set<nat>,
    timers: set<nat>,
    handle: Option<nat>,
    client: Option<nat>,
    connected: bool,
    shuttingDown: bool,
    attempts: nat,
    nextId: nat,
    connects: nat,
    delays: seq<nat>)

  /** `Connect` is a call from outside; `ok` says whether creating the socket succeeded or threw. */
  datatype Event =
    | Connect(ok: bool)
    | Open(socket: nat)
    | Close(socket: nat)
    | Error(socket: nat)
    | Fire(timer: nat, ok: bool)
    | Disconnect

  function Initial(): State {
    State({}, {}, None, None, false, false, 0, 0, 0, [])
  }

  function Schedule(s: State): State {
    if s.attempts >= MAX_ATTEMPTS then s
    else s.(attempts := s.attempts + 1,
            timers := s.timers + {s.nextId},
            handle := Some(s.nextId),
            nextId := s.nextId + 1,
            delays := s.delays + [DELAY * (s.attempts + 1)])
  }

  function DoConnect(s: State, ok: bool): State {
    var s := s.(connects := s.connects + 1);
    if ok then s.(live := s.live + {s.nextId}, client := Some(s.nextId), nextId := s.nextId + 1)
    else Schedule(s)
  }

  function Step(s: State, e: Event): State {
    match e
    case Connect(ok) => DoConnect(s, ok)
    case Open(socket) => if socket in s.live then s.(connected := true, attempts := 0, delays := []) else s
    case Close(socket) =>
      if socket !in s.live then s
      else
        var s := s.(live := s.live - {socket}, connected := false);
        if s.shuttingDown then s else Schedule(s)
    case Error(socket) => if socket in s.live then s.(connected := false) else s
    case Fire(timer, ok) => if timer in s.timers then DoConnect(s.(timers := s.timers - {timer}), ok) else s
    case Disconnect =>
      s.(shuttingDown := true, connected := false, client := None, handle := None,
         timers := if s.handle.Some? then s.timers - {s.handle.value} else s.timers)
  }

  function Run(s: State, events: seq<Event>): State
    decreases |events|
  {
    if events == [] then s else Run(Step(s, events[0]), events[1..])
  }

  // ---------------------------------------------------------------- the class

  class InternalWebSocketClient {
    var client: Option<nat>
    var isConnected: bool
    var isShuttingDown: bool
    var reconnectAttempts: nat
    var reconnectTimeout: Option<nat>
    var nextId: nat
    ghost var live: set<nat>
    ghost var timers: set<nat>
    ghost var connects: nat
    ghost var delays: seq<nat>

    ghost function Abstract(): State
      reads this
    {
      State(live, timers, reconnectTimeout, client, isConnected, isShuttingDown, reconnectAttempts,
            nextId, connects, delays)
    }

    constructor ()
      ensures Abstract() == Initial()
    {
      client, reconnectTimeout := None, None;
      isConnected, isShuttingDown, reconnectAttempts, nextId := false, false, 0, 0;
      live, timers, connects, delays := {}, {}, 0, [];
    }

    method OpenSocket(ok: bool)
      modifies this
      ensures Abstract() == Step(old(Abstract()), Connect(ok))
    {
      connects := connects + 1;
      if ok {
        client := Some(nextId);
        live := live + {nextId};
        nextId := nextId + 1;
      } else {
        ScheduleReconnect();
      }
    }

    method ScheduleReconnect()
      modifies this
      ensures Abstract() == Schedule(old(Abstract()))
    {
      if reconnectAttempts >= MAX_ATTEMPTS { return; }
      reconnectAttempts := reconnectAttempts + 1;
      delays := delays + [DELAY * reconnectAttempts];
      reconnectTimeout := Some(nextId);
      timers := timers + {nextId};
      nextId := nextId + 1;
    }

    method OnOpen(socket: nat)
      requires socket in live
      modifies this
      ensures Abstract() == Step(old(Abstract()), Open(socket))
    {
      isConnected := true;
      reconnectAttempts, delays := 0, [];
    }

    method OnClose(socket: nat)
      requires socket in live
      modifies this
      ensures Abstract() == Step(old(Abstract()), Close(socket))
    {
      live := live - {socket};
      isConnected := false;
      if !isShuttingDown {
        ScheduleReconnect();
      }
    }

    method OnError(socket: nat)
      requires socket in live
      modifies this
      ensures Abstract() == Step(old(Abstract()), Error(socket))
    {
      isConnected := false;
    }

    method OnTimer(timer: nat, ok: bool)
      requires timer in timers
      modifies this
      ensures Abstract() == Step(old(Abstract()), Fire(timer, ok))
    {
      timers := timers - {timer};
      OpenSocket(ok);
    }

    method Shutdown()
      modifies this
      ensures Abstract() == Step(old(Abstract()), Disconnect)
    {
      isShuttingDown := true;
      if reconnectTimeout.Some? {
        timers := timers - {reconnectTimeout.value};
        reconnectTimeout := None;
      }
      client := None;
      isConnected := false;
    }
  }

  // ---------------------------------------------------------------- what each event does

  /** An attempt to reconnect is scheduled, under a new number and remembered; the delay grows by 5 s each
      time; after five attempts nothing is. */
  predicate Rescheduled(s: State, s': State) {
    if s.attempts >= 5 then s' == s
    else
      && s'.attempts == s.attempts + 1 && s'.delays == s.delays + [5000 * (s.attempts + 1)]
      && s'.timers == s.timers + {s.nextId} && s'.handle == Some(s.nextId) && s'.nextId == s.nextId + 1
      && s'.live == s.live && s'.client == s.client && s'.connects == s.connects
      && s'.connected == s.connected && s'.shuttingDown == s.shuttingDown
  }

  /** A call of `connect`, whoever makes it, shutting down or not: a new socket, or a new attempt later. */
  predicate Connected(s: State, s': State, ok: bool) {
    if !ok then Rescheduled(s.(connects := s.connects + 1), s')
    else s' == s.(connects := s.connects + 1, live := s.live + {s.nextId}, client := Some(s.nextId),
                  nextId := s.nextId + 1)
  }

  /** An open ends the attempts; an error changes no more than the connected flag; a close reschedules
      unless `disconnect` was called. */
  lemma SocketEvents(s: State, socket: nat)
    requires socket in s.live
    ensures Step(s, Open(socket)) == s.(connected := true, attempts := 0, delays := [])
    ensures Step(s, Error(socket)) == s.(connected := false)
    ensures var closed := s.(live := s.live - {socket}, connected := false);
            if s.shuttingDown then Step(s, Close(socket)) == closed else Rescheduled(closed, Step(s, Close(socket)))
  {
  }

  /** A timer that fires, and a call from outside, connect; `disconnect` clears the remembered timer only. */
  lemma OtherEvents(s: State, timer: nat, ok: bool)
    ensures Connected(s, Step(s, Connect(ok)), ok)
    ensures timer in s.timers ==> Connected(s.(timers := s.timers - {timer}), Step(s, Fire(timer, ok)), ok)
    ensures var s' := Step(s, Disconnect);
            && s'.shuttingDown && !s'.connected && s'.client == None && s'.handle == None
            && s'.timers == s.timers - (if s.handle.Some? then {s.handle.value} else {})
            && s'.live == s.live && s'.attempts == s.attempts && s'.connects == s.connects
  {
  }

  /** The remembered timer fires `n` times, each time without a socket. */
  function Retry(s: State, n: nat): State
    decreases n
  {
    if n == 0 || s.handle.None? then s else Retry(Step(s, Fire(s.handle.value, false)), n - 1)
  }

  lemma {:induction false} RetriesRunOut(s: State, n: nat)
    requires s.attempts <= 5 && s.attempts + n == 5 && s.handle.Some? && s.timers == {s.handle.value}
    requires s.handle.value < s.nextId
    ensures var s' := Retry(s, n);
            && s'.attempts == 5 && s'.connects == s.connects + n && s'.handle.Some? && s'.timers == {s'.handle.value}
            && Step(s', Fire(s'.handle.value, false)).timers == {}
    decreases n
  {
    if n > 0 {
      var s1 := Step(s, Fire(s.handle.value, false));
      assert s.timers - {s.handle.value} == {};
      assert s1.timers == {s.nextId};
      RetriesRunOut(s1, n - 1);
    } else {
      assert s.timers - {s.handle.value} == {};
    }
  }

  /** An open socket that closes, and a server that does not come back: five attempts, and then no more.
      An open in between starts the count again. */
  lemma GivesUpAfterFive(s: State, socket: nat)
    requires s.live == {socket} && s.timers == {} && !s.shuttingDown && socket < s.nextId
    ensures var lost := Step(Step(s, Open(socket)), Close(socket));
            var last := Retry(lost, 4);
            && lost.attempts == 1 && lost.delays == [5000]
            && last.connects == s.connects + 4 && last.handle.Some?
            && var over := Step(last, Fire(last.handle.value, false));
            && over.connects == s.connects + 5 && over.timers == {} && over.live == {}
  {
    var lost := Step(Step(s, Open(socket)), Close(socket));
    RetriesRunOut(lost, 4);
    RetriesOpenNothing(lost, 4);
  }

  lemma {:induction false} RetriesOpenNothing(s: State, n: nat)
    ensures Retry(s, n).live == s.live
    decreases n
  {
    if n > 0 && s.handle.Some? {
      RetriesOpenNothing(Step(s, Fire(s.handle.value, false)), n - 1);
    }
  }

  // ---------------------------------------------------------------- backoff

  function Sum(s: seq<nat>): nat {
    if s == [] then 0 else s[0] + Sum(s[1..])
  }

  predicate Backoff(s: State) {
    && s.attempts <= 5
    && |s.delays| == s.attempts
    && forall k :: 0 <= k < |s.delays| ==> s.delays[k] == 5000 * (k + 1)
  }

  lemma {:induction false} RunBacksOff(s: State, events: seq<Event>)
    requires Backoff(s)
    ensures Backoff(Run(s, events))
    decreases |events|
  {
    if events != [] {
      RunBacksOff(Step(s, events[0]), events[1..]);
    }
  }

  /** In every run at most five reconnects are scheduled between two opens, the k-th after 5 s * k,
      75 s in all. */
  lemma BackoffIsBounded(events: seq<Event>)
    ensures var s := Run(Initial(), events);
            && s.attempts == |s.delays| <= 5
            && (forall k :: 0 <= k < |s.delays| ==> s.delays[k] == 5000 * (k + 1))
            && Sum(s.delays) <= 75000
  {
    RunBacksOff(Initial(), events);
    var d := Run(Initial(), events).delays;
    assert forall k :: 0 <= k < |d| ==> d[k] <= 25000;
    var full := [5000, 10000, 15000, 20000, 25000];
    assert d == full[..|d|];
    assert Sum(full[..0]) == 0 && Sum(full[..1]) == 5000;
    SumPrefix(full, |d|);
    assert Sum(full) == 75000 by {
      assert full[1..] == [10000, 15000, 20000, 25000] && full[2..] == [15000, 20000, 25000];
      assert full[1..][1..] == full[2..] && full[2..][1..] == [20000, 25000] && [20000, 25000][1..] == [25000];
    }
  }

  lemma {:induction false} SumPrefix(s: seq<nat>, n: nat)
    requires n <= |s|
    ensures Sum(s[..n]) <= Sum(s)
  {
    if n > 0 {
      assert s[..n][1..] == s[1..][..n - 1];
      SumPrefix(s[1..], n - 1);
    }
  }

  // ---------------------------------------------------------------- no connect after disconnect

  function OutsideConnects(events: seq<Event>): nat {
    if events == [] then 0 else (if events[0].Connect? then 1 else 0) + OutsideConnects(events[1..])
  }

  predicate Numbered(s: State) {
    && (forall x :: x in s.live ==> x < s.nextId)
    && (forall t :: t in s.timers ==> t < s.nextId)
  }

  predicate Within(s: State, budget: int) {
    && Numbered(s)
    && |s.live| + |s.timers| <= budget
  }

  /** The remembered timer is the only pending one. */
  predicate Remembered(s: State) {
    forall t :: t in s.timers ==> s.handle == Some(t)
  }

  lemma ConnectWithin(s: State, ok: bool, budget: int)
    requires Within(s, budget)
    ensures Within(DoConnect(s, ok), budget + 1)
    ensures s.live == {} && s.timers == {} ==> Remembered(DoConnect(s, ok))
  {
    Added(s.live, s.nextId);
    Added(s.timers, s.nextId);
  }

  lemma Added(xs: set<nat>, x: nat)
    ensures |xs + {x}| == |xs| + if x in xs then 0 else 1
  {
    if x in xs { assert xs + {x} == xs; }
  }

  lemma Removed(xs: set<nat>, x: nat)
    ensures |xs - {x}| == |xs| - if x in xs then 1 else 0
  {
    if x !in xs { assert xs - {x} == xs; }
  }

  lemma FireWithin(s: State, timer: nat, ok: bool, budget: int)
    requires Within(s, budget)
    ensures Within(Step(s, Fire(timer, ok)), budget)
  {
    if timer in s.timers {
      Removed(s.timers, timer);
      ConnectWithin(s.(timers := s.timers - {timer}), ok, budget - 1);
    }
  }

  lemma CloseWithin(s: State, socket: nat, budget: int)
    requires Within(s, budget)
    ensures Within(Step(s, Close(socket)), budget)
  {
    Removed(s.live, socket);
    Added(s.timers, s.nextId);
  }

  lemma StepWithin(s: State, e: Event, budget: int)
    requires Within(s, budget)
    ensures Within(Step(s, e), budget + if e.Connect? then 1 else 0)
  {
    match e
    case Connect(ok) => ConnectWithin(s, ok, budget);
    case Fire(timer, ok) => FireWithin(s, timer, ok, budget);
    case Close(socket) => CloseWithin(s, socket, budget);
    case Disconnect => if s.handle.Some? { Removed(s.timers, s.handle.value); }
    case _ =>
  }

  lemma OnlyOne(xs: set<nat>, ys: set<nat>, x: nat)
    requires |xs| + |ys| <= 1 && x in xs
    ensures xs - {x} == {} && ys == {}
  {
    Removed(xs, x);
  }

  lemma FireRemembers(s: State, timer: nat, ok: bool)
    requires Within(s, 1) && Remembered(s)
    ensures Remembered(Step(s, Fire(timer, ok)))
  {
    if timer in s.timers {
      OnlyOne(s.timers, s.live, timer);
      ConnectWithin(s.(timers := s.timers - {timer}), ok, 0);
    }
  }

  lemma StepRemembers(s: State, e: Event)
    requires Within(s, if e.Connect? then 0 else 1) && Remembered(s)
    ensures Remembered(Step(s, e))
  {
    match e
    case Connect(ok) => ConnectWithin(s, ok, 0);
    case Fire(timer, ok) => FireRemembers(s, timer, ok);
    case Close(socket) =>
      if socket in s.live { OnlyOne(s.live, s.timers, socket); }
    case Disconnect => assert Step(s, e).timers == {};
    case _ => assert Step(s, e).timers == s.timers && Step(s, e).handle == s.handle;
  }

  lemma {:induction false} RunWithin(s: State, events: seq<Event>, budget: int)
    requires Within(s, budget)
    ensures Within(Run(s, events), budget + OutsideConnects(events))
    ensures budget + OutsideConnects(events) <= 1 && Remembered(s) ==> Remembered(Run(s, events))
    decreases |events|
  {
    if events != [] {
      StepWithin(s, events[0], budget);
      if budget + OutsideConnects(events) <= 1 && Remembered(s) { StepRemembers(s, events[0]); }
      RunWithin(Step(s, events[0]), events[1..], budget + if events[0].Connect? then 1 else 0);
    }
  }

  /** Open sockets and pending timers together never outnumber the outside calls of `connect`; with
      one such call at most one timer is pending, and it is the one `disconnect` clears. */
  lemma PendingBoundedByConnects(events: seq<Event>)
    ensures var s := Run(Initial(), events);
            && |s.live| + |s.timers| <= OutsideConnects(events)
            && (OutsideConnects(events) <= 1 ==> Remembered(s) && Step(s, Disconnect).timers == {})
  {
    RunWithin(Initial(), events, 0);
  }

  predicate NoOutsideConnect(events: seq<Event>) {
    forall k :: 0 <= k < |events| ==> !events[k].Connect?
  }

  lemma {:induction false} QuietAfterShutdown(s: State, events: seq<Event>)
    requires s.shuttingDown && s.timers == {} && NoOutsideConnect(events)
    ensures Run(s, events).connects == s.connects
    decreases |events|
  {
    if events != [] {
      assert !events[0].Connect?;
      QuietAfterShutdown(Step(s, events[0]), events[1..]);
    }
  }

  /** After `disconnect` no reconnect ever happens, exactly when the one remembered timer was the
      only pending one. */
  lemma DisconnectIsFinalIff(s: State)
    ensures var s' := Step(s, Disconnect);
            (forall events | NoOutsideConnect(events) :: Run(s', events).connects == s'.connects) <==> Remembered(s)
  {
    var s' := Step(s, Disconnect);
    if Remembered(s) {
      forall events | NoOutsideConnect(events) ensures Run(s', events).connects == s'.connects {
        QuietAfterShutdown(s', events);
      }
    } else {
      var t :| t in s.timers && s.handle != Some(t);
      assert t in s'.timers;
      var events := [Fire(t, true)];
      assert events[1..] == [];
      assert NoOutsideConnect(events) && Run(s', events) == Step(s', Fire(t, true));
    }
  }

  /** With `connect` called from outside once, `disconnect` is final in every run. */
  lemma SingleConnectDisconnectIsFinal(before: seq<Event>, after: seq<Event>)
    requires OutsideConnects(before) <= 1 && NoOutsideConnect(after)
    ensures var s := Step(Run(Initial(), before), Disconnect);
            Run(s, after).connects == s.connects
  {
    PendingBoundedByConnects(before);
    DisconnectIsFinalIff(Run(Initial(), before));
  }

  /** With two outside calls it is not: both sockets close, and only the second timer is cleared. */
  lemma TwoConnectsEscapeDisconnect()
    ensures var s := Step(Step(Step(Step(Initial(), Connect(true)), Connect(true)), Close(0)), Close(1));
            !Remembered(s) && Step(Step(s, Disconnect), Fire(2, true)).connects == 3
  {
    var s := Step(Step(Step(Step(Initial(), Connect(true)), Connect(true)), Close(0)), Close(1));
    assert s.handle == Some(3) && 2 in s.timers;
  }
}
