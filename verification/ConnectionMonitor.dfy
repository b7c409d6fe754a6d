/** Connection status, alerts and the circuit breaker (services/WebSocketMonitorService.ts).

    Times are milliseconds. A probe has one `await`, so it is two atomic steps: the skip test when
    it begins, and everything after the ping when it ends. */
module ConnectionMonitor {
  import opened Optional

  const MAX_FAILURES: nat := 3
  const CIRCUIT_BREAKER_TIMEOUT: nat := 30000
  const MAX_ALERTS: nat := 100

  datatype Service = Database | Cache | Queue | Email | ObjectStorage
  datatype Status = Connected | Disconnected | Reconnecting
  datatype AlertKind = Lost | Restored | Failed
  datatype Alert = Alert(kind: AlertKind, service: Service, time: int)
  datatype Breaker = Breaker(failures: nat, lastFailure: int, skipUntil: Option<int>)

  /** What the awaited ping did: answered, answered that the service is down, or threw. */
  datatype Outcome = Alive | Dead | Threw

  /** `alerts` is every alert ever created; the service itself keeps only `history`. */
  datatype State = State(
    breakers: map<Service, Breaker>,
    status: map<Service, Status>,
    history: seq<Alert>,
    alerts: seq<Alert>)

  /** `Probed` ends a pinged check, `Configured` is a check of the configuration alone, and
      `Errored` is a configuration check that threw. */
  datatype Event =
    | Probed(service: Service, outcome: Outcome, time: int)
    | Configured(service: Service, present: bool, time: int)
    | Errored(service: Service, time: int)

  function Initial(): State {
    State(map[], map[Database := Connected, Cache := Connected, Queue := Connected, Email := Connected,
                     ObjectStorage := Connected], [], [])
  }

  function StatusOf(s: State, service: Service): Option<Status> {
    if service in s.status then Some(s.status[service]) else None
  }

  function FailuresOf(s: State, service: Service): nat {
    if service in s.breakers then s.breakers[service].failures else 0
  }

  function SkipUntilOf(s: State, service: Service): Option<int> {
    if service in s.breakers then s.breakers[service].skipUntil else None
  }

  predicate ShouldSkip(s: State, service: Service, now: int) {
    SkipUntilOf(s, service).Some? && SkipUntilOf(s, service).value > now
  }

  function Last<T>(s: seq<T>, n: nat): seq<T> {
    if |s| > n then s[|s| - n..] else s
  }

  function Raise(s: State, a: Alert): State {
    s.(history := Last(s.history + [a], MAX_ALERTS), alerts := s.alerts + [a])
  }

  function UpdateStatus(s: State, service: Service, next: Status, now: int): State {
    var previous := StatusOf(s, service);
    var s := s.(status := s.status[service := next]);
    if previous.None? || previous.value == next then s
    else if next == Disconnected then Raise(s, Alert(Lost, service, now))
    else if next == Connected && previous.value == Disconnected then Raise(s, Alert(Restored, service, now))
    else s
  }

  function Fail(s: State, service: Service, now: int): State {
    var failures := FailuresOf(s, service) + 1;
    var skipUntil := if failures >= MAX_FAILURES then Some(now + CIRCUIT_BREAKER_TIMEOUT) else SkipUntilOf(s, service);
    s.(breakers := s.breakers[service := Breaker(failures, now, skipUntil)])
  }

  function Succeed(s: State, service: Service): State {
    if FailuresOf(s, service) > 0 then
      s.(breakers := s.breakers[service := s.breakers[service].(failures := 0, skipUntil := None)])
    else s
  }

  function Step(s: State, e: Event): State {
    match e
    case Probed(service, Alive, now) => Succeed(UpdateStatus(s, service, Connected, now), service)
    case Probed(service, _, now) => Fail(UpdateStatus(s, service, Disconnected, now), service, now)
    case Configured(service, present, now) => UpdateStatus(s, service, if present then Connected else Disconnected, now)
    case Errored(service, now) => Raise(s.(status := s.status[service := Disconnected]), Alert(Lost, service, now))
  }

  function Run(s: State, events: seq<Event>): State
    decreases |events|
  {
    if events == [] then s else Run(Step(s, events[0]), events[1..])
  }

  // ---------------------------------------------------------------- the class

  class Monitor {
    var circuitBreaker: map<Service, Breaker>
    var connectionStatus: map<Service, Status>
    var alertHistory: seq<Alert>
    ghost var alerts: seq<Alert>

    ghost function Abstract(): State
      reads this
    {
      State(circuitBreaker, connectionStatus, alertHistory, alerts)
    }

    constructor ()
      ensures Abstract() == Initial()
    {
      circuitBreaker := map[];
      connectionStatus := map[Database := Connected, Cache := Connected, Queue := Connected,
                              Email := Connected, ObjectStorage := Connected];
      alertHistory, alerts := [], [];
    }

    method ShouldSkipCheck(service: Service, now: int) returns (skip: bool)
      ensures skip == ShouldSkip(Abstract(), service, now)
    {
      if service !in circuitBreaker { return false; }
      var breaker := circuitBreaker[service];
      return breaker.skipUntil.Some? && breaker.skipUntil.value > now;
    }

    method RecordFailure(service: Service, now: int)
      modifies this
      ensures Abstract() == Fail(old(Abstract()), service, now)
    {
      var breaker := Breaker(0, now, None);
      if service in circuitBreaker { breaker := circuitBreaker[service]; }
      breaker := breaker.(failures := breaker.failures + 1, lastFailure := now);
      if breaker.failures >= MAX_FAILURES {
        breaker := breaker.(skipUntil := Some(now + CIRCUIT_BREAKER_TIMEOUT));
      }
      circuitBreaker := circuitBreaker[service := breaker];
    }

    method RecordSuccess(service: Service)
      modifies this
      ensures Abstract() == Succeed(old(Abstract()), service)
    {
      if service in circuitBreaker && circuitBreaker[service].failures > 0 {
        var breaker := circuitBreaker[service].(failures := 0, skipUntil := None);
        circuitBreaker := circuitBreaker[service := breaker];
      }
    }

    method CreateAlert(alert: Alert)
      modifies this
      ensures Abstract() == Raise(old(Abstract()), alert)
    {
      alertHistory := alertHistory + [alert];
      if |alertHistory| > MAX_ALERTS {
        alertHistory := alertHistory[|alertHistory| - MAX_ALERTS..];
      }
      alerts := alerts + [alert];
    }

    method UpdateConnectionStatus(service: Service, next: Status, now: int)
      modifies this
      ensures Abstract() == UpdateStatus(old(Abstract()), service, next, now)
    {
      var known := service in connectionStatus;
      var previous := if known then connectionStatus[service] else next;
      connectionStatus := connectionStatus[service := next];
      if known && previous != next {
        if next == Disconnected {
          CreateAlert(Alert(Lost, service, now));
        } else if next == Connected && previous == Disconnected {
          CreateAlert(Alert(Restored, service, now));
        }
      }
    }

    /** The part of `checkDatabaseConnection` after its await. */
    method EndDatabaseCheck(outcome: Outcome, now: int)
      modifies this
      ensures Abstract() == Step(old(Abstract()), Probed(Database, outcome, now))
    {
      match outcome {
        case Alive =>
          UpdateConnectionStatus(Database, Connected, now);
          RecordSuccess(Database);
        case Dead =>
          UpdateConnectionStatus(Database, Disconnected, now);
          RecordFailure(Database, now);
        case Threw =>
          RecordFailure(Database, now);
          UpdateConnectionStatus(Database, Disconnected, now);
      }
    }

    /** The queue and e-mail checks: `present` is None when reading the configuration threw. */
    method CheckConfigured(service: Service, present: Option<bool>, now: int)
      modifies this
      ensures Abstract() == Step(old(Abstract()),
                                 if present.None? then Errored(service, now) else Configured(service, present.value, now))
    {
      if present.None? {
        connectionStatus := connectionStatus[service := Disconnected];
        CreateAlert(Alert(Lost, service, now));
      } else {
        UpdateConnectionStatus(service, if present.value then Connected else Disconnected, now);
      }
    }

    /** Where the history is kept as this class keeps it, every alert in it is counted once, and there
        are as many as were ever raised, up to a hundred. */
    method GetMonitoringStats() returns (total: nat, lost: nat, restored: nat)
      ensures lost == |OfKind(alertHistory, Lost)| && restored == |OfKind(alertHistory, Restored)|
      ensures HistoryIsTail(Abstract()) ==>
                total == lost + restored == if |alerts| < MAX_ALERTS then |alerts| else MAX_ALERTS
    {
      total, lost, restored := |alertHistory|, 0, 0;
      for i := 0 to |alertHistory|
        invariant lost == |OfKind(alertHistory[..i], Lost)| && restored == |OfKind(alertHistory[..i], Restored)|
      {
        OfKindAppend(alertHistory[..i], alertHistory[i], Lost);
        OfKindAppend(alertHistory[..i], alertHistory[i], Restored);
        assert alertHistory[..i] + [alertHistory[i]] == alertHistory[..i + 1];
        if alertHistory[i].kind == Lost { lost := lost + 1; }
        if alertHistory[i].kind == Restored { restored := restored + 1; }
      }
      assert alertHistory[..|alertHistory|] == alertHistory;
      if HistoryIsTail(Abstract()) { KindsAddUp(alertHistory); }
    }
  }

  function OfKind(alerts: seq<Alert>, kind: AlertKind): seq<Alert> {
    if alerts == [] then []
    else (if alerts[0].kind == kind then [alerts[0]] else []) + OfKind(alerts[1..], kind)
  }

  lemma {:induction false} OfKindAppend(alerts: seq<Alert>, a: Alert, kind: AlertKind)
    ensures |OfKind(alerts + [a], kind)| == |OfKind(alerts, kind)| + if a.kind == kind then 1 else 0
  {
    if alerts != [] {
      assert (alerts + [a])[1..] == alerts[1..] + [a];
      OfKindAppend(alerts[1..], a, kind);
    } else {
      assert alerts + [a] == [a] && [a][1..] == [];
    }
  }

  // ---------------------------------------------------------------- alert log

  function Of(alerts: seq<Alert>, service: Service): seq<AlertKind> {
    if alerts == [] then []
    else
      var last := alerts[|alerts| - 1];
      Of(alerts[..|alerts| - 1], service) + if last.service == service then [last.kind] else []
  }

  /** Lost, restored, lost, restored, and so on. */
  predicate Alternates(kinds: seq<AlertKind>) {
    forall k :: 0 <= k < |kinds| ==> kinds[k] == if k % 2 == 0 then Lost else Restored
  }

  /** The service's log alternates and its status is what the last alert said. */
  predicate Linked(s: State, service: Service) {
    var kinds := Of(s.alerts, service);
    && Alternates(kinds)
    && StatusOf(s, service) == Some(if |kinds| % 2 == 0 then Connected else Disconnected)
  }

  predicate HistoryIsTail(s: State) {
    && s.history == Last(s.alerts, MAX_ALERTS)
    && forall k :: 0 <= k < |s.alerts| ==> s.alerts[k].kind != Failed
  }

  /** A check of `service` that throws does so only while the service counts as connected. */
  predicate Quiet(s: State, events: seq<Event>, service: Service)
    decreases |events|
  {
    if events == [] then true else
      && (Throws(events[0], service) ==> StatusOf(s, service) == Some(Connected))
      && Quiet(Step(s, events[0]), events[1..], service)
  }

  /** The kind of alert a step raises, if it raises one. */
  function Raises(s: State, e: Event): Option<AlertKind> {
    var next := if e.Errored? || (e.Probed? && !e.outcome.Alive?) || (e.Configured? && !e.present)
                then Disconnected else Connected;
    if e.Errored? then Some(Lost)
    else if StatusOf(s, e.service).None? || StatusOf(s, e.service).value == next then None
    else if next == Disconnected then Some(Lost)
    else if StatusOf(s, e.service).value == Disconnected then Some(Restored)
    else None
  }

  lemma StepRaises(s: State, e: Event)
    ensures Step(s, e).alerts
            == s.alerts + if Raises(s, e).Some? then [Alert(Raises(s, e).value, e.service, e.time)] else []
  {
  }

  /** What a step adds to a service's log. */
  lemma StepAppends(s: State, e: Event, service: Service)
    ensures Of(Step(s, e).alerts, service)
            == Of(s.alerts, service) + if Raises(s, e).Some? && e.service == service then [Raises(s, e).value] else []
  {
    StepRaises(s, e);
    if Raises(s, e).Some? {
      var a := Alert(Raises(s, e).value, e.service, e.time);
      assert (s.alerts + [a])[..|s.alerts|] == s.alerts;
    }
  }

  lemma StepStatus(s: State, e: Event, service: Service)
    ensures StatusOf(Step(s, e), service)
            == if e.service != service then StatusOf(s, service)
               else if e.Errored? || (e.Probed? && !e.outcome.Alive?) || (e.Configured? && !e.present) then Some(Disconnected)
               else Some(Connected)
  {
  }

  predicate Throws(e: Event, service: Service) {
    e.Errored? && e.service == service
  }

  lemma AppendAlternates(kinds: seq<AlertKind>, kind: AlertKind)
    requires Alternates(kinds)
    ensures Alternates(kinds + [kind]) <==> kind == if |kinds| % 2 == 0 then Lost else Restored
  {
    assert (kinds + [kind])[|kinds|] == kind;
  }

  lemma StepLinks(s: State, e: Event, service: Service)
    requires Linked(s, service)
    ensures if Throws(e, service) && StatusOf(s, service) == Some(Disconnected)
            then !Alternates(Of(Step(s, e).alerts, service))
            else Linked(Step(s, e), service)
  {
    var kinds, raised := Of(s.alerts, service), Raises(s, e);
    StepAppends(s, e, service);
    StepStatus(s, e, service);
    if raised.Some? && e.service == service {
      AppendAlternates(kinds, raised.value);
      assert Of(Step(s, e).alerts, service) == kinds + [raised.value];
    } else {
      assert Of(Step(s, e).alerts, service) == kinds;
    }
  }

  lemma {:induction false} BrokenStaysBroken(s: State, events: seq<Event>, service: Service)
    requires !Alternates(Of(s.alerts, service))
    ensures !Alternates(Of(Run(s, events).alerts, service))
    decreases |events|
  {
    if events != [] {
      StepAppends(s, events[0], service);
      var was, now := Of(s.alerts, service), Of(Step(s, events[0]).alerts, service);
      var k :| 0 <= k < |was| && was[k] != if k % 2 == 0 then Lost else Restored;
      assert now[k] == was[k];
      BrokenStaysBroken(Step(s, events[0]), events[1..], service);
    }
  }

  lemma {:induction false} RunLinks(s: State, events: seq<Event>, service: Service)
    requires Linked(s, service)
    ensures Quiet(s, events, service) ==> Linked(Run(s, events), service)
    ensures !Quiet(s, events, service) ==> !Alternates(Of(Run(s, events).alerts, service))
    decreases |events|
  {
    if events != [] {
      var s' := Step(s, events[0]);
      StepLinks(s, events[0], service);
      if Linked(s', service) {
        RunLinks(s', events[1..], service);
      } else {
        BrokenStaysBroken(s', events[1..], service);
      }
    }
  }

  /** Every service's full alert log alternates exactly when no check of it threw while it already
      counted as disconnected; then the last alert agrees with the current status. */
  lemma AlertsAlternateIff(events: seq<Event>, service: Service)
    ensures var s := Run(Initial(), events);
            && (Alternates(Of(s.alerts, service)) <==> Quiet(Initial(), events, service))
            && (Quiet(Initial(), events, service) ==> Linked(s, service))
  {
    RunLinks(Initial(), events, service);
  }

  lemma {:induction false} RunWithoutErrorsIsQuiet(s: State, events: seq<Event>, service: Service)
    requires forall k :: 0 <= k < |events| ==> !Throws(events[k], service)
    ensures Quiet(s, events, service)
    decreases |events|
  {
    if events != [] {
      forall k | 0 <= k < |events[1..]| ensures !Throws(events[1..][k], service) {
        assert events[1..][k] == events[k + 1];
      }
      RunWithoutErrorsIsQuiet(Step(s, events[0]), events[1..], service);
    }
  }

  /** A service none of whose checks throws has an alternating log in every run. Database checks catch
      what the ping throws themselves, and the configuration checks throw for a missing configuration
      only. */
  lemma UnthrowingServiceAlternates(events: seq<Event>, service: Service)
    requires forall k :: 0 <= k < |events| ==> !Throws(events[k], service)
    ensures Linked(Run(Initial(), events), service)
  {
    RunWithoutErrorsIsQuiet(Initial(), events, service);
    AlertsAlternateIff(events, service);
  }

  /** The failing case: two e-mail checks in a row that throw report the connection lost twice. */
  lemma ThrowingTwiceRepeatsLost(first: int, second: int)
    ensures var events := [Errored(Email, first), Errored(Email, second)];
            && Of(Run(Initial(), events).alerts, Email) == [Lost, Lost]
            && !Quiet(Initial(), events, Email) && !Alternates([Lost, Lost])
  {
    var events := [Errored(Email, first), Errored(Email, second)];
    var s1 := Step(Initial(), events[0]);
    var s2 := Step(s1, events[1]);
    assert events[1..] == [events[1]] && events[1..][1..] == [];
    assert Run(s1, events[1..]) == s2;
    StepAppends(Initial(), events[0], Email);
    StepAppends(s1, events[1], Email);
    assert Of(s2.alerts, Email) == [Lost] + [Lost];
    AlertsAlternateIff(events, Email);
    assert [Lost, Lost][1] == Lost;
  }

  lemma RaiseKeepsTail(s: State, a: Alert)
    requires HistoryIsTail(s) && a.kind != Failed
    ensures HistoryIsTail(Raise(s, a))
  {
    assert Last(Last(s.alerts, MAX_ALERTS) + [a], MAX_ALERTS) == Last(s.alerts + [a], MAX_ALERTS);
  }

  lemma {:induction false} RunKeepsTail(s: State, events: seq<Event>)
    requires HistoryIsTail(s)
    ensures HistoryIsTail(Run(s, events))
    decreases |events|
  {
    if events != [] {
      var e := events[0];
      RaiseKeepsTail(s, Alert(Lost, e.service, e.time));
      RaiseKeepsTail(s, Alert(Restored, e.service, e.time));
      RunKeepsTail(Step(s, e), events[1..]);
    }
  }

  lemma {:induction false} KindsAddUp(alerts: seq<Alert>)
    requires forall k :: 0 <= k < |alerts| ==> alerts[k].kind != Failed
    ensures |OfKind(alerts, Lost)| + |OfKind(alerts, Restored)| == |alerts|
  {
    if alerts != [] {
      KindsAddUp(alerts[1..]);
    }
  }

  /** The kept history is the last hundred alerts, and the statistics account for each of them. */
  lemma HistoryIsLastHundred(events: seq<Event>)
    ensures var s := Run(Initial(), events);
            && s.history == (if |s.alerts| > 100 then s.alerts[|s.alerts| - 100..] else s.alerts)
            && |OfKind(s.history, Lost)| + |OfKind(s.history, Restored)| == |s.history|
  {
    RunKeepsTail(Initial(), events);
    KindsAddUp(Run(Initial(), events).history);
  }

  // ---------------------------------------------------------------- alerts count outages

  predicate AllKnown(s: State) {
    forall service: Service :: StatusOf(s, service) == Some(Connected) || StatusOf(s, service) == Some(Disconnected)
  }

  function Down(s: State, service: Service): nat {
    if StatusOf(s, service) == Some(Disconnected) then 1 else 0
  }

  function DownCount(s: State): nat {
    Down(s, Database) + Down(s, Cache) + Down(s, Queue) + Down(s, Email) + Down(s, ObjectStorage)
  }

  function Balance(alerts: seq<Alert>): int {
    |OfKind(alerts, Lost)| - |OfKind(alerts, Restored)|
  }

  lemma StepBalances(s: State, e: Event)
    requires AllKnown(s) && (e.Errored? ==> StatusOf(s, e.service) == Some(Connected))
    ensures AllKnown(Step(s, e))
    ensures Balance(Step(s, e).alerts) - Balance(s.alerts) == DownCount(Step(s, e)) - DownCount(s)
  {
    StepAddsToBalance(s, e);
    forall service: Service
      ensures StatusOf(Step(s, e), service) == Some(Connected) || StatusOf(Step(s, e), service) == Some(Disconnected)
      ensures service != e.service ==> Down(Step(s, e), service) == Down(s, service)
    {
      StepStatus(s, e, service);
    }
    StepStatus(s, e, e.service);
  }

  lemma StepAddsToBalance(s: State, e: Event)
    ensures Balance(Step(s, e).alerts)
            == Balance(s.alerts) + if Raises(s, e) == Some(Lost) then 1 else if Raises(s, e) == Some(Restored) then -1 else 0
  {
    StepRaises(s, e);
    if Raises(s, e).Some? {
      var a := Alert(Raises(s, e).value, e.service, e.time);
      OfKindAppend(s.alerts, a, Lost);
      OfKindAppend(s.alerts, a, Restored);
    }
  }

  lemma {:induction false} RunBalances(s: State, events: seq<Event>)
    requires AllKnown(s) && forall service: Service :: Quiet(s, events, service)
    ensures Balance(Run(s, events).alerts) - Balance(s.alerts) == DownCount(Run(s, events)) - DownCount(s)
    decreases |events|
  {
    if events != [] {
      assert Quiet(s, events, events[0].service);
      StepBalances(s, events[0]);
      forall service: Service ensures Quiet(Step(s, events[0]), events[1..], service) {
        assert Quiet(s, events, service);
      }
      RunBalances(Step(s, events[0]), events[1..]);
    }
  }

  /** In every run whose alerts alternate, lost alerts outnumber restored ones by exactly the number of
      services that are down; the statistics say so as long as at most a hundred were raised. */
  lemma AlertsCountOutages(events: seq<Event>)
    requires forall service: Service :: Quiet(Initial(), events, service)
    ensures var s := Run(Initial(), events);
            && Balance(s.alerts) == DownCount(s)
            && (|s.alerts| <= 100 ==> |OfKind(s.history, Lost)| - |OfKind(s.history, Restored)| == DownCount(s))
  {
    forall service: Service ensures StatusOf(Initial(), service) == Some(Connected) {
      match service case Database => case Cache => case Queue => case Email => case ObjectStorage =>
    }
    RunBalances(Initial(), events);
    RunKeepsTail(Initial(), events);
  }

  // ---------------------------------------------------------------- circuit breaker

  /** A whole check of the watched service, begun when the previous one had ended, or an event that
      does not probe it. */
  datatype Happening =
    | Check(begin: int, end: int, outcome: Outcome)
    | Elsewhere(event: Event)

  /** `streak` holds the times at which the failures of the current outage were recorded. */
  datatype Watched = Watched(monitor: State, streak: seq<int>)

  function Watch(w: Watched, service: Service, h: Happening): Watched {
    match h
    case Elsewhere(e) => w.(monitor := Step(w.monitor, e))
    case Check(begin, end, outcome) =>
      if ShouldSkip(w.monitor, service, begin) then w
      else Watched(Step(w.monitor, Probed(service, outcome, end)), if outcome.Alive? then [] else w.streak + [end])
  }

  function WatchAll(w: Watched, service: Service, hs: seq<Happening>): Watched
    decreases |hs|
  {
    if hs == [] then w else WatchAll(Watch(w, service, hs[0]), service, hs[1..])
  }

  predicate Sensible(h: Happening, service: Service) {
    match h
    case Check(begin, end, _) => begin <= end
    case Elsewhere(e) => e.Probed? ==> e.service != service
  }

  predicate Tracks(w: Watched, service: Service) {
    var n := |w.streak|;
    && FailuresOf(w.monitor, service) == n
    && SkipUntilOf(w.monitor, service) == (if n >= 3 then Some(w.streak[n - 1] + 30000) else None)
    && forall k :: 3 <= k < n ==> w.streak[k] >= w.streak[k - 1] + 30000
  }

  lemma StepKeepsBreaker(s: State, e: Event, service: Service)
    requires e.Probed? ==> e.service != service
    ensures FailuresOf(Step(s, e), service) == FailuresOf(s, service)
    ensures SkipUntilOf(Step(s, e), service) == SkipUntilOf(s, service)
  {
  }

  lemma StepCounts(s: State, service: Service, outcome: Outcome, now: int)
    requires FailuresOf(s, service) == 0 ==> SkipUntilOf(s, service) == None
    ensures var s' := Step(s, Probed(service, outcome, now));
            && FailuresOf(s', service) == (if outcome.Alive? then 0 else FailuresOf(s, service) + 1)
            && SkipUntilOf(s', service) == if outcome.Alive? then None
                                           else if FailuresOf(s, service) >= 2 then Some(now + 30000)
                                           else SkipUntilOf(s, service)
  {
  }

  lemma WatchKeeps(w: Watched, service: Service, h: Happening)
    requires Tracks(w, service) && Sensible(h, service)
    ensures Tracks(Watch(w, service, h), service)
  {
    match h
    case Elsewhere(e) => StepKeepsBreaker(w.monitor, e, service);
    case Check(begin, end, outcome) =>
      if !ShouldSkip(w.monitor, service, begin) { StepCounts(w.monitor, service, outcome, end); }
  }

  lemma {:induction false} WatchTracks(w: Watched, service: Service, hs: seq<Happening>)
    requires Tracks(w, service)
    requires forall k :: 0 <= k < |hs| ==> Sensible(hs[k], service)
    ensures Tracks(WatchAll(w, service, hs), service)
    decreases |hs|
  {
    if hs != [] {
      assert Sensible(hs[0], service);
      WatchKeeps(w, service, hs[0]);
      WatchTracks(Watch(w, service, hs[0]), service, hs[1..]);
    }
  }

  lemma {:induction false} StreakSpreads(streak: seq<int>, n: nat)
    requires 2 <= n < |streak|
    requires forall k :: 3 <= k < |streak| ==> streak[k] >= streak[k - 1] + 30000
    ensures streak[n] >= streak[2] + (n - 2) * 30000
  {
    if n > 2 {
      StreakSpreads(streak, n - 1);
    }
  }

  /** Over any run of non-overlapping checks `failures` is the length of the current failure streak,
      the breaker is open exactly from the third failure on, and the n-th failure of an outage is
      recorded no earlier than (n - 3) * 30 s after the third. */
  lemma BreakerBoundsProbeRate(service: Service, hs: seq<Happening>)
    requires forall k :: 0 <= k < |hs| ==> Sensible(hs[k], service)
    ensures var w := WatchAll(Watched(Initial(), []), service, hs);
            && FailuresOf(w.monitor, service) == |w.streak|
            && (SkipUntilOf(w.monitor, service).Some? <==> |w.streak| >= 3)
            && forall k :: 2 <= k < |w.streak| ==> w.streak[k] >= w.streak[2] + (k - 2) * 30000
  {
    WatchTracks(Watched(Initial(), []), service, hs);
    var streak := WatchAll(Watched(Initial(), []), service, hs).streak;
    forall k | 2 <= k < |streak| ensures streak[k] >= streak[2] + (k - 2) * 30000 {
      StreakSpreads(streak, k);
    }
  }

  /** One answered probe closes the breaker for good measure, whatever state it was in after a run. */
  lemma SuccessClosesBreaker(service: Service, hs: seq<Happening>, begin: int, end: int, later: int)
    requires forall k :: 0 <= k < |hs| ==> Sensible(hs[k], service)
    requires begin <= end
    ensures var w := WatchAll(Watched(Initial(), []), service, hs);
            !ShouldSkip(w.monitor, service, begin) ==>
              var s := Watch(w, service, Check(begin, end, Alive)).monitor;
              FailuresOf(s, service) == 0 && !ShouldSkip(s, service, later) && StatusOf(s, service) == Some(Connected)
  {
    WatchTracks(Watched(Initial(), []), service, hs);
  }

  /** The check is skipped: three failures or more, and not yet 30 s since the last of them. */
  predicate HeldOff(streak: seq<int>, begin: int) {
    |streak| >= 3 && begin < streak[|streak| - 1] + 30000
  }

  /** What a check does after any run, read off the streak of failures. Held off, it leaves everything as
      it was. Otherwise it has its effect on its own service, and on no other: answered, the streak is
      over and the service connected; not answered, there is one more failure, recorded now, and the
      service is disconnected. */
  lemma CheckMeaning(service: Service, hs: seq<Happening>, begin: int, end: int, outcome: Outcome, other: Service)
    requires begin <= end && other != service
    requires forall k :: 0 <= k < |hs| ==> Sensible(hs[k], service)
    ensures var w := WatchAll(Watched(Initial(), []), service, hs);
            var w' := Watch(w, service, Check(begin, end, outcome));
            && (HeldOff(w.streak, begin) ==> w' == w)
            && (!HeldOff(w.streak, begin) ==>
                  && w'.streak == (if outcome == Alive then [] else w.streak + [end])
                  && FailuresOf(w'.monitor, service) == |w'.streak|
                  && StatusOf(w'.monitor, service) == Some(if outcome == Alive then Connected else Disconnected)
                  && (outcome != Alive ==> service in w'.monitor.breakers
                                           && w'.monitor.breakers[service].lastFailure == end))
            && FailuresOf(w'.monitor, other) == FailuresOf(w.monitor, other)
            && SkipUntilOf(w'.monitor, other) == SkipUntilOf(w.monitor, other)
            && StatusOf(w'.monitor, other) == StatusOf(w.monitor, other)
  {
    var w := WatchAll(Watched(Initial(), []), service, hs);
    WatchTracks(Watched(Initial(), []), service, hs);
    if !HeldOff(w.streak, begin) {
      CheckTakesEffect(w, service, begin, end, outcome);
      OthersUntouched(w.monitor, Probed(service, outcome, end), other);
    }
  }

  lemma CheckTakesEffect(w: Watched, service: Service, begin: int, end: int, outcome: Outcome)
    requires Tracks(w, service) && begin <= end && !HeldOff(w.streak, begin)
    ensures var w' := Watch(w, service, Check(begin, end, outcome));
            && w' == Watched(Step(w.monitor, Probed(service, outcome, end)),
                             if outcome == Alive then [] else w.streak + [end])
            && FailuresOf(w'.monitor, service) == |w'.streak|
            && StatusOf(w'.monitor, service) == Some(if outcome == Alive then Connected else Disconnected)
            && (outcome != Alive ==> service in w'.monitor.breakers && w'.monitor.breakers[service].lastFailure == end)
  {
    StepCounts(w.monitor, service, outcome, end);
    StepStatus(w.monitor, Probed(service, outcome, end), service);
    if outcome != Alive { FailureIsStamped(w.monitor, service, outcome, end); }
  }

  lemma FailureIsStamped(s: State, service: Service, outcome: Outcome, now: int)
    requires outcome != Alive
    ensures var s' := Step(s, Probed(service, outcome, now));
            service in s'.breakers && s'.breakers[service].lastFailure == now
  {
  }

  lemma OthersUntouched(s: State, e: Event, other: Service)
    requires e.service != other
    ensures FailuresOf(Step(s, e), other) == FailuresOf(s, other)
    ensures SkipUntilOf(Step(s, e), other) == SkipUntilOf(s, other)
    ensures StatusOf(Step(s, e), other) == StatusOf(s, other)
  {
    StepKeepsBreaker(s, e, other);
    StepStatus(s, e, other);
  }

  /** So a service that recovers is noticed: the first check that begins 30 s or more after the last
      failure pings, and if it is answered the breaker is closed and the service connected. */
  lemma RecoveryIsNoticed(service: Service, hs: seq<Happening>, begin: int, end: int, other: Service)
    requires begin <= end && other != service
    requires forall k :: 0 <= k < |hs| ==> Sensible(hs[k], service)
    ensures var w := WatchAll(Watched(Initial(), []), service, hs);
            var w' := Watch(w, service, Check(begin, end, Alive));
            w.streak == [] || begin >= w.streak[|w.streak| - 1] + 30000 ==>
              w'.streak == [] && FailuresOf(w'.monitor, service) == 0 && StatusOf(w'.monitor, service) == Some(Connected)
  {
    CheckMeaning(service, hs, begin, end, Alive, other);
  }

  // ---------------------------------------------------------------- overlapping probes

  /** The watched service's probes one await at a time: `inFlight` have begun and not ended, and
      `recorded` holds the times at which failures were recorded. */
  datatype Probing = Probing(monitor: State, inFlight: nat, recorded: seq<int>)
  datatype Moment = Begin(now: int) | End(outcome: Outcome, now: int) | Meanwhile(event: Event)

  function Fresh(): Probing {
    Probing(Initial(), 0, [])
  }

  function Probe(p: Probing, service: Service, m: Moment): Probing {
    match m
    case Begin(now) => if ShouldSkip(p.monitor, service, now) then p else p.(inFlight := p.inFlight + 1)
    case End(outcome, now) =>
      if p.inFlight == 0 then p
      else Probing(Step(p.monitor, Probed(service, outcome, now)), p.inFlight - 1,
                   if outcome.Alive? then p.recorded else p.recorded + [now])
    case Meanwhile(e) =>
      if e.Probed? && e.service == service then p else p.(monitor := Step(p.monitor, e))
  }

  function ProbeAll(p: Probing, service: Service, moments: seq<Moment>): Probing
    decreases |moments|
  {
    if moments == [] then p else ProbeAll(Probe(p, service, moments[0]), service, moments[1..])
  }

  predicate Within(moments: seq<Moment>, from: int, until: int) {
    forall k :: 0 <= k < |moments| && !moments[k].Meanwhile? ==> from <= moments[k].now < until
  }

  /** A check that nothing overlaps is its begin followed by its end. */
  lemma CheckIsBeginThenEnd(p: Probing, service: Service, begin: int, end: int, outcome: Outcome)
    requires p.inFlight == 0
    ensures var after := Probe(Probe(p, service, Begin(begin)), service, End(outcome, end));
            && after.inFlight == 0
            && Watched(after.monitor, if outcome.Alive? && !ShouldSkip(p.monitor, service, begin) then [] else after.recorded)
               == Watch(Watched(p.monitor, p.recorded), service, Check(begin, end, outcome))
  {
  }

  predicate OpenUntil(p: Probing, service: Service, until: int) {
    SkipUntilOf(p.monitor, service).Some? && SkipUntilOf(p.monitor, service).value >= until
  }

  lemma ProbeWhileOpen(p: Probing, service: Service, m: Moment, until: int)
    requires OpenUntil(p, service, until) && Within([m], until - 30000, until)
    requires m.End? && p.inFlight > 0 ==> !m.outcome.Alive?
    ensures var p' := Probe(p, service, m);
            && OpenUntil(p', service, until)
            && |p'.recorded| + p'.inFlight == |p.recorded| + p.inFlight
            && (p.inFlight == 0 ==> p'.recorded == p.recorded)
  {
    assert !m.Meanwhile? ==> [m][0].now < until;
    match m
    case Begin(_) =>
    case End(outcome, now) =>
      if p.inFlight > 0 {
        StatusKeepsBreaker(p.monitor, service, Disconnected, now);
      }
    case Meanwhile(e) => if !(e.Probed? && e.service == service) { StepKeepsBreaker(p.monitor, e, service); }
  }

  lemma StatusKeepsBreaker(s: State, service: Service, next: Status, now: int)
    ensures UpdateStatus(s, service, next, now).breakers == s.breakers
  {
  }

  predicate NeverAlive(moments: seq<Moment>) {
    forall k :: 0 <= k < |moments| ==> !(moments[k].End? && moments[k].outcome.Alive?)
  }

  /** While the breaker is open, failures are paid for by the probes that were under way when it opened:
      until one of them is answered, each failure recorded is one probe less under way. */
  lemma {:induction false} OpenBreakerSpendsFlights(p: Probing, service: Service, moments: seq<Moment>, until: int)
    requires OpenUntil(p, service, until) && Within(moments, until - 30000, until)
    requires p.inFlight == 0 || NeverAlive(moments)
    ensures var p' := ProbeAll(p, service, moments);
            && |p'.recorded| + p'.inFlight == |p.recorded| + p.inFlight
            && (p.inFlight == 0 ==> p'.recorded == p.recorded)
    decreases |moments|
  {
    if moments != [] {
      var m, rest := moments[0], moments[1..];
      assert Within([m], until - 30000, until) && (p.inFlight == 0 || !(m.End? && m.outcome.Alive?));
      assert forall k :: 0 <= k < |rest| ==> rest[k] == moments[k + 1];
      ProbeWhileOpen(p, service, m, until);
      OpenBreakerSpendsFlights(Probe(p, service, m), service, rest, until);
    }
  }

  /** Nothing that can happen while the breaker is open records another failure. */
  ghost predicate Holds(p: Probing, service: Service, until: int) {
    forall moments: seq<Moment> | Within(moments, until - 30000, until) ::
      ProbeAll(p, service, moments).recorded == p.recorded
  }

  /** An open breaker holds until its time is up exactly when no probe was under way. */
  lemma BreakerHoldsIff(p: Probing, service: Service, until: int)
    requires OpenUntil(p, service, until)
    ensures Holds(p, service, until) <==> p.inFlight == 0
  {
    if p.inFlight == 0 {
      forall moments: seq<Moment> | Within(moments, until - 30000, until)
        ensures ProbeAll(p, service, moments).recorded == p.recorded
      {
        OpenBreakerSpendsFlights(p, service, moments, until);
      }
    } else {
      var moments := [End(Dead, until - 1)];
      assert moments[1..] == [];
      assert ProbeAll(p, service, moments) == Probe(p, service, moments[0]);
      assert Within(moments, until - 30000, until) && |ProbeAll(p, service, moments).recorded| > |p.recorded|;
    }
  }

  function Begins(n: nat, now: int): seq<Moment> {
    if n == 0 then [] else [Begin(now)] + Begins(n - 1, now)
  }

  lemma {:induction false} BeginsPileUp(p: Probing, service: Service, n: nat, now: int)
    requires !ShouldSkip(p.monitor, service, now)
    ensures ProbeAll(p, service, Begins(n, now)) == p.(inFlight := p.inFlight + n)
    decreases n
  {
    if n > 0 {
      assert Begins(n, now)[1..] == Begins(n - 1, now);
      BeginsPileUp(Probe(p, service, Begin(now)), service, n - 1, now);
    }
  }

  /** The rate bound needs probes not to overlap: of n probes begun together three failures open the
      breaker, and it then holds exactly when there were no more than those three. */
  lemma OverlappingProbesEscapeIff(service: Service, n: nat, begin: int, now: int)
    requires n >= 3
    ensures var begun := ProbeAll(Fresh(), service, Begins(n, begin));
            var tripped := ProbeAll(begun, service, [End(Dead, now), End(Dead, now), End(Dead, now)]);
            && tripped.recorded == [now, now, now] && SkipUntilOf(tripped.monitor, service) == Some(now + 30000)
            && (Holds(tripped, service, now + 30000) <==> n == 3)
  {
    BeginsPileUp(Fresh(), service, n, begin);
    var p := ProbeAll(Fresh(), service, Begins(n, begin));
    ThreeFailuresOpen(p, service, now);
    BreakerHoldsIff(ProbeAll(p, service, [End(Dead, now), End(Dead, now), End(Dead, now)]), service, now + 30000);
  }

  lemma ThreeFailuresOpen(p: Probing, service: Service, now: int)
    requires p.inFlight >= 3 && FailuresOf(p.monitor, service) == 0
    ensures var tripped := ProbeAll(p, service, [End(Dead, now), End(Dead, now), End(Dead, now)]);
            && tripped.recorded == p.recorded + [now, now, now] && tripped.inFlight == p.inFlight - 3
            && SkipUntilOf(tripped.monitor, service) == Some(now + 30000)
  {
    var moments := [End(Dead, now), End(Dead, now), End(Dead, now)];
    assert moments[1..][1..] == moments[2..] && moments[2..][1..] == [];
    var p1 := Probe(p, service, moments[0]);
    var p2 := Probe(p1, service, moments[1]);
    var p3 := Probe(p2, service, moments[2]);
    assert ProbeAll(p2, service, moments[2..]) == p3;
    assert ProbeAll(p1, service, moments[1..]) == p3;
    assert FailuresOf(p1.monitor, service) == 1 && FailuresOf(p2.monitor, service) == 2;
  }
}
