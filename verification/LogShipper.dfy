/** The buffered log shipper (infrastructure/elasticsearch/ElasticsearchLogShipper.ts).

    A flush is split at its one `await`: detaching the buffer is one atomic step, settling
    the bulk call is another, so any number of flushes may overlap. `State` is what the steps
    act on, together with two histories: every entry taken in, and the fate of every entry
    that has left the shipper. */
module LogShipper {
  const BATCH_SIZE: nat := 100

  datatype Fate<E> = Shipped(entry: E) | Dropped(entry: E)

  /** `flights` holds the detached batches whose bulk call is outstanding, oldest first. */
  datatype State<E> = State(
    buffer: seq<E>,
    flights: seq<seq<E>>,
    enabled: bool,
    running: bool,
    accepted: seq<E>,
    settled: seq<Fate<E>>)

  /** `config` is the configuration's own enabled flag, read afresh by every call. */
  datatype Event<E> =
    | Enable
    | Start(config: bool)
    | Stop(config: bool)
    | Ship(entries: seq<E>, config: bool)
    | Tick(config: bool)
    | Settle(flight: nat, ok: bool)

  function Initial<E>(): State<E> {
    State([], [], false, false, [], [])
  }

  function Detach<E>(s: State<E>, config: bool): State<E> {
    if !(config && s.enabled) || s.buffer == [] then s
    else s.(buffer := [], flights := s.flights + [s.buffer])
  }

  function TakeIn<E>(s: State<E>, entries: seq<E>, config: bool): State<E> {
    if !(config && s.enabled) || !s.running then s
    else
      var s := s.(buffer := s.buffer + entries, accepted := s.accepted + entries);
      if |s.buffer| >= BATCH_SIZE then Detach(s, config) else s
  }

  function Without<T>(s: seq<T>, i: nat): seq<T>
    requires i < |s|
  {
    s[..i] + s[i + 1..]
  }

  function Marked<E>(entries: seq<E>, shipped: bool): (r: seq<Fate<E>>)
    ensures |r| == |entries|
    ensures forall k :: 0 <= k < |r| ==> r[k] == if shipped then Shipped(entries[k]) else Dropped(entries[k])
  {
    seq(|entries|, k requires 0 <= k < |entries| => if shipped then Shipped(entries[k]) else Dropped(entries[k]))
  }

  function Entries<E>(fates: seq<Fate<E>>): (r: seq<E>)
    ensures |r| == |fates|
    ensures forall k :: 0 <= k < |r| ==> r[k] == fates[k].entry
  {
    seq(|fates|, k requires 0 <= k < |fates| => fates[k].entry)
  }

  predicate Overflows<E>(batch: seq<E>, buffer: seq<E>) {
    |batch| + |buffer| > BATCH_SIZE * 10
  }

  /** A failed batch goes back in front, and an oversized buffer keeps its newest 500 entries. */
  function Restored<E>(s: State<E>, batch: seq<E>): State<E> {
    var whole := batch + s.buffer;
    if Overflows(batch, s.buffer) then
      var lost := whole[..|whole| - BATCH_SIZE * 5];
      s.(buffer := whole[|whole| - BATCH_SIZE * 5..], settled := s.settled + Marked(lost, false))
    else
      s.(buffer := whole)
  }

  function SettleFlight<E>(s: State<E>, i: nat, ok: bool): State<E>
    requires i < |s.flights|
  {
    var landed := s.(flights := Without(s.flights, i));
    if ok then landed.(settled := s.settled + Marked(s.flights[i], true)) else Restored(landed, s.flights[i])
  }

  /** One atomic step. Settling a flight that does not exist is no step at all. */
  function Step<E>(s: State<E>, e: Event<E>): State<E> {
    match e
    case Enable => s.(enabled := true)
    case Start(config) => if config && s.enabled then s.(running := true) else s
    case Stop(config) => if s.running then Detach(s.(running := false), config) else s
    case Ship(entries, config) => TakeIn(s, entries, config)
    case Tick(config) => Detach(s, config)
    case Settle(i, ok) => if i < |s.flights| then SettleFlight(s, i, ok) else s
  }

  function Run<E>(s: State<E>, events: seq<Event<E>>): State<E>
    decreases |events|
  {
    if events == [] then s else Run(Step(s, events[0]), events[1..])
  }

  // ---------------------------------------------------------------- the class

  class ElasticsearchLogShipper<E> {
    var logBuffer: seq<E>
    var isShipperEnabled: bool
    var isRunning: bool
    ghost var flights: seq<seq<E>>
    ghost var accepted: seq<E>
    ghost var settled: seq<Fate<E>>

    ghost function Abstract(): State<E>
      reads this
    {
      State(logBuffer, flights, isShipperEnabled, isRunning, accepted, settled)
    }

    constructor ()
      ensures Abstract() == Initial()
    {
      logBuffer, isShipperEnabled, isRunning := [], false, false;
      flights, accepted, settled := [], [], [];
    }

    method EnableShipper()
      modifies this
      ensures Abstract() == Step(old(Abstract()), Enable)
    {
      isShipperEnabled := true;
    }

    method StartShipper(config: bool)
      modifies this
      ensures Abstract() == Step(old(Abstract()), Start(config))
    {
      if !(config && isShipperEnabled) { return; }
      if isRunning { return; }
      isRunning := true;
    }

    /** `batch` is handed to the bulk call; it is empty when there is none. */
    method StopShipper(config: bool) returns (batch: seq<E>)
      modifies this
      ensures Abstract() == Step(old(Abstract()), Stop(config))
      ensures |flights| == |old(flights)| + (if batch == [] then 0 else 1)
      ensures batch != [] ==> flights[|old(flights)|] == batch
    {
      if !isRunning { return []; }
      isRunning := false;
      batch := BeginFlush(config);
    }

    method ShipLog(entry: E, config: bool) returns (batch: seq<E>)
      modifies this
      ensures Abstract() == Step(old(Abstract()), Ship([entry], config))
      ensures |flights| == |old(flights)| + (if batch == [] then 0 else 1)
      ensures batch != [] ==> flights[|old(flights)|] == batch
    {
      if !(config && isShipperEnabled) || !isRunning { return []; }
      logBuffer, accepted := logBuffer + [entry], accepted + [entry];
      batch := [];
      if |logBuffer| >= BATCH_SIZE {
        batch := BeginFlush(config);
      }
    }

    method ShipLogs(entries: seq<E>, config: bool) returns (batch: seq<E>)
      modifies this
      ensures Abstract() == Step(old(Abstract()), Ship(entries, config))
      ensures |flights| == |old(flights)| + (if batch == [] then 0 else 1)
      ensures batch != [] ==> flights[|old(flights)|] == batch
    {
      if !(config && isShipperEnabled) || !isRunning { return []; }
      logBuffer, accepted := logBuffer + entries, accepted + entries;
      batch := [];
      if |logBuffer| >= BATCH_SIZE {
        batch := BeginFlush(config);
      }
    }

    /** `flush` up to its await. */
    method BeginFlush(config: bool) returns (batch: seq<E>)
      modifies this
      ensures Abstract() == Step(old(Abstract()), Tick(config))
      ensures |flights| == |old(flights)| + (if batch == [] then 0 else 1)
      ensures batch != [] ==> flights[|old(flights)|] == batch
    {
      if !(config && isShipperEnabled) || logBuffer == [] { return []; }
      batch := logBuffer;
      logBuffer := [];
      flights := flights + [batch];
    }

    /** `flush` after its await: `ok` says whether the bulk call resolved or threw. */
    method EndFlush(batch: seq<E>, ghost i: nat, ok: bool)
      requires i < |flights| && flights[i] == batch
      modifies this
      ensures Abstract() == Step(old(Abstract()), Settle(i, ok))
    {
      flights := Without(flights, i);
      if ok {
        settled := settled + Marked(batch, true);
      } else {
        RestoreBatch(batch);
      }
    }

    method RestoreBatch(batch: seq<E>)
      modifies this
      ensures Abstract() == Restored(old(Abstract()), batch)
    {
      logBuffer := batch + logBuffer;
      if |logBuffer| > BATCH_SIZE * 10 {
        ghost var lost := logBuffer[..|logBuffer| - BATCH_SIZE * 5];
        settled := settled + Marked(lost, false);
        logBuffer := logBuffer[|logBuffer| - BATCH_SIZE * 5..];
      }
    }
  }

  // ---------------------------------------------------------------- what each step does

  /** A hundred buffered entries, and no fewer, start a flush; and only a configured, enabled and running
      shipper takes entries in. */
  lemma ShipFlushesAtHundred<E>(s: State<E>, entries: seq<E>, config: bool)
    ensures var s' := Step(s, Ship(entries, config));
            var whole := s.buffer + entries;
            if !config || !s.enabled || !s.running then s' == s
            else
              && s'.accepted == s.accepted + entries && s'.settled == s.settled
              && s'.enabled && s'.running
              && (|s.buffer| + |entries| < 100 ==> s'.buffer == whole && s'.flights == s.flights)
              && (|s.buffer| + |entries| >= 100 ==> s'.buffer == [] && s'.flights == s.flights + [whole])
  {
  }

  /** A periodic flush takes whatever is buffered, however little, if the shipper is configured and enabled. */
  lemma TickFlushesAnything<E>(s: State<E>, config: bool)
    ensures var s' := Step(s, Tick(config));
            if !config || !s.enabled || s.buffer == [] then s' == s
            else s' == s.(buffer := [], flights := s.flights + [s.buffer])
  {
  }

  lemma StartAndStop<E>(s: State<E>, config: bool)
    ensures Step(s, Enable) == s.(enabled := true)
    ensures Step(s, Start(config)) == s.(running := s.running || (config && s.enabled))
    ensures Step(s, Stop(config)) == if s.running then Step(s.(running := false), Tick(config)) else s
  {
  }

  /** The entries, each with what became of it. */
  ghost predicate Fated<E>(fates: seq<Fate<E>>, entries: seq<E>, shipped: bool) {
    && |fates| == |entries|
    && forall k :: 0 <= k < |fates| ==> fates[k] == if shipped then Shipped(entries[k]) else Dropped(entries[k])
  }

  /** A bulk call that succeeds ships its batch and touches nothing else. One that fails puts its batch
      back in front of the buffer; if that makes more than a thousand entries, the newest five hundred
      stay and the others are dropped. */
  lemma SettleMeaning<E>(s: State<E>, i: nat, ok: bool)
    requires i < |s.flights|
    ensures var s' := Step(s, Settle(i, ok));
            var batch, n := s.flights[i], |s.settled|;
            var whole := batch + s.buffer;
            && s'.flights == s.flights[..i] + s.flights[i + 1..]
            && s'.enabled == s.enabled && s'.running == s.running && s'.accepted == s.accepted
            && |s'.settled| >= n && s'.settled[..n] == s.settled
            && if ok then s'.buffer == s.buffer && Fated(s'.settled[n..], batch, true)
               else if |whole| <= 1000 then s'.buffer == whole && s'.settled == s.settled
               else s'.buffer == whole[|whole| - 500..] && Fated(s'.settled[n..], whole[..|whole| - 500], false)
  {
    var batch := s.flights[i];
    var whole := batch + s.buffer;
    if ok {
      Appended(s.settled, Marked(batch, true));
    } else if |whole| > 1000 {
      Appended(s.settled, Marked(whole[..|whole| - 500], false));
    } else {
      assert s.settled[..|s.settled|] == s.settled;
    }
  }

  lemma Appended<T>(a: seq<T>, b: seq<T>)
    ensures (a + b)[..|a|] == a && (a + b)[|a|..] == b
  {
  }

  /** What a run takes in, from its events alone: the entries shipped between a start and a stop, once the
      shipper is enabled. */
  function TakenIn<E>(events: seq<Event<E>>, enabled: bool, running: bool): seq<E>
    decreases |events|
  {
    if events == [] then []
    else
      match events[0]
      case Enable => TakenIn(events[1..], true, running)
      case Start(config) => TakenIn(events[1..], enabled, running || (config && enabled))
      case Stop(_) => TakenIn(events[1..], enabled, false)
      case Ship(entries, config) =>
        (if config && enabled && running then entries else []) + TakenIn(events[1..], enabled, running)
      case _ => TakenIn(events[1..], enabled, running)
  }

  lemma StepFlags<E>(s: State<E>, e: Event<E>)
    ensures var s' := Step(s, e);
            && s'.enabled == (s.enabled || e.Enable?)
            && s'.running == (if e.Stop? then false else s.running || (e.Start? && e.config && s.enabled))
            && s'.accepted == s.accepted + if e.Ship? && e.config && s.enabled && s.running then e.entries else []
  {
  }

  /** Exactly those entries are accepted, in that order. */
  lemma {:induction false} RunAccepts<E>(s: State<E>, events: seq<Event<E>>)
    ensures Run(s, events).accepted == s.accepted + TakenIn(events, s.enabled, s.running)
    decreases |events|
  {
    if events != [] {
      var s' := Step(s, events[0]);
      StepFlags(s, events[0]);
      RunAccepts(s', events[1..]);
      var taken := if events[0].Ship? && events[0].config && s.enabled && s.running then events[0].entries else [];
      var rest := TakenIn(events[1..], s'.enabled, s'.running);
      assert TakenIn(events, s.enabled, s.running) == taken + rest;
      Associate(s.accepted, taken, rest);
    }
  }

  lemma EveryRunAccepts<E>(events: seq<Event<E>>)
    ensures Run(Initial(), events).accepted == TakenIn(events, false, false)
  {
    RunAccepts(Initial(), events);
  }

  // ---------------------------------------------------------------- conservation and bound

  function Flatten<E>(parts: seq<seq<E>>): seq<E> {
    if parts == [] then [] else parts[0] + Flatten(parts[1..])
  }

  function WithFate<E>(fates: seq<Fate<E>>, shipped: bool): seq<E> {
    if fates == [] then []
    else if fates[0].Shipped? != shipped then WithFate(fates[1..], shipped)
    else [fates[0].entry] + WithFate(fates[1..], shipped)
  }

  ghost predicate Conserved<E>(s: State<E>) {
    multiset(s.accepted) ==
    multiset(Entries(s.settled)) + multiset(Flatten(s.flights)) + multiset(s.buffer)
  }

  predicate Bounded<E>(s: State<E>) {
    && |s.buffer| <= BATCH_SIZE * 10
    && forall i :: 0 <= i < |s.flights| ==> s.flights[i] != []
  }

  lemma {:induction false} FlattenConcat<E>(a: seq<seq<E>>, b: seq<seq<E>>)
    ensures Flatten(a + b) == Flatten(a) + Flatten(b)
  {
    if a == [] {
      assert a + b == b;
    } else {
      assert (a + b)[1..] == a[1..] + b;
      FlattenConcat(a[1..], b);
    }
  }

  lemma Associate<E>(a: seq<E>, b: seq<E>, c: seq<E>)
    ensures a + (b + c) == a + b + c
  {
  }

  lemma FlattenSplit<E>(parts: seq<seq<E>>, i: nat)
    requires i < |parts|
    ensures Flatten(parts) == Flatten(parts[..i]) + parts[i] + Flatten(parts[i + 1..])
    ensures Flatten(Without(parts, i)) == Flatten(parts[..i]) + Flatten(parts[i + 1..])
  {
    assert parts == parts[..i] + parts[i..] && parts[i..][1..] == parts[i + 1..];
    FlattenConcat(parts[..i], parts[i..]);
    Associate(Flatten(parts[..i]), parts[i], Flatten(parts[i + 1..]));
    FlattenConcat(parts[..i], parts[i + 1..]);
  }

  lemma EntriesConcat<E>(a: seq<Fate<E>>, b: seq<Fate<E>>)
    ensures Entries(a + b) == Entries(a) + Entries(b)
  {
  }

  lemma StepConserves<E>(s: State<E>, e: Event<E>)
    requires Conserved(s)
    ensures Conserved(Step(s, e))
  {
    match e
    case Ship(entries, config) =>
      DetachConserves(s.(buffer := s.buffer + entries, accepted := s.accepted + entries), config);
    case Tick(config) => DetachConserves(s, config);
    case Stop(config) => DetachConserves(s.(running := false), config);
    case Settle(i, ok) => if i < |s.flights| { SettleConserves(s, i, ok); }
    case _ =>
  }

  lemma DetachConserves<E>(s: State<E>, config: bool)
    requires Conserved(s)
    ensures Conserved(Detach(s, config))
  {
    FlattenConcat(s.flights, [s.buffer]);
    assert Flatten([s.buffer]) == s.buffer;
  }

  lemma SettleConserves<E>(s: State<E>, i: nat, ok: bool)
    requires Conserved(s) && i < |s.flights|
    ensures Conserved(SettleFlight(s, i, ok))
  {
    var whole := s.flights[i] + s.buffer;
    SplitCounts(s.flights, i);
    var cut := Leaving(s, i, ok);
    SettleSplits(s, i, ok);
    calc {
      multiset(s.flights[i]) + multiset(s.buffer);
      multiset(whole);
      { assert whole == whole[..cut] + whole[cut..]; }
      multiset(whole[..cut]) + multiset(whole[cut..]);
    }
    Rebalanced(s, SettleFlight(s, i, ok), s.flights[i], whole[..cut], whole[cut..]);
  }

  /** How many entries of batch ++ buffer leave the shipper when flight `i` settles. */
  function Leaving<E>(s: State<E>, i: nat, ok: bool): (cut: nat)
    requires i < |s.flights|
    ensures cut <= |s.flights[i]| + |s.buffer|
  {
    if ok then |s.flights[i]|
    else if Overflows(s.flights[i], s.buffer) then |s.flights[i]| + |s.buffer| - BATCH_SIZE * 5
    else 0
  }

  /** A settling step cuts batch ++ buffer in two: the front leaves for good, the back stays. */
  lemma SettleSplits<E>(s: State<E>, i: nat, ok: bool)
    requires i < |s.flights|
    ensures var s' := SettleFlight(s, i, ok);
            var cut := Leaving(s, i, ok);
            var whole := s.flights[i] + s.buffer;
            && s'.accepted == s.accepted
            && s'.flights == Without(s.flights, i)
            && s'.buffer == whole[cut..]
            && Entries(s'.settled) == Entries(s.settled) + whole[..cut]
  {
    var whole, cut := s.flights[i] + s.buffer, Leaving(s, i, ok);
    EntriesConcat(s.settled, Marked(whole[..cut], ok));
    if ok {
      assert whole[..cut] == s.flights[i] && whole[cut..] == s.buffer;
    } else if cut == 0 {
      assert whole[cut..] == whole;
    }
  }

  lemma Rebalanced<E>(s: State<E>, s': State<E>, batch: seq<E>, gone: seq<E>, kept: seq<E>)
    requires Conserved(s)
    requires multiset(Flatten(s.flights)) == multiset(Flatten(s'.flights)) + multiset(batch)
    requires multiset(batch) + multiset(s.buffer) == multiset(gone) + multiset(kept)
    requires s'.accepted == s.accepted && s'.buffer == kept
    requires Entries(s'.settled) == Entries(s.settled) + gone
    ensures Conserved(s')
  {
    var done, rest := multiset(Entries(s.settled)), multiset(Flatten(s'.flights));
    calc {
      multiset(s.accepted);
      done + (rest + multiset(batch)) + multiset(s.buffer);
      (done + rest) + (multiset(batch) + multiset(s.buffer));
      (done + rest) + (multiset(gone) + multiset(kept));
      (done + multiset(gone)) + rest + multiset(kept);
      multiset(Entries(s.settled) + gone) + rest + multiset(kept);
    }
  }

  lemma SplitCounts<E>(flights: seq<seq<E>>, i: nat)
    requires i < |flights|
    ensures multiset(Flatten(flights)) == multiset(Flatten(Without(flights, i))) + multiset(flights[i])
  {
    FlattenSplit(flights, i);
    var before, batch, after := Flatten(flights[..i]), flights[i], Flatten(flights[i + 1..]);
    calc {
      multiset(Flatten(flights));
      multiset(before + batch + after);
      multiset(before) + multiset(batch) + multiset(after);
      (multiset(before) + multiset(after)) + multiset(batch);
      multiset(before + after) + multiset(batch);
    }
  }

  lemma StepBounded<E>(s: State<E>, e: Event<E>)
    requires Bounded(s)
    ensures Bounded(Step(s, e))
    ensures e.Ship? && e.config && s.enabled && s.running ==> |Step(s, e).buffer| < BATCH_SIZE
    ensures Step(s, e).accepted
            == s.accepted + if e.Ship? && e.config && s.enabled && s.running then e.entries else []
  {
  }

  lemma {:induction false} FatesSplit<E>(fates: seq<Fate<E>>)
    ensures multiset(Entries(fates)) == multiset(WithFate(fates, true)) + multiset(WithFate(fates, false))
  {
    if fates == [] {
      assert Entries(fates) == [];
    } else {
      FatesSplit(fates[1..]);
      assert Entries(fates) == [fates[0].entry] + Entries(fates[1..]);
    }
  }

  lemma {:induction false} RunKeeps<E>(s: State<E>, events: seq<Event<E>>)
    requires Conserved(s) && Bounded(s)
    ensures Conserved(Run(s, events)) && Bounded(Run(s, events))
    decreases |events|
  {
    if events != [] {
      StepConserves(s, events[0]);
      StepBounded(s, events[0]);
      RunKeeps(Step(s, events[0]), events[1..]);
    }
  }

  /** In every interleaving nothing is lost but what truncation dropped, nothing is shipped twice,
      and the buffer stays within ten batches whatever sizes were shipped. */
  lemma EveryRunConserves<E>(events: seq<Event<E>>)
    ensures var s := Run(Initial(), events);
            && multiset(s.accepted) == multiset(WithFate(s.settled, true)) + multiset(WithFate(s.settled, false))
                                       + multiset(Flatten(s.flights)) + multiset(s.buffer)
            && |s.buffer| <= 1000
  {
    RunKeeps(Initial(), events);
    FatesSplit(Run(Initial(), events).settled);
  }

  predicate NeverStarts<E>(events: seq<Event<E>>) {
    forall k :: 0 <= k < |events| ==> !events[k].Start?
  }

  /** Stopping a running shipper drains the buffer into a last flush exactly when there is nothing to
      drain or the shipper is still enabled, loses nothing in either case, and closes it: until the next
      start nothing is taken in. */
  lemma StopDrainsAndCloses<E>(s: State<E>, config: bool, events: seq<Event<E>>)
    requires s.running && NeverStarts(events)
    ensures var s' := Step(s, Stop(config));
            && (s'.buffer == [] <==> s.buffer == [] || (config && s.enabled))
            && Flatten(s'.flights) + s'.buffer == Flatten(s.flights) + s.buffer
            && Run(s', events).accepted == s.accepted
  {
    FlattenConcat(s.flights, [s.buffer]);
    assert Flatten([s.buffer]) == s.buffer;
    StoppedAcceptsNothing(Step(s, Stop(config)), events);
  }

  lemma {:induction false} StoppedAcceptsNothing<E>(s: State<E>, events: seq<Event<E>>)
    requires !s.running && NeverStarts(events)
    ensures Run(s, events).accepted == s.accepted
    decreases |events|
  {
    if events != [] {
      assert !events[0].Start?;
      assert forall k :: 0 <= k < |events[1..]| ==> events[1..][k] == events[k + 1];
      StoppedAcceptsNothing(Step(s, events[0]), events[1..]);
    }
  }

  /** A stopped shipper: no start, and no periodic flush, whose timer is cleared. */
  predicate Idle<E>(events: seq<Event<E>>) {
    forall k :: 0 <= k < |events| ==> !events[k].Start? && !events[k].Tick?
  }

  predicate Fails<E>(s: State<E>, e: Event<E>) {
    e.Settle? && e.flight < |s.flights| && !e.ok
  }

  predicate SomeFlightFails<E>(s: State<E>, events: seq<Event<E>>)
    decreases |events|
  {
    events != [] && (Fails(s, events[0]) || SomeFlightFails(Step(s, events[0]), events[1..]))
  }

  function Newest<E>(s: seq<E>): seq<E> {
    if |s| > 500 then s[|s| - 500..] else s
  }

  ghost predicate EndsWith<E>(s: seq<E>, tail: seq<E>) {
    |tail| <= |s| && s[|s| - |tail|..] == tail
  }

  lemma EndsWithTransitive<E>(s: seq<E>, t: seq<E>, u: seq<E>)
    requires EndsWith(s, t) && EndsWith(t, u)
    ensures EndsWith(s, u)
  {
    assert s[|s| - |t|..][|t| - |u|..] == s[|s| - |u|..];
  }

  lemma StoppedStep<E>(s: State<E>, e: Event<E>)
    requires !s.running && Bounded(s) && !e.Start? && !e.Tick?
    ensures var s' := Step(s, e);
            && !s'.running && Bounded(s')
            && EndsWith(Newest(s'.buffer), Newest(s.buffer))
            && (s'.buffer == [] <==> s.buffer == [] && !Fails(s, e))
  {
    StepBounded(s, e);
    if Fails(s, e) {
      RestoredEndsWith(s.(flights := Without(s.flights, e.flight)), s.flights[e.flight]);
    }
  }

  lemma RestoredEndsWith<E>(s: State<E>, batch: seq<E>)
    requires batch != []
    ensures Restored(s, batch).buffer != [] && EndsWith(Newest(Restored(s, batch).buffer), Newest(s.buffer))
  {
    NewestOfRestored(s, batch);
    NewestEnds(batch, s.buffer);
  }

  lemma NewestOfRestored<E>(s: State<E>, batch: seq<E>)
    ensures Newest(Restored(s, batch).buffer) == Newest(batch + s.buffer)
  {
    assert Overflows(batch, s.buffer) <==> |batch + s.buffer| > 1000;
  }

  lemma NewestEnds<E>(older: seq<E>, s: seq<E>)
    ensures EndsWith(Newest(older + s), Newest(s))
  {
    var whole := older + s;
    assert whole[|older|..] == s;
    if |whole| > 500 {
      Suffixes(whole, |whole| - 500, |whole| - |Newest(s)|);
    }
    Suffixes(whole, |older|, |whole| - |Newest(s)|);
  }

  lemma Suffixes<E>(s: seq<E>, i: nat, j: nat)
    requires i <= j <= |s|
    ensures s[i..][j - i..] == s[j..]
  {
  }

  /** What a flight that fails after the stop brings back is stranded. The buffer is empty at the end
      of the stopped period exactly when it was at its start and no outstanding flight failed; and of
      what was in it the newest 500 entries are still there, in place, unshipped. */
  lemma {:induction false} FailuresAfterStopAreStranded<E>(s: State<E>, events: seq<Event<E>>)
    requires !s.running && Bounded(s) && Idle(events)
    ensures var s' := Run(s, events);
            && (s'.buffer == [] <==> s.buffer == [] && !SomeFlightFails(s, events))
            && EndsWith(Newest(s'.buffer), Newest(s.buffer))
    decreases |events|
  {
    if events != [] {
      var next, rest := Step(s, events[0]), events[1..];
      assert !events[0].Start? && !events[0].Tick?;
      assert forall k :: 0 <= k < |rest| ==> rest[k] == events[k + 1];
      StoppedStep(s, events[0]);
      FailuresAfterStopAreStranded(next, rest);
      EndsWithTransitive(Newest(Run(next, rest).buffer), Newest(next.buffer), Newest(s.buffer));
    }
  }

  /** From the stop to the next start: the shipper ends with nothing left behind exactly when the stop
      drained it and every bulk call then outstanding, the last flush's included, succeeded. */
  lemma StopLeavesNothingIff<E>(s: State<E>, config: bool, events: seq<Event<E>>)
    requires s.running && Bounded(s) && Idle(events)
    ensures var s' := Step(s, Stop(config));
            Run(s', events).buffer == []
            <==> (s.buffer == [] || (config && s.enabled)) && !SomeFlightFails(s', events)
  {
    StepBounded(s, Stop(config));
    StopDrainsAndCloses(s, config, []);
    FailuresAfterStopAreStranded(Step(s, Stop(config)), events);
  }

  // ---------------------------------------------------------------- order

  /** Entries left, travel and wait in the order they were taken in. */
  ghost predicate InOrder<E>(s: State<E>) {
    s.accepted == Entries(s.settled) + Flatten(s.flights) + s.buffer
  }

  ghost predicate Distinct<E>(s: seq<E>) {
    forall i, j :: 0 <= i < j < |s| ==> s[i] != s[j]
  }

  /** When entries leave no older batch may be in flight, and a newer batch may be in flight only
      if exactly the settled batch leaves. So: a success must be the oldest flight, a failure the
      newest one, and a truncating failure the only one (or the oldest, met by a buffer of 500). */
  predicate KeepsOrder<E>(s: State<E>, i: nat, ok: bool)
    requires i < |s.flights|
  {
    && (i == 0 || Leaving(s, i, ok) == 0)
    && (i == |s.flights| - 1 || Leaving(s, i, ok) == |s.flights[i]|)
  }

  lemma Rearranged<E>(a: seq<E>, b: seq<E>, c: seq<E>, d: seq<E>, cut: nat)
    requires b != [] && cut <= |b| + |d|
    requires Distinct(a + b + c + d)
    ensures (b + d)[..cut] + a + c + (b + d)[cut..] == a + b + c + d
            <==> (a == [] || cut == 0) && (c == [] || cut == |b|)
  {
    var was, now := a + b + c + d, (b + d)[..cut] + a + c + (b + d)[cut..];
    if a != [] && cut > 0 {
      assert now[0] == was[|a|] && was[0] != was[|a|];
    } else if c != [] && cut != |b| {
      if cut < |b| {
        assert now[|a| + cut] == c[0] == was[|a| + |b|];
        assert was[|a| + cut] != was[|a| + |b|];
      } else {
        assert now[|b|] == d[0] == was[|b| + |c|];
        assert was[|b|] != was[|b| + |c|];
      }
    } else {
      StaysArranged(a, b, c, d, cut);
    }
  }

  lemma StaysArranged<E>(a: seq<E>, b: seq<E>, c: seq<E>, d: seq<E>, cut: nat)
    requires cut <= |b| + |d|
    requires (a == [] || cut == 0) && (c == [] || cut == |b|)
    ensures (b + d)[..cut] + a + c + (b + d)[cut..] == a + b + c + d
  {
    if cut == 0 {
      assert (b + d)[..cut] == [] && (b + d)[cut..] == b + d;
    } else if cut == |b| {
      assert (b + d)[..cut] == b && (b + d)[cut..] == d;
    } else {
      assert (b + d)[..cut] + (b + d)[cut..] == b + d;
    }
  }

  lemma FlattenEmptyIff<E>(parts: seq<seq<E>>)
    requires forall k :: 0 <= k < |parts| ==> parts[k] != []
    ensures Flatten(parts) == [] <==> parts == []
  {
  }

  lemma DistinctTail<E>(front: seq<E>, tail: seq<E>)
    requires Distinct(front + tail)
    ensures Distinct(tail)
  {
    forall i, j | 0 <= i < j < |tail| ensures tail[i] != tail[j] {
      assert (front + tail)[|front| + i] != (front + tail)[|front| + j];
    }
  }

  lemma InOrderIffArranged<E>(s: State<E>, i: nat, ok: bool)
    requires InOrder(s) && i < |s.flights|
    ensures var a, b, c := Flatten(s.flights[..i]), s.flights[i], Flatten(s.flights[i + 1..]);
            var whole, cut := b + s.buffer, Leaving(s, i, ok);
            && s.accepted == Entries(s.settled) + (a + b + c + s.buffer)
            && (InOrder(SettleFlight(s, i, ok)) <==> whole[..cut] + a + c + whole[cut..] == a + b + c + s.buffer)
  {
    var a, b, c, d := Flatten(s.flights[..i]), s.flights[i], Flatten(s.flights[i + 1..]), s.buffer;
    var cut, done := Leaving(s, i, ok), Entries(s.settled);
    FlattenSplit(s.flights, i);
    SettleSplits(s, i, ok);
    var was, now := a + b + c + d, (b + d)[..cut] + a + c + (b + d)[cut..];
    Regroup(done, [], a, b, c, d);
    Regroup(done, (b + d)[..cut], a, [], c, (b + d)[cut..]);
    PrefixCancels(done, now, was);
  }

  lemma Regroup<E>(done: seq<E>, gone: seq<E>, a: seq<E>, b: seq<E>, c: seq<E>, d: seq<E>)
    ensures (done + gone) + (a + b + c) + d == done + (gone + a + b + c + d)
    ensures b == [] ==> a + b + c == a + c && gone + a + b + c + d == gone + a + c + d
    ensures gone == [] ==> done + gone == done && gone + a + b + c + d == a + b + c + d
  {
  }

  lemma PrefixCancels<E>(done: seq<E>, x: seq<E>, y: seq<E>)
    ensures done + x == done + y <==> x == y
  {
    assert (done + x)[|done|..] == x && (done + y)[|done|..] == y;
  }

  /** The exact condition under which settling a batch keeps entries in order. */
  lemma SettleInOrderIff<E>(s: State<E>, i: nat, ok: bool)
    requires InOrder(s) && Bounded(s) && Distinct(s.accepted)
    requires i < |s.flights|
    ensures InOrder(SettleFlight(s, i, ok)) <==> KeepsOrder(s, i, ok)
  {
    var a, b, c, d := Flatten(s.flights[..i]), s.flights[i], Flatten(s.flights[i + 1..]), s.buffer;
    FlattenEmptyIff(s.flights[..i]);
    FlattenEmptyIff(s.flights[i + 1..]);
    InOrderIffArranged(s, i, ok);
    DistinctTail(Entries(s.settled), a + b + c + d);
    Rearranged(a, b, c, d, Leaving(s, i, ok));
  }

  /** The same step without assuming the entries distinct: the condition still suffices. */
  lemma SettleKeepsOrder<E>(s: State<E>, i: nat, ok: bool)
    requires InOrder(s) && i < |s.flights| && KeepsOrder(s, i, ok)
    ensures InOrder(SettleFlight(s, i, ok))
  {
    InOrderIffArranged(s, i, ok);
    StaysArranged(Flatten(s.flights[..i]), s.flights[i], Flatten(s.flights[i + 1..]), s.buffer, Leaving(s, i, ok));
  }

  predicate Orderly<E>(s: State<E>, events: seq<Event<E>>)
    decreases |events|
  {
    if events == [] then true else
      && (events[0].Settle? && events[0].flight < |s.flights| ==> KeepsOrder(s, events[0].flight, events[0].ok))
      && Orderly(Step(s, events[0]), events[1..])
  }

  predicate AtMostOneFlight<E>(s: State<E>, events: seq<Event<E>>)
    decreases |events|
  {
    && |s.flights| <= 1
    && (events == [] || AtMostOneFlight(Step(s, events[0]), events[1..]))
  }

  lemma {:induction false} SingleFlightIsOrderly<E>(s: State<E>, events: seq<Event<E>>)
    requires AtMostOneFlight(s, events)
    ensures Orderly(s, events)
    decreases |events|
  {
    if events != [] {
      SingleFlightIsOrderly(Step(s, events[0]), events[1..]);
    }
  }

  lemma DetachInOrder<E>(s: State<E>, config: bool)
    requires InOrder(s)
    ensures InOrder(Detach(s, config))
  {
    FlattenConcat(s.flights, [s.buffer]);
    assert Flatten([s.buffer]) == s.buffer;
  }

  lemma {:induction false} RunInOrder<E>(s: State<E>, events: seq<Event<E>>)
    requires InOrder(s) && Orderly(s, events)
    ensures InOrder(Run(s, events))
    decreases |events|
  {
    if events != [] {
      match events[0] {
        case Ship(entries, config) =>
          var s1 := s.(buffer := s.buffer + entries, accepted := s.accepted + entries);
          assert InOrder(s1);
          DetachInOrder(s1, config);
        case Tick(config) => DetachInOrder(s, config);
        case Stop(config) => DetachInOrder(s.(running := false), config);
        case Settle(i, ok) => if i < |s.flights| { SettleKeepsOrder(s, i, ok); }
        case _ =>
      }
      RunInOrder(Step(s, events[0]), events[1..]);
    }
  }

  /** With at most one batch in flight the k-th entry to leave is the k-th entry taken in, and what
      is in flight followed by the buffer is the rest of the accepted sequence. */
  lemma SingleFlightRunsShipInOrder<E>(events: seq<Event<E>>)
    requires AtMostOneFlight(Initial(), events)
    ensures var s := Run(Initial(), events);
            && |s.settled| <= |s.accepted|
            && (forall k :: 0 <= k < |s.settled| ==> s.settled[k].entry == s.accepted[k])
            && Flatten(s.flights) + s.buffer == s.accepted[|s.settled|..]
  {
    SingleFlightIsOrderly(Initial(), events);
    RunInOrder(Initial(), events);
  }

  /** A truncating failure of the only flight keeps exactly the newest 500 entries ever accepted. */
  lemma TruncationKeepsNewest<E>(s: State<E>)
    requires InOrder(s) && |s.flights| == 1 && Overflows(s.flights[0], s.buffer)
    ensures |s.accepted| >= 500
    ensures SettleFlight(s, 0, false).buffer == s.accepted[|s.accepted| - 500..]
  {
    assert Flatten(s.flights) == s.flights[0] by { FlattenSplit(s.flights, 0); }
  }

  /** Two overlapping batches that fail oldest first come back swapped. */
  lemma OldestFirstFailuresSwap<E>(a: seq<E>, b: seq<E>)
    requires |a| >= 100 && |b| >= 100 && |a| + |b| <= 1000
    ensures var s := Run(Initial(), [Enable, Start(true), Ship(a, true), Ship(b, true), Settle(0, false), Settle(0, false)]);
            s.accepted == a + b && s.buffer == b + a && s.flights == []
  {
    var s2 := State([], [], true, true, [], []);
    var s3 := State([], [a], true, true, a, []);
    var s4 := State([], [a, b], true, true, a + b, []);
    var s5 := State(a, [b], true, true, a + b, []);
    var s6 := State(b + a, [], true, true, a + b, []);
    assert Step(Step(Initial(), Enable), Start(true)) == s2;
    assert Step(s2, Ship(a, true)) == s3 by { assert [] + a == a; }
    assert Step(s3, Ship(b, true)) == s4 by { assert [] + b == b; }
    assert Step(s4, Settle(0, false)) == s5 by { assert a + [] == a; }
    assert Step(s5, Settle(0, false)) == s6;
    RunSix(Initial(), Enable, Start(true), Ship(a, true), Ship(b, true), Settle(0, false), Settle(0, false));
  }

  lemma RunSix<E>(s: State<E>, e0: Event<E>, e1: Event<E>, e2: Event<E>, e3: Event<E>, e4: Event<E>, e5: Event<E>)
    ensures Run(s, [e0, e1, e2, e3, e4, e5]) == Step(Step(Step(Step(Step(Step(s, e0), e1), e2), e3), e4), e5)
  {
    RunCons(s, e0, [e1, e2, e3, e4, e5]);
    var s1 := Step(s, e0);
    RunCons(s1, e1, [e2, e3, e4, e5]);
    var s2 := Step(s1, e1);
    RunCons(s2, e2, [e3, e4, e5]);
    var s3 := Step(s2, e2);
    RunCons(s3, e3, [e4, e5]);
    RunCons(Step(s3, e3), e4, [e5]);
  }

  lemma RunCons<E>(s: State<E>, e: Event<E>, events: seq<Event<E>>)
    ensures [e] + events != [] && Run(s, [e] + events) == Run(Step(s, e), events)
  {
    assert ([e] + events)[1..] == events;
  }
}
