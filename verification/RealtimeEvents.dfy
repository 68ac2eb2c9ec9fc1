/** The realtime event client of `client/realtime_events.ts`: connection, retry timer and the
    window in which file events are collected. Each callback of the event loop is one step; the
    awaited part of a flush is the time between its `FlushFires` and its `FlushEnds`. */
module RealtimeEvents {
  import opened Options

  const FIRST_RETRY_MS := 1000
  const MAX_RETRY_MS := 30000
  const UNSUPPORTED_RETRY_MS := 60000
  const BATCH_THRESHOLD := 4

  datatype Action = Change | Delete | Resync

  datatype Event = Event(name: string, action: Action, origin: Option<string>, payload: int)

  /** `flushTimer`: unset, a timer that has not fired, or the handle of one that has. */
  datatype Timer = Unset | Waiting | Fired

  /** The fields of the client, the event sources that are not closed and the number of flushes
      in progress; then what has been received and flushed, and the supported failures since the
      retry delay was last reset. */
  datatype State = State(
    stopped: bool, created: nat, live: set<nat>, source: Option<nat>, retryTimer: Option<nat>, retryDelay: nat,
    everConnected: bool, pending: seq<Event>, flushTimer: Timer, running: nat,
    received: seq<Event>, batches: seq<seq<Event>>, failures: nat)

  const FRESH := State(false, 0, {}, None, None, FIRST_RETRY_MS, false, [], Unset, 0, [], [], 0)

  datatype Step =
    | Open(id: nat)
    | Message(id: nat, event: Event)
    | Error(id: nat, closed: bool)
    | RetryFires
    | Online
    | FlushFires
    | FlushEnds
    | Stop

  /** `Map.set` on an insertion-ordered map: a known name keeps its place. */
  function SetPending(pending: seq<Event>, ev: Event): seq<Event> {
    if pending == [] then [ev]
    else if pending[0].name == ev.name then [ev] + pending[1..]
    else [pending[0]] + SetPending(pending[1..], ev)
  }

  function Connected(s: State): State {
    if s.stopped then s
    else s.(created := s.created + 1, live := s.live + {s.created}, source := Some(s.created))
  }

  function Started(s: State): State {
    Connected(s.(stopped := false))
  }

  predicate Enabled(s: State, step: Step) {
    match step
    case Open(id) => id in s.live
    case Message(id, _) => id in s.live
    case Error(id, _) => id in s.live
    case RetryFires => s.retryTimer.Some?
    case Online => true
    case FlushFires => s.flushTimer == Waiting
    case FlushEnds => s.running > 0
    case Stop => true
  }

  function Next(s: State, step: Step): State {
    match step
    case Open(_) => s.(retryDelay := FIRST_RETRY_MS, everConnected := true, failures := 0)
    case Message(_, ev) =>
      s.(pending := SetPending(s.pending, ev), received := s.received + [ev],
      flushTimer := if s.flushTimer == Unset then Waiting else s.flushTimer)
    case Error(id, closed) =>
      var down := s.(live := s.live - {id});
      if s.stopped then down
      else if !s.everConnected && closed then down.(retryTimer := Some(UNSUPPORTED_RETRY_MS))
      else down.(retryTimer := Some(s.retryDelay), retryDelay := Min(s.retryDelay * 2, MAX_RETRY_MS),
                 failures := s.failures + 1)
    case RetryFires => Connected(s.(retryTimer := None))
    case Online =>
      if s.stopped || s.retryTimer.None? then s
      else Connected(s.(retryTimer := None, retryDelay := FIRST_RETRY_MS, failures := 0))
    case FlushFires =>
      s.(flushTimer := Fired, running := s.running + 1, batches := s.batches + [s.pending], pending := [])
    case FlushEnds =>
      s.(running := if s.running > 0 then s.running - 1 else 0,
      flushTimer := if s.pending != [] && !s.stopped then Waiting else Unset)
    case Stop =>
      s.(stopped := true, live := if s.source.Some? then s.live - {s.source.value} else s.live,
      source := None, retryTimer := None, flushTimer := Unset)
  }

  function Min(a: nat, b: nat): nat {
    if a <= b then a else b
  }

  // ----- The properties -----

  function Pow2(k: nat): nat {
    if k == 0 then 1 else 2 * Pow2(k - 1)
  }

  /** The latest event about a name. */
  function Latest(events: seq<Event>, name: string): Option<Event> {
    if events == [] then None
    else if events[|events| - 1].name == name then Some(events[|events| - 1])
    else Latest(events[..|events| - 1], name)
  }

  function Flat(batches: seq<seq<Event>>): seq<Event> {
    if batches == [] then [] else Flat(batches[..|batches| - 1]) + batches[|batches| - 1]
  }

  ghost predicate NothingForgotten(s: State) {
    forall name :: Latest(Flat(s.batches) + s.pending, name) == Latest(s.received, name)
  }

  /** No event is flushed twice, or more often than it came. */
  ghost predicate NothingTwice(s: State) {
    multiset(Flat(s.batches)) + multiset(s.pending) <= multiset(s.received)
  }

  /** A flush is in progress exactly while the timer's handle is a fired one, so never two; events
      that wait have a flush to take them. */
  predicate OneFlush(s: State) {
    s.running == (if s.flushTimer == Fired then 1 else 0) && (s.pending != [] ==> s.flushTimer != Unset)
  }

  /** Either one event source is open and no retry is due, or the other way round. */
  predicate OneLink(s: State) {
    if s.retryTimer.Some? then s.live == {} else s.source.Some? && s.live == {s.source.value}
  }

  predicate Backoff(s: State) {
    s.retryDelay == Min(FIRST_RETRY_MS * Pow2(s.failures), MAX_RETRY_MS)
  }

  ghost predicate Good(s: State) {
    !s.stopped && OneFlush(s) && OneLink(s) && Backoff(s) && NothingForgotten(s) && NothingTwice(s)
  }

  /** The same after `stop`: nothing is open or due, and at most the flush that was running is. */
  ghost predicate Down(s: State) {
    s.stopped && s.live == {} && s.source.None? && s.retryTimer.None? && s.flushTimer == Unset && s.running <= 1 &&
    Backoff(s) && NothingForgotten(s) && NothingTwice(s)
  }

  lemma {:induction false} LatestConcat(a: seq<Event>, b: seq<Event>, name: string)
    ensures Latest(a + b, name) == if Latest(b, name).Some? then Latest(b, name) else Latest(a, name)
    decreases |b|
  {
    if b == [] {
      assert a + b == a;
    } else {
      assert (a + b)[..|a + b| - 1] == a + b[..|b| - 1];
      LatestConcat(a, b[..|b| - 1], name);
    }
  }

  /** As keys of a map, the names are distinct. */
  ghost predicate Distinct(pending: seq<Event>) {
    forall i, j :: 0 <= i < j < |pending| ==> pending[i].name != pending[j].name
  }

  lemma {:induction false} SetKeepsDistinct(pending: seq<Event>, ev: Event)
    requires Distinct(pending)
    ensures Distinct(SetPending(pending, ev)) && SetPending(pending, ev) != []
    ensures forall e :: e in SetPending(pending, ev) ==> e == ev || e in pending
    decreases |pending|
  {
    if pending != [] && pending[0].name != ev.name {
      SetKeepsDistinct(pending[1..], ev);
      assert forall e :: e in pending[1..] ==> e.name != pending[0].name;
    }
  }

  lemma {:induction false} LatestAbsent(events: seq<Event>, name: string)
    requires forall e :: e in events ==> e.name != name
    ensures Latest(events, name) == None
    decreases |events|
  {
    if events != [] {
      LatestAbsent(events[..|events| - 1], name);
    }
  }

  lemma LatestFirst(first: Event, rest: seq<Event>, name: string)
    ensures Latest([first] + rest, name) == if Latest(rest, name).Some? then Latest(rest, name)
      else if first.name == name then Some(first) else None
  {
    assert [first][..0] == [];
    LatestConcat([first], rest, name);
  }

  lemma {:induction false} LatestSet(pending: seq<Event>, ev: Event, name: string)
    requires Distinct(pending)
    ensures Latest(SetPending(pending, ev), name) == if name == ev.name then Some(ev) else Latest(pending, name)
    decreases |pending|
  {
    if pending == [] {
      LatestFirst(ev, [], name);
    } else {
      var first, rest := pending[0], pending[1..];
      assert pending == [first] + rest;
      LatestFirst(first, rest, name);
      if first.name == ev.name {
        LatestFirst(ev, rest, name);
        LatestAbsent(rest, ev.name);
      } else {
        LatestSet(rest, ev, name);
        LatestFirst(first, SetPending(rest, ev), name);
      }
    }
  }

  /** A known name keeps its place and gets the new event; a new one goes to the end. */
  lemma {:induction false} SetPendingExactly(pending: seq<Event>, ev: Event)
    requires Distinct(pending)
    ensures var after := SetPending(pending, ev);
      if exists e :: e in pending && e.name == ev.name then
        |after| == |pending| &&
        forall i :: 0 <= i < |pending| ==> after[i] == if pending[i].name == ev.name then ev else pending[i]
      else after == pending + [ev]
    decreases |pending|
  {
    if pending != [] {
      SetPendingExactly(pending[1..], ev);
    }
  }

  lemma MessageForgetsNothing(s: State, id: nat, ev: Event)
    requires NothingForgotten(s) && Distinct(s.pending)
    ensures NothingForgotten(Next(s, Message(id, ev)))
  {
    hide SetPending;
    var s' := Next(s, Message(id, ev));
    forall name
      ensures Latest(Flat(s'.batches) + s'.pending, name) == Latest(s'.received, name)
    {
      LatestSet(s.pending, ev, name);
      LatestConcat(Flat(s.batches), s.pending, name);
      LatestConcat(Flat(s.batches), s'.pending, name);
      assert s'.received[..|s'.received| - 1] == s.received;
    }
  }

  lemma FlushForgetsNothing(s: State)
    requires NothingForgotten(s)
    ensures NothingForgotten(Next(s, FlushFires))
  {
    var s' := Next(s, FlushFires);
    assert s'.batches[..|s'.batches| - 1] == s.batches;
    assert Flat(s'.batches) + s'.pending == Flat(s.batches) + s.pending;
  }

  lemma {:induction false} SetAddsOne(pending: seq<Event>, ev: Event)
    ensures multiset(SetPending(pending, ev)) <= multiset(pending) + multiset{ev}
    decreases |pending|
  {
    if pending != [] {
      assert pending == [pending[0]] + pending[1..];
      SetAddsOne(pending[1..], ev);
    }
  }

  lemma StepTakesOnce(s: State, step: Step)
    requires NothingTwice(s) && (step.Message? || step.FlushFires?)
    ensures NothingTwice(Next(s, step))
  {
    hide SetPending;
    var s' := Next(s, step);
    if step.Message? {
      SetAddsOne(s.pending, step.event);
    } else {
      assert s'.batches[..|s'.batches| - 1] == s.batches;
    }
  }

  lemma FailureDoubles(k: nat)
    ensures Min(Min(FIRST_RETRY_MS * Pow2(k), MAX_RETRY_MS) * 2, MAX_RETRY_MS)
         == Min(FIRST_RETRY_MS * Pow2(k + 1), MAX_RETRY_MS)
  {
  }

  lemma StepKeepsGood(s: State, step: Step)
    requires Good(s) && Distinct(s.pending) && Enabled(s, step)
    ensures var s' := Next(s, step); Distinct(s'.pending) && if step.Stop? then Down(s') else Good(s')
  {
    hide Distinct, Min, NothingForgotten, NothingTwice, SetPending, Pow2;
    var s' := Next(s, step);
    match step
    case Open(_) => Settled(s, s'); ResetIsBackoff();
    case Message(id, ev) => MessageForgetsNothing(s, id, ev); StepTakesOnce(s, step); SetKeepsDistinct(s.pending, ev);
    case Error(_, _) => Settled(s, s'); FailureDoubles(s.failures);
    case RetryFires => Settled(s, s');
    case Online => Settled(s, s'); ResetIsBackoff();
    case FlushFires => FlushForgetsNothing(s); StepTakesOnce(s, step); EmptyIsDistinct();
    case FlushEnds => Settled(s, s');
    case Stop => Settled(s, s');
  }

  lemma EmptyIsDistinct()
    ensures Distinct([])
  {
  }

  lemma ResetIsBackoff()
    ensures FIRST_RETRY_MS == Min(FIRST_RETRY_MS * Pow2(0), MAX_RETRY_MS)
  {
  }

  lemma Settled(s: State, s': State)
    requires NothingForgotten(s) && NothingTwice(s)
    requires s'.batches == s.batches && s'.pending == s.pending && s'.received == s.received
    ensures NothingForgotten(s') && NothingTwice(s')
  {
  }

  // ----- Runs -----

  function Run(s: State, steps: seq<Step>): Option<State>
    decreases |steps|
  {
    if steps == [] then Some(s)
    else if !Enabled(s, steps[0]) then None
    else Run(Next(s, steps[0]), steps[1..])
  }

  lemma StartIsGood()
    ensures Good(Started(FRESH)) && Distinct(Started(FRESH).pending)
  {
    assert Flat([]) + [] == [];
  }

  lemma {:induction false} RunKeepsGood(s: State, steps: seq<Step>)
    requires Good(s) && Distinct(s.pending) && Stop !in steps && Run(s, steps).Some?
    ensures Good(Run(s, steps).value) && Distinct(Run(s, steps).value.pending)
    decreases |steps|
  {
    hide Good, Next, Enabled, Distinct;
    if steps != [] {
      StepKeepsGood(s, steps[0]);
      RunKeepsGood(Next(s, steps[0]), steps[1..]);
    }
  }

  /** A retry, or the browser's word that it is online while one is due, opens a new source and
      nothing else; `Online` resets the delay. Where no retry is due, it changes nothing. */
  lemma Reconnects(s: State, step: Step)
    requires Good(s) && Enabled(s, step) && (step.RetryFires? || step.Online?)
    ensures Next(s, step) ==
            if s.retryTimer.None? then s
            else s.(retryTimer := None, created := s.created + 1, source := Some(s.created), live := {s.created},
                    retryDelay := if step.Online? then 1000 else s.retryDelay,
                    failures := if step.Online? then 0 else s.failures)
  {
  }

  /** From the start of the client on, as long as it is not stopped: one flush at a time, no event
      without a flush to come, the latest event per name never lost, none flushed twice, one link,
      exact back-off. */
  lemma EveryRunIsGood(steps: seq<Step>)
    requires Stop !in steps && Run(Started(FRESH), steps).Some?
    ensures Good(Run(Started(FRESH), steps).value)
  {
    hide Good;
    StartIsGood();
    RunKeepsGood(Started(FRESH), steps);
  }

  function Errors(steps: seq<Step>): nat {
    if steps == [] then 0 else (if steps[0].Error? then 1 else 0) + Errors(steps[1..])
  }

  predicate Resets(step: Step) {
    step.Open? || step.Online? || step.Stop?
  }

  lemma {:induction false} ErrorsCount(s: State, steps: seq<Step>)
    requires s.everConnected && !s.stopped && Run(s, steps).Some?
    requires forall step :: step in steps ==> !Resets(step)
    ensures var s' := Run(s, steps).value; s'.everConnected && !s'.stopped && s'.failures == s.failures + Errors(steps)
    decreases |steps|
  {
    hide Min, SetPending;
    if steps != [] {
      assert !Resets(steps[0]);
      ErrorsCount(Next(s, steps[0]), steps[1..]);
    }
  }

  lemma {:induction false} RunSplit(s: State, a: seq<Step>, b: seq<Step>)
    ensures Run(s, a + b) == if Run(s, a).None? then None else Run(Run(s, a).value, b)
    decreases |a|
  {
    hide Next, Enabled;
    if a == [] {
      assert a + b == b;
    } else {
      assert (a + b)[1..] == a[1..] + b;
      if Enabled(s, a[0]) {
        RunSplit(Next(s, a[0]), a[1..], b);
      }
    }
  }

  /** Once a connection was open, the failure that comes after `k` failures in a row (no source
      opened and the browser did not report being online in between) is retried after
      `min(1000 * 2^k, 30000)` milliseconds. */
  lemma NextDelay(before: seq<Step>, source: nat, since: seq<Step>, failing: nat, closed: bool)
    requires Stop !in before && forall step :: step in since ==> !Resets(step)
    requires Run(Started(FRESH), before + [Open(source)] + since + [Error(failing, closed)]).Some?
    ensures Run(Started(FRESH), before + [Open(source)] + since + [Error(failing, closed)]).value.retryTimer ==
            Some(Min(FIRST_RETRY_MS * Pow2(Errors(since)), MAX_RETRY_MS))
  {
    hide Min, Pow2, Errors, NothingForgotten, Distinct, SetPending;
    var error := [Error(failing, closed)];
    RunSplit(Started(FRESH), before + [Open(source)] + since, error);
    RunSplit(Started(FRESH), before + [Open(source)], since);
    RunSplit(Started(FRESH), before, [Open(source)]);
    var s0 := Run(Started(FRESH), before).value;
    EveryRunIsGood(before);
    OneStep(s0, Open(source));
    var s1 := Next(s0, Open(source));
    ErrorsCount(s1, since);
    NoStop(since);
    EveryRunIsGood(before + [Open(source)] + since);
    OneStep(Run(s1, since).value, error[0]);
  }

  /** Failures that do not count as an endpoint that is not there. */
  function OpenErrors(steps: seq<Step>): nat {
    if steps == [] then 0 else (if steps[0].Error? && !steps[0].closed then 1 else 0) + OpenErrors(steps[1..])
  }

  lemma {:induction false} OpenErrorsCount(s: State, steps: seq<Step>)
    requires !s.everConnected && !s.stopped && Run(s, steps).Some?
    requires forall step :: step in steps ==> !Resets(step)
    ensures var s' := Run(s, steps).value;
      !s'.everConnected && !s'.stopped && s'.failures == s.failures + OpenErrors(steps)
    decreases |steps|
  {
    hide Min, SetPending;
    if steps != [] {
      assert !Resets(steps[0]);
      OpenErrorsCount(Next(s, steps[0]), steps[1..]);
    }
  }

  /** Before the first connection, a failure that closes the source is retried after a minute, and
      makes no later delay longer; any other is retried as above. */
  lemma FirstDelay(steps: seq<Step>, failing: nat, closed: bool)
    requires forall step :: step in steps ==> !Resets(step)
    requires Run(Started(FRESH), steps + [Error(failing, closed)]).Some?
    ensures Run(Started(FRESH), steps + [Error(failing, closed)]).value.retryTimer ==
            Some(if closed then 60000 else Min(FIRST_RETRY_MS * Pow2(OpenErrors(steps)), MAX_RETRY_MS))
  {
    hide Min, Pow2, OpenErrors, NothingForgotten, Distinct, SetPending;
    var error := Error(failing, closed);
    RunSplit(Started(FRESH), steps, [error]);
    OpenErrorsCount(Started(FRESH), steps);
    NoStop(steps);
    EveryRunIsGood(steps);
    OneStep(Run(Started(FRESH), steps).value, error);
  }

  lemma OneStep(s: State, step: Step)
    ensures Run(s, [step]) == if Enabled(s, step) then Some(Next(s, step)) else None
  {
    hide Next, Enabled;
    assert [step][1..] == [];
  }

  lemma NoStop(since: seq<Step>)
    requires forall step :: step in since ==> !Resets(step)
    ensures Stop !in since
  {
    assert Resets(Stop);
  }

  // ----- Stopping and starting again -----

  /** After `stop` only a running flush goes on, and it starts no other. */
  lemma StoppedStaysDown(s: State, step: Step)
    requires Down(s) && Enabled(s, step)
    ensures Down(Next(s, step)) && Next(s, step).created == s.created && |Next(s, step).batches| == |s.batches|
  {
    hide Pow2, Min;
    Settled(s, Next(s, step));
  }

  /** Starting again after a stop meets the same properties exactly when no flush is left running
      and no event was left waiting. */
  lemma RestartIsGoodIff(s: State)
    requires Down(s)
    ensures Good(Started(s)) <==> s.running == 0 && s.pending == []
  {
    hide Pow2, Min;
    Settled(s, Started(s));
  }

  /** For instance, stopping in the middle of a flush and starting again lets two flushes overlap. */
  lemma RestartCanOverlap(ev: Event)
    ensures var s := Run(Started(FRESH), [Message(0, ev), FlushFires, Stop]);
      s.Some? && var s' := Run(Started(s.value), [Message(1, ev), FlushFires]); s'.Some? && s'.value.running == 2
  {
    hide SetPending;
    var s0 := Started(FRESH);
    var s1 := Next(s0, Message(0, ev));
    var s2 := Next(s1, FlushFires);
    RunSplit(s0, [Message(0, ev)], [FlushFires]);
    RunSplit(s0, [Message(0, ev), FlushFires], [Stop]);
    OneStep(s0, Message(0, ev));
    OneStep(s1, FlushFires);
    OneStep(s2, Stop);
    assert [Message(0, ev)] + [FlushFires] + [Stop] == [Message(0, ev), FlushFires, Stop];
    var t0 := Started(Next(s2, Stop));
    RunSplit(t0, [Message(1, ev)], [FlushFires]);
    OneStep(t0, Message(1, ev));
    OneStep(Next(t0, Message(1, ev)), FlushFires);
    assert [Message(1, ev)] + [FlushFires] == [Message(1, ev), FlushFires];
  }

  // ----- What a flush does -----

  datatype Call = SyncSpace | RefreshFileList | SyncFile(name: string) | ProbeFile(name: string)

  function Changed(batch: seq<Event>): set<nat> {
    set i: nat | i < |batch| && batch[i].action.Change?
  }

  ghost predicate Bulk(batch: seq<Event>) {
    (exists i :: 0 <= i < |batch| && batch[i].action.Resync?) || |Changed(batch)| >= 4
  }

  /** Whether some call made for this event looks at its file or at the whole list. */
  ghost predicate Reached(calls: seq<Call>, e: Event) {
    RefreshFileList in calls || (e.action.Change? && ProbeFile(e.name) in calls)
  }

  /** The place of a call among those for single files: which event it is for, and whether it is
      the probe or the sync. */
  datatype Slot = Slot(event: nat, probe: bool)

  predicate Before(a: Slot, b: Slot) {
    a.event < b.event || (a.event == b.event && !a.probe && b.probe)
  }

  function CallAt(batch: seq<Event>, slot: Slot): Call
    requires slot.event < |batch|
  {
    var name := batch[slot.event].name;
    if slot.probe then ProbeFile(name) else SyncFile(name)
  }

  /** A changed file is synced where a service worker is active, and probed unless that fails. */
  ghost predicate Due(batch: seq<Event>, slot: Slot, active: Call -> bool, works: Call -> bool) {
    slot.event < |batch| && batch[slot.event].action.Change? &&
    var sync := SyncFile(batch[slot.event].name);
    if slot.probe then !active(sync) || works(sync) else active(sync)
  }

  /** The calls for the first `n` events are exactly those due, once each: event by event, and the
      sync of a file before its probe. */
  ghost predicate FileCalls(calls: seq<Call>, slots: seq<Slot>, batch: seq<Event>, n: nat, active: Call -> bool,
                            works: Call -> bool)
  {
    && |slots| == |calls|
    && (forall k :: 0 <= k < |slots| ==>
          slots[k].event < n && Due(batch, slots[k], active, works) && calls[k] == CallAt(batch, slots[k]))
    && (forall j, k :: 0 <= j < k < |slots| ==> Before(slots[j], slots[k]))
    && (forall slot: Slot :: slot.event < n && Due(batch, slot, active, works) ==> slot in slots)
  }

  ghost predicate HasDelete(batch: seq<Event>) {
    exists i :: 0 <= i < |batch| && batch[i].action.Delete?
  }

  /** A flood is one sync and one list; otherwise each change is handled by itself, and deletes are
      found by listing. */
  ghost predicate FlushCalls(calls: seq<Call>, batch: seq<Event>, active: Call -> bool, works: Call -> bool) {
    if Bulk(batch) then
      calls == (if active(SyncSpace) then [SyncSpace] else [])
               + if !active(SyncSpace) || works(SyncSpace) then [RefreshFileList] else []
    else
      exists files, slots :: FileCalls(files, slots, batch, |batch|, active, works) &&
        calls == files + if HasDelete(batch) then [RefreshFileList] else []
  }

  /** Exactly when a flushed event is looked at: in a flood, unless the sync fails; otherwise,
      unless the event is a change whose own sync fails, and no delete has the list fetched. A
      failure of one file's sync has no effect on the other files. */
  lemma EventReachedIff(calls: seq<Call>, batch: seq<Event>, active: Call -> bool, works: Call -> bool, i: nat)
    requires FlushCalls(calls, batch, active, works) && i < |batch|
    ensures Reached(calls, batch[i]) <==>
            if Bulk(batch) then !active(SyncSpace) || works(SyncSpace)
            else HasDelete(batch) || !active(SyncFile(batch[i].name)) || works(SyncFile(batch[i].name))
  {
    hide Changed, Due, FileCalls;
    if !Bulk(batch) {
      var files, slots :| FileCalls(files, slots, batch, |batch|, active, works) &&
        calls == files + if HasDelete(batch) then [RefreshFileList] else [];
      if batch[i].action.Change? {
        ProbedIff(files, slots, batch, active, works, i);
      }
      NoListAmong(files, slots, batch, active, works);
    } else if !active(SyncSpace) || works(SyncSpace) {
      assert calls[|calls| - 1] == RefreshFileList;
    }
  }

  lemma NoListAmong(files: seq<Call>, slots: seq<Slot>, batch: seq<Event>, active: Call -> bool, works: Call -> bool)
    requires FileCalls(files, slots, batch, |batch|, active, works)
    ensures RefreshFileList !in files
  {
  }

  lemma ProbedIff(files: seq<Call>, slots: seq<Slot>, batch: seq<Event>, active: Call -> bool, works: Call -> bool,
                  i: nat)
    requires FileCalls(files, slots, batch, |batch|, active, works) && i < |batch| && batch[i].action.Change?
    ensures ProbeFile(batch[i].name) in files <==>
            !active(SyncFile(batch[i].name)) || works(SyncFile(batch[i].name))
  {
    if Due(batch, Slot(i, true), active, works) {
      var k :| 0 <= k < |slots| && slots[k] == Slot(i, true);
      assert files[k] == ProbeFile(batch[i].name);
    }
  }

  /** One more call, behind those for earlier events and for the same one. */
  ghost predicate UpTo(calls: seq<Call>, slots: seq<Slot>, batch: seq<Event>, last: Slot, active: Call -> bool,
                       works: Call -> bool)
  {
    && |slots| == |calls|
    && (forall k :: 0 <= k < |slots| ==>
          Before(slots[k], last) && Due(batch, slots[k], active, works) && calls[k] == CallAt(batch, slots[k]))
    && (forall j, k :: 0 <= j < k < |slots| ==> Before(slots[j], slots[k]))
    && (forall slot :: Before(slot, last) && Due(batch, slot, active, works) ==> slot in slots)
  }

  lemma FromFiles(calls: seq<Call>, slots: seq<Slot>, batch: seq<Event>, n: nat, active: Call -> bool,
                  works: Call -> bool)
    ensures FileCalls(calls, slots, batch, n, active, works)
       <==> UpTo(calls, slots, batch, Slot(n, false), active, works)
  {
  }

  lemma OneCallMore(calls: seq<Call>, slots: seq<Slot>, batch: seq<Event>, here: Slot, next: Slot,
                    active: Call -> bool, works: Call -> bool)
    requires UpTo(calls, slots, batch, here, active, works) && here.event < |batch|
    requires next == if here.probe then Slot(here.event + 1, false) else Slot(here.event, true)
    ensures if Due(batch, here, active, works)
            then UpTo(calls + [CallAt(batch, here)], slots + [here], batch, next, active, works)
            else UpTo(calls, slots, batch, next, active, works)
  {
    hide Due, CallAt;
    assert forall slot :: Before(slot, next) <==> Before(slot, here) || slot == here;
  }

  /** The notes are those of the changes among the first `n` events that say where they come from,
      in order. */
  ghost predicate Noted(notes: seq<(string, string)>, at: seq<nat>, batch: seq<Event>, n: nat)
    requires n <= |batch|
  {
    && |at| == |notes|
    && (forall k :: 0 <= k < |at| ==>
          && at[k] < n && batch[at[k]].action.Change? && batch[at[k]].origin.Some?
          && notes[k] == (batch[at[k]].name, batch[at[k]].origin.value))
    && (forall j, k :: 0 <= j < k < |at| ==> at[j] < at[k])
    && (forall i :: 0 <= i < n && batch[i].action.Change? && batch[i].origin.Some? ==> i in at)
  }

  lemma ChangedStep(batch: seq<Event>, i: nat)
    requires i < |batch|
    ensures |Changed(batch[..i + 1])| == |Changed(batch[..i])| + if batch[i].action.Change? then 1 else 0
  {
    var some, more := Changed(batch[..i]), Changed(batch[..i + 1]);
    assert more == some + if batch[i].action.Change? then {i} else {};
  }

  lemma NothingYet(batch: seq<Event>, active: Call -> bool, works: Call -> bool)
    ensures Changed(batch[..0]) == {} && Noted([], [], batch, 0) && !HasDelete(batch[..0])
    ensures FileCalls([], [], batch, 0, active, works)
  {
  }

  /** `works` says which hook calls succeed, `active` whether a service worker is active just before
      such a call. The calls are those made, in order; the notes of origin come before them. */
  method Flush(batch: seq<Event>, active: Call -> bool, works: Call -> bool)
    returns (notes: seq<(string, string)>, calls: seq<Call>)
    ensures exists at :: Noted(notes, at, batch, |batch|)
    ensures FlushCalls(calls, batch, active, works)
  {
    hide FileCalls, UpTo, Changed, Due, CallAt, Noted;
    notes := [];
    ghost var at: seq<nat> := [];
    var resync, deletes, changes := false, false, 0;
    NothingYet(batch, active, works);
    for i := 0 to |batch|
      invariant resync <==> exists j :: 0 <= j < i && batch[j].action.Resync?
      invariant deletes <==> HasDelete(batch[..i])
      invariant changes == |Changed(batch[..i])|
      invariant Noted(notes, at, batch, i)
    {
      ChangedStep(batch, i);
      NotedStep(notes, at, batch, i);
      assert batch[..i + 1][..i] == batch[..i];
      if batch[i].action.Change? && batch[i].origin.Some? {
        notes, at := notes + [(batch[i].name, batch[i].origin.value)], at + [i];
      }
      resync := resync || batch[i].action.Resync?;
      deletes := deletes || batch[i].action.Delete?;
      changes := changes + if batch[i].action.Change? then 1 else 0;
    }
    assert batch[..|batch|] == batch;
    calls := [];
    if resync || changes >= BATCH_THRESHOLD {
      if active(SyncSpace) {
        calls := [SyncSpace];
        if !works(SyncSpace) {
          return;
        }
      }
      calls := calls + [RefreshFileList];
      return;
    }
    ghost var slots: seq<Slot> := [];
    for i := 0 to |batch|
      invariant FileCalls(calls, slots, batch, i, active, works)
    {
      var more := [];
      if batch[i].action.Change? {
        var name := batch[i].name;
        if active(SyncFile(name)) {
          more := [SyncFile(name)];
        }
        if !active(SyncFile(name)) || works(SyncFile(name)) {
          more := more + [ProbeFile(name)];
        }
      }
      slots := OneEventMore(calls, slots, more, batch, i, active, works);
      calls := calls + more;
    }
    if deletes {
      calls := calls + [RefreshFileList];
    } else {
      assert calls == calls + [];
    }
  }

  lemma NotedStep(notes: seq<(string, string)>, at: seq<nat>, batch: seq<Event>, i: nat)
    requires i < |batch| && Noted(notes, at, batch, i)
    ensures if batch[i].action.Change? && batch[i].origin.Some?
            then Noted(notes + [(batch[i].name, batch[i].origin.value)], at + [i], batch, i + 1)
            else Noted(notes, at, batch, i + 1)
  {
  }

  /** The calls that one event adds. */
  lemma OneEventMore(calls: seq<Call>, slots: seq<Slot>, more: seq<Call>, batch: seq<Event>, i: nat,
                     active: Call -> bool, works: Call -> bool)
    returns (slots': seq<Slot>)
    requires i < |batch| && FileCalls(calls, slots, batch, i, active, works)
    requires var name := batch[i].name;
      more == if !batch[i].action.Change? then [] else
        (if active(SyncFile(name)) then [SyncFile(name)] else [])
        + if !active(SyncFile(name)) || works(SyncFile(name)) then [ProbeFile(name)] else []
    ensures FileCalls(calls + more, slots', batch, i + 1, active, works)
  {
    hide FileCalls, UpTo;
    var sync, probe := Slot(i, false), Slot(i, true);
    FromFiles(calls, slots, batch, i, active, works);
    OneCallMore(calls, slots, batch, sync, probe, active, works);
    var calls1 := if Due(batch, sync, active, works) then calls + [SyncFile(batch[i].name)] else calls;
    var slots1 := if Due(batch, sync, active, works) then slots + [sync] else slots;
    OneCallMore(calls1, slots1, batch, probe, Slot(i + 1, false), active, works);
    var calls2 := if Due(batch, probe, active, works) then calls1 + [ProbeFile(batch[i].name)] else calls1;
    slots' := if Due(batch, probe, active, works) then slots1 + [probe] else slots1;
    assert calls2 == calls + more;
    FromFiles(calls2, slots', batch, i + 1, active, works);
  }

  // ----- The client -----

  /** `created` and `live` are the browser's side of the event sources. The ghost fields are the
      history. */
  class RealtimeClient {
    var source: Option<nat>
    var retryDelay: nat
    var everConnected: bool
    var stopped: bool
    var pending: seq<Event>
    var flushTimer: Timer
    var retryTimer: Option<nat>
    var created: nat
    var live: set<nat>
    ghost var running: nat
    ghost var received: seq<Event>
    ghost var batches: seq<seq<Event>>
    ghost var failures: nat

    ghost function Now(): State
      reads this
    {
      State(stopped, created, live, source, retryTimer, retryDelay, everConnected, pending, flushTimer, running,
        received, batches, failures)
    }

    constructor ()
      ensures Now() == FRESH
    {
      source, retryDelay, everConnected, stopped := None, FIRST_RETRY_MS, false, false;
      pending, flushTimer, retryTimer, created, live := [], Unset, None, 0, {};
      running, received, batches, failures := 0, [], [], 0;
    }

    method Start()
      modifies this
      ensures Now() == Started(old(Now()))
    {
      stopped := false;
      Connect();
    }

    method Stop()
      modifies this
      ensures Now() == Next(old(Now()), Step.Stop)
    {
      stopped := true;
      if source.Some? {
        live := live - {source.value};
      }
      source, retryTimer, flushTimer := None, None, Unset;
    }

    method OnOnline()
      modifies this
      ensures Now() == Next(old(Now()), Online)
    {
      if stopped || retryTimer.None? {
        return;
      }
      retryTimer, retryDelay, failures := None, FIRST_RETRY_MS, 0;
      Connect();
    }

    method ScheduleReconnect(delay: nat)
      modifies this`retryTimer
      ensures retryTimer == Some(delay)
    {
      retryTimer := Some(delay);
    }

    method RetryTimerFires()
      requires Enabled(Now(), RetryFires)
      modifies this
      ensures Now() == Next(old(Now()), RetryFires)
    {
      retryTimer := None;
      Connect();
    }

    method Connect()
      modifies this
      ensures Now() == Connected(old(Now()))
    {
      if stopped {
        return;
      }
      source, live, created := Some(created), live + {created}, created + 1;
    }

    /** After a gap, and only then, the file list is fetched again, for what has been missed. */
    method OnOpen(id: nat) returns (refresh: bool)
      requires Enabled(Now(), Open(id))
      modifies this
      ensures Now() == Next(old(Now()), Open(id)) && refresh == old(everConnected)
    {
      refresh := everConnected;
      retryDelay, everConnected, failures := FIRST_RETRY_MS, true, 0;
    }

    method OnError(id: nat, closed: bool)
      requires Enabled(Now(), Error(id, closed))
      modifies this
      ensures Now() == Next(old(Now()), Error(id, closed))
    {
      var unsupported := !everConnected && closed;
      live := live - {id};
      if stopped {
        return;
      }
      if unsupported {
        ScheduleReconnect(UNSUPPORTED_RETRY_MS);
        return;
      }
      ScheduleReconnect(retryDelay);
      retryDelay := Min(retryDelay * 2, MAX_RETRY_MS);
      failures := failures + 1;
    }

    method HandleEvent(id: nat, ev: Event)
      requires Enabled(Now(), Message(id, ev))
      modifies this
      ensures Now() == Next(old(Now()), Message(id, ev))
    {
      pending, received := SetPending(pending, ev), received + [ev];
      if flushTimer == Unset {
        flushTimer := Waiting;
      }
    }

    /** `runFlush` up to its first wait; the batch is what `Flush` handles. */
    method BeginFlush() returns (batch: seq<Event>)
      requires Enabled(Now(), FlushFires)
      modifies this
      ensures batch == old(pending) && Now() == Next(old(Now()), FlushFires)
    {
      flushTimer, running := Fired, running + 1;
      batch := pending;
      batches, pending := batches + [batch], [];
    }

    /** `runFlush` after the wait. */
    method EndFlush()
      requires Enabled(Now(), FlushEnds)
      modifies this
      ensures Now() == Next(old(Now()), FlushEnds)
    {
      running, flushTimer := running - 1, Unset;
      if pending != [] && !stopped {
        flushTimer := Waiting;
      }
    }
  }
}
