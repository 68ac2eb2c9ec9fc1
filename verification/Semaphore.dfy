/** The semaphore of the AI sidecar: `ai-sidecar/src/concurrency.ts`. A call of `run` is three
    uninterrupted stretches: up to its start or its wait, from its wake-up to its start, and its
    end. */
module Semaphore {
  import opened Options

  /** `max` and `maxQueueLength`; no bound stands for `Infinity`. */
  datatype Limits = Limits(max: nat, maxQueueLength: Option<nat>)

  /** `woken` are the waiters whose promise has been resolved, but which have not resumed yet.
      `accepted` and `started` record the calls not refused, and those whose function has been
      called, in order. */
  datatype State<T> = State(active: nat, queue: seq<T>, woken: seq<T>, accepted: seq<T>, started: seq<T>)

  datatype Step<T> = Call(task: T) | Resume | Finish

  predicate Refused<T>(s: State<T>, limits: Limits) {
    s.active >= limits.max && limits.maxQueueLength.Some? && |s.queue| >= limits.maxQueueLength.value
  }

  predicate Enabled<T>(s: State<T>, step: Step<T>) {
    match step
    case Call(_) => true
    case Resume => s.woken != []
    case Finish => s.active > 0
  }

  function Next<T>(s: State<T>, step: Step<T>, limits: Limits): State<T>
    requires Enabled(s, step)
  {
    match step
    case Call(task) =>
      if Refused(s, limits) then s
      else if s.active >= limits.max then s.(queue := s.queue + [task], accepted := s.accepted + [task])
      else s.(active := s.active + 1, accepted := s.accepted + [task], started := s.started + [task])
    case Resume => s.(active := s.active + 1, woken := s.woken[1..], started := s.started + [s.woken[0]])
    case Finish =>
      if s.queue == [] then s.(active := s.active - 1)
      else s.(active := s.active - 1, queue := s.queue[1..], woken := s.woken + [s.queue[0]])
  }

  function Run<T>(s: State<T>, steps: seq<Step<T>>, limits: Limits): Option<State<T>>
    decreases |steps|
  {
    if steps == [] then Some(s)
    else if !Enabled(s, steps[0]) then None
    else Run(Next(s, steps[0], limits), steps[1..], limits)
  }

  // ----- How many run -----

  /** Running and woken calls stay within the limit, a waiter waits only when the limit is
      used up (no wake-up is lost), and the queue stays within its bound. */
  predicate Bounded<T>(s: State<T>, limits: Limits) {
    && s.active + |s.woken| <= limits.max
    && (s.queue != [] ==> s.active + |s.woken| == limits.max)
    && (limits.maxQueueLength.Some? ==> |s.queue| <= limits.maxQueueLength.value)
  }

  /** A finished call has given its place to a waiter, which has not taken it yet. */
  predicate PlaceGivenAway<T>(s: State<T>, limits: Limits) {
    s.active < limits.max <= s.active + |s.woken|
  }

  /** The exact condition: a step breaks the bounds just when it is a call arriving between a
      wake-up and the woken waiter's resumption while no other place is free. */
  lemma StepKeepsBoundsIff<T>(s: State<T>, step: Step<T>, limits: Limits)
    requires Bounded(s, limits) && Enabled(s, step)
    ensures Bounded(Next(s, step, limits), limits) <==> !(step.Call? && PlaceGivenAway(s, limits))
  {
  }

  ghost predicate NeverBarges<T>(s: State<T>, steps: seq<Step<T>>, limits: Limits)
    decreases |steps|
  {
    steps == [] || !Enabled(s, steps[0]) ||
    (!(steps[0].Call? && PlaceGivenAway(s, limits)) && NeverBarges(Next(s, steps[0], limits), steps[1..], limits))
  }

  ghost predicate AlwaysBounded<T>(s: State<T>, steps: seq<Step<T>>, limits: Limits)
    decreases |steps|
  {
    Bounded(s, limits) &&
    (steps == [] || !Enabled(s, steps[0]) || AlwaysBounded(Next(s, steps[0], limits), steps[1..], limits))
  }

  /** Over whole runs: the bounds hold all along just when no call arrives at such a moment. */
  lemma {:induction false} RunBoundedIff<T>(s: State<T>, steps: seq<Step<T>>, limits: Limits)
    requires Bounded(s, limits)
    ensures AlwaysBounded(s, steps, limits) <==> NeverBarges(s, steps, limits)
    decreases |steps|
  {
    if steps != [] && Enabled(s, steps[0]) {
      StepKeepsBoundsIff(s, steps[0], limits);
      var s' := Next(s, steps[0], limits);
      if Bounded(s', limits) {
        RunBoundedIff(s', steps[1..], limits);
      }
    }
  }

  // ----- In what order -----

  /** Every accepted call is started, woken or waiting, once, in the order of arrival. */
  predicate InOrder<T(==)>(s: State<T>) {
    s.accepted == s.started + s.woken + s.queue
  }

  /** Calls arrive only after woken waiters have resumed. */
  ghost predicate Polite<T>(s: State<T>, steps: seq<Step<T>>, limits: Limits)
    decreases |steps|
  {
    steps == [] || !Enabled(s, steps[0]) ||
    ((steps[0].Call? ==> s.woken == []) && Polite(Next(s, steps[0], limits), steps[1..], limits))
  }

  lemma PoliteStep<T>(s: State<T>, step: Step<T>, limits: Limits)
    requires Bounded(s, limits) && InOrder(s) && Enabled(s, step) && (step.Call? ==> s.woken == [])
    ensures Bounded(Next(s, step, limits), limits) && InOrder(Next(s, step, limits))
  {
  }

  /** A call that arrives then is refused exactly if all places are taken and the queue is full; it
      starts at once exactly if a place is free. */
  lemma ArrivalIff<T>(s: State<T>, task: T, limits: Limits)
    requires Bounded(s, limits) && InOrder(s) && s.woken == []
    ensures var s' := Next(s, Call(task), limits);
      && (s' == s <==> s.active == limits.max && limits.maxQueueLength == Some(|s.queue|))
      && (s' != s ==> s'.accepted == s.accepted + [task])
      && (s'.started == s.started + [task] && s'.active == s.active + 1 <==> s.active < limits.max)
  {
  }

  function Finishes<T>(steps: seq<Step<T>>): nat {
    if steps == [] then 0 else (if steps[0].Finish? then 1 else 0) + Finishes(steps[1..])
  }

  /** In any run, those running are those started and not finished. */
  lemma {:induction false} RunningAreStarted<T>(s: State<T>, steps: seq<Step<T>>, limits: Limits)
    requires Run(s, steps, limits).Some?
    ensures var end := Run(s, steps, limits).value;
      end.active + Finishes(steps) - s.active == |end.started| - |s.started|
    decreases |steps|
  {
    if steps != [] {
      RunningAreStarted(Next(s, steps[0], limits), steps[1..], limits);
    }
  }

  /** In every such run, from an idle semaphore: the bounds hold, and accepted calls are started
      in the order of arrival, each once. */
  lemma {:induction false} PoliteRun<T>(s: State<T>, steps: seq<Step<T>>, limits: Limits)
    requires Bounded(s, limits) && InOrder(s) && Polite(s, steps, limits) && Run(s, steps, limits).Some?
    ensures var end := Run(s, steps, limits).value;
      Bounded(end, limits) && InOrder(end) && end.started <= end.accepted && s.started <= end.started
    decreases |steps|
  {
    if steps != [] {
      PoliteStep(s, steps[0], limits);
      PoliteRun(Next(s, steps[0], limits), steps[1..], limits);
    }
    var end := Run(s, steps, limits).value;
    assert end.accepted == end.started + (end.woken + end.queue);
  }

  /** A call in between overtakes the waiter, and one call too many runs. */
  lemma CallInBetween<T>(a: T, b: T, c: T)
    ensures var limits := Limits(1, None);
      var end := Run(State(0, [], [], [], []), [Call(a), Call(b), Finish, Call(c), Resume], limits);
      end.Some? && end.value.active == 2 && end.value.accepted == [a, b, c] && end.value.started == [a, c, b]
  {
    var limits := Limits(1, None);
    var steps := [Call(a), Call(b), Finish, Call(c), Resume];
    var s0 := State<T>.State(0, [], [], [], []);
    var s1 := State<T>.State(1, [], [], [a], [a]);
    var s2 := State<T>.State(1, [b], [], [a, b], [a]);
    var s3 := State<T>.State(0, [], [b], [a, b], [a]);
    var s4 := State<T>.State(1, [], [b], [a, b, c], [a, c]);
    var s5 := State<T>.State(2, [], [], [a, b, c], [a, c, b]);
    assert Next(s0, steps[0], limits) == s1;
    assert Next(s1, steps[1], limits) == s2;
    assert Next(s2, steps[2], limits) == s3;
    assert Next(s3, steps[3], limits) == s4;
    assert Next(s4, steps[4], limits) == s5;
    assert Run(s4, steps[4..], limits) == Some(s5);
    assert steps[3..][1..] == steps[4..];
    assert Run(s3, steps[3..], limits) == Some(s5);
    assert steps[2..][1..] == steps[3..];
    assert Run(s2, steps[2..], limits) == Some(s5);
    assert steps[1..][1..] == steps[2..];
    assert Run(s1, steps[1..], limits) == Some(s5);
  }

  // ----- The class -----

  datatype Entry = Rejected | Queued | Started

  class Semaphore<T> {
    const limits: Limits
    var active: nat
    var queue: seq<T>

    constructor (max: nat, maxQueueLength: Option<nat>)
      ensures limits == Limits(max, maxQueueLength) && active == 0 && queue == []
    {
      limits := Limits(max, maxQueueLength);
      active, queue := 0, [];
    }

    /** The semaphore's part of a state. */
    ghost predicate Shows(s: State<T>)
      reads this
    {
      s.active == active && s.queue == queue
    }

    /** `run` up to its start, its wait or its error. */
    method Enter(task: T, ghost s: State<T>) returns (entry: Entry)
      requires Shows(s)
      modifies this
      ensures Shows(Next(s, Call(task), limits))
      ensures entry == if Refused(s, limits) then Rejected else if s.active >= limits.max then Queued else Started
    {
      if active >= limits.max {
        if limits.maxQueueLength.Some? && |queue| >= limits.maxQueueLength.value {
          return Rejected;
        }
        queue := queue + [task];
        return Queued;
      }
      active := active + 1;
      return Started;
    }

    /** `run` from its wake-up on. */
    method Resumed(ghost s: State<T>)
      requires Shows(s) && Enabled(s, Resume)
      modifies this
      ensures Shows(Next(s, Resume, limits))
    {
      active := active + 1;
    }

    /** The end of `run`, however its function ended. */
    method Leave(ghost s: State<T>) returns (woken: Option<T>)
      requires Shows(s) && Enabled(s, Finish)
      modifies this
      ensures Shows(Next(s, Finish, limits))
      ensures Next(s, Finish, limits).woken == s.woken + (if woken.Some? then [woken.value] else [])
    {
      active := active - 1;
      woken := None;
      if queue != [] {
        woken := Some(queue[0]);
        queue := queue[1..];
      }
    }
  }
}
