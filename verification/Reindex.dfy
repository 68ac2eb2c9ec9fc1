/** The full reindex and how it survives being interrupted: `ensureFullIndex`, `reindexSpace`
    and `finishInitialIndex` in `client/data/object_index.ts`. Storage calls are single steps;
    a window may be closed between any two of them. */
module Reindex {
  import opened Options

  /** `desiredIndexVersion`. */
  const DESIRED := 14

  /** Where a window stands. `Checked` has read the version once, `Waiting` has passed the
      early returns, the rest hold the cross-window lock. */
  datatype Pc = Idle | Checked(version: Option<int>) | Waiting | Locked
              | Marking | Clearing | Unversioning | Queueing | Draining | Finishing | Unmarking

  /** Where a window's one-shot `finishInitialIndex` stands: it is armed when the window is opened
      while no version is stored, and, once it takes the index to be complete, writes the version and
      then deletes the marker, without the lock. */
  datatype Finish = Spent | Armed | ToVersion | ToUnmark

  /** The shared store, and what the windows do. `built` is false while the index is cleared
      but not rebuilt. */
  datatype State = State(version: Option<int>, marker: bool, built: bool, lock: Option<nat>, windows: map<nat, Pc>,
                         finishing: map<nat, Finish>)

  predicate UpToDate(version: Option<int>) {
    version.Some? && version.value >= DESIRED
  }

  function At(s: State, w: nat): Pc {
    if w in s.windows then s.windows[w] else Idle
  }

  function Goto(s: State, w: nat, pc: Pc): State {
    s.(windows := s.windows[w := pc])
  }

  predicate HoldsLock(pc: Pc) {
    !pc.Idle? && !pc.Checked? && !pc.Waiting?
  }

  datatype Step =
    | ReadVersion(w: nat)        // the first look at the stored version
    | Decide(w: nat)             // the early returns, after a look at the marker if need be
    | Lock(w: nat)               // the queue is empty and the lock is free
    | Recheck(w: nat)            // the second look at the version
    | Work(w: nat)               // the next storage call of reindexSpaceUnlocked
    | ReindexSpace(w: nat)       // the manual command: the lock, then straight to work
    | Crash(w: nat)              // the window is closed; the browser frees its lock
    | Boot(w: nat)               // the window's first look at the version, which may arm the handler
    | GiveUp(w: nat)             // the handler finds nothing missing, or a round that did not help
    | FinishVersion(w: nat)      // its first write
    | FinishUnmark(w: nat)       // its second

  /** `ensureFullIndex` returns early on this step: it takes the index to be whole. */
  predicate ReturnsEarly(s: State, step: Step) {
    match step
    case Decide(w) =>
      At(s, w).Checked? && (UpToDate(At(s, w).version) || (At(s, w).version.None? && !s.marker))
    case Recheck(w) => At(s, w).Locked? && UpToDate(s.version)
    case _ => false
  }

  predicate Enabled(s: State, step: Step) {
    match step
    case ReadVersion(w) => At(s, w).Idle?
    case Decide(w) => At(s, w).Checked?
    case Lock(w) => At(s, w).Waiting? && s.lock.None?
    case Recheck(w) => At(s, w).Locked?
    case Work(w) => HoldsLock(At(s, w)) && !At(s, w).Locked?
    case ReindexSpace(w) => At(s, w).Idle? && s.lock.None?
    case Crash(w) => !At(s, w).Idle? || w in s.finishing
    case Boot(w) => w !in s.finishing
    case GiveUp(w) => w in s.finishing && s.finishing[w].Armed?
    case FinishVersion(w) => w in s.finishing && s.finishing[w].ToVersion?
    case FinishUnmark(w) => w in s.finishing && s.finishing[w].ToUnmark?
  }

  function Next(s: State, step: Step): State
    requires Enabled(s, step)
  {
    match step
    case ReadVersion(w) => Goto(s, w, Checked(s.version))
    case Decide(w) => Goto(s, w, if ReturnsEarly(s, step) then Idle else Waiting)
    case Lock(w) => Goto(s, w, Locked).(lock := Some(w))
    case Recheck(w) =>
      if ReturnsEarly(s, step) then Goto(s, w, Idle).(lock := None) else Goto(s, w, Marking)
    case Work(w) =>
      (match At(s, w)
       case Marking => Goto(s, w, Clearing).(marker := true)
       case Clearing => Goto(s, w, Unversioning).(built := false)
       case Unversioning => Goto(s, w, Queueing).(version := None)
       case Queueing => Goto(s, w, Draining)
       case Draining => Goto(s, w, Finishing).(built := true)
       case Finishing => Goto(s, w, Unmarking).(version := Some(DESIRED))
       case _ => Goto(s, w, Idle).(marker := false, lock := None))
    case ReindexSpace(w) => Goto(s, w, Marking).(lock := Some(w))
    case Crash(w) =>
      Goto(s, w, Idle).(lock := if s.lock == Some(w) then None else s.lock, finishing := s.finishing - {w})
    case Boot(w) => s.(finishing := s.finishing[w := if s.version.None? then Armed else Spent])
    case GiveUp(w) => s.(finishing := s.finishing[w := ToVersion])
    case FinishVersion(w) => s.(version := Some(DESIRED), finishing := s.finishing[w := ToUnmark])
    case FinishUnmark(w) => s.(marker := false, finishing := s.finishing[w := Spent])
  }

  /** The state after a run, if its steps can be taken one after the other. */
  function Run(s: State, steps: seq<Step>): Option<State>
    decreases |steps|
  {
    if steps == [] then Some(s)
    else if !Enabled(s, steps[0]) then None
    else Run(Next(s, steps[0]), steps[1..])
  }

  // ----- Safety -----

  /** At work on a reindex, with the index not rebuilt yet. */
  predicate Working(pc: Pc) {
    pc in {Marking, Clearing, Unversioning, Queueing, Draining}
  }

  ghost predicate WindowOk(s: State, w: nat) {
    var pc := At(s, w);
    && (HoldsLock(pc) ==> s.lock == Some(w))
    && (pc.Checked? && UpToDate(pc.version) ==> UpToDate(s.version))
    && (pc.Checked? && pc.version.None? ==> s.version.None? || UpToDate(s.version))
    && (Working(pc) ==> !UpToDate(s.version))
    && (pc in {Clearing, Unversioning} ==> s.marker)
    && (pc in {Unversioning, Queueing, Draining} ==> !s.built)
    && (pc in {Queueing, Draining} ==> s.version.None?)
    && (pc in {Finishing, Unmarking} ==> s.built)
  }

  /** A window that starts now takes the reindex up: the stored version is not current, and if it
      is gone, the marker is set. */
  predicate Resumable(s: State) {
    !UpToDate(s.version) && (s.version.None? ==> s.marker)
  }

  ghost predicate Inv(s: State) {
    && (!s.built ==> Resumable(s))
    && forall w :: w in s.windows ==> WindowOk(s, w)
  }

  /** All windows are closed, and the index is whole or its reindex will be taken up. */
  predicate Settled(s: State) {
    s.windows == map[] && s.finishing == map[] && s.lock.None? && (!s.built ==> Resumable(s))
  }

  /** A write of a one-shot handler while a reindex that depends on what it overwrites is under way
      or interrupted: the version, while the index is not whole or about to be cleared; the marker,
      while the index is not whole and no version is stored, or is about to be. */
  predicate Stray(s: State, step: Step) {
    match step
    case FinishVersion(_) =>
      !s.built || (s.lock.Some? && At(s, s.lock.value) in {Marking, Clearing})
    case FinishUnmark(_) =>
      (!s.built && s.version.None?) || (s.lock.Some? && At(s, s.lock.value) in {Clearing, Unversioning})
    case _ => false
  }

  /** The manual command is not given while the stored version is current, and no handler's write is
      stray. */
  predicate Careful(s: State, step: Step) {
    (step.ReindexSpace? ==> !UpToDate(s.version)) && !Stray(s, step)
  }

  ghost predicate CarefulRun(s: State, steps: seq<Step>)
    decreases |steps|
  {
    steps != [] && Enabled(s, steps[0]) ==> Careful(s, steps[0]) && CarefulRun(Next(s, steps[0]), steps[1..])
  }

  lemma StepKeepsInv(s: State, step: Step)
    requires Inv(s) && Enabled(s, step) && Careful(s, step)
    ensures Inv(Next(s, step))
  {
    var s' := Next(s, step);
    forall w | w in s'.windows
      ensures WindowOk(s', w)
    {
      WindowStaysOk(s, step, w);
    }
    StaysResumable(s, step);
  }

  lemma WindowStaysOk(s: State, step: Step, w: nat)
    requires Inv(s) && Enabled(s, step) && Careful(s, step)
    ensures WindowOk(Next(s, step), w)
  {
    hide WindowOk, Next, Enabled, Careful;
    AllOk(s, w);
    AllOk(s, step.w);
    if w == step.w {
      OwnStaysOk(s, step);
    } else {
      OtherStaysOk(s, step, w);
    }
  }

  lemma AllOk(s: State, w: nat)
    requires Inv(s)
    ensures WindowOk(s, w) && (!s.built ==> Resumable(s))
  {
  }

  lemma OwnStaysOk(s: State, step: Step)
    requires WindowOk(s, step.w) && (!s.built ==> Resumable(s)) && Enabled(s, step) && Careful(s, step)
    ensures WindowOk(Next(s, step), step.w)
  {
  }

  lemma OtherStaysOk(s: State, step: Step, w: nat)
    requires w != step.w && WindowOk(s, w) && WindowOk(s, step.w) && (!s.built ==> Resumable(s))
    requires Enabled(s, step) && Careful(s, step)
    ensures WindowOk(Next(s, step), w)
  {
    assert At(Next(s, step), w) == At(s, w);
  }

  lemma StaysResumable(s: State, step: Step)
    requires Inv(s) && Enabled(s, step) && Careful(s, step)
    ensures !Next(s, step).built ==> Resumable(Next(s, step))
  {
    assert step.w in s.windows ==> WindowOk(s, step.w);
  }

  lemma {:induction false} RunKeepsInv(s: State, steps: seq<Step>)
    requires Inv(s) && CarefulRun(s, steps) && Run(s, steps).Some?
    ensures Inv(Run(s, steps).value)
    decreases |steps|
  {
    hide Inv, Enabled, Next, Careful;
    if steps != [] {
      StepKeepsInv(s, steps[0]);
      RunKeepsInv(Next(s, steps[0]), steps[1..]);
    }
  }

  /** The main result: through any number of interruptions and restarts, in any number of
      windows, no early return is taken while the index is cleared but not rebuilt. */
  lemma NoEarlyReturnWhileUnbuilt(s: State, steps: seq<Step>, step: Step)
    requires Settled(s) && CarefulRun(s, steps) && Run(s, steps).Some?
    requires Enabled(Run(s, steps).value, step) && ReturnsEarly(Run(s, steps).value, step)
    ensures Run(s, steps).value.built
  {
    hide CarefulRun, Run, ReturnsEarly, Enabled;
    RunKeepsInv(s, steps);
    EarlyMeansBuilt(Run(s, steps).value, step);
  }

  lemma EarlyMeansBuilt(s: State, step: Step)
    requires Inv(s) && Enabled(s, step) && ReturnsEarly(s, step)
    ensures s.built
  {
    assert WindowOk(s, step.w);
  }

  // ----- Stray writes are exactly the fatal ones -----

  /** A careful run may go on to return early while the index is not whole. */
  ghost predicate CanGoWrong(s: State) {
    exists steps, step :: GoesWrong(s, steps, step)
  }

  ghost predicate GoesWrong(s: State, steps: seq<Step>, step: Step) {
    CarefulRun(s, steps) && Run(s, steps).Some? &&
    Enabled(Run(s, steps).value, step) && ReturnsEarly(Run(s, steps).value, step) && !Run(s, steps).value.built
  }

  lemma InvDoesNotGoWrong(s: State)
    requires Inv(s)
    ensures !CanGoWrong(s)
  {
    hide CarefulRun, Run, Enabled, ReturnsEarly, Inv;
    forall steps, step
      ensures !GoesWrong(s, steps, step)
    {
      if GoesWrong(s, steps, step) {
        RunKeepsInv(s, steps);
        EarlyMeansBuilt(Run(s, steps).value, step);
      }
    }
  }

  /** The exact condition: after a write of a one-shot handler, things can go wrong if and only if
      the write is stray. (`v` is some window that is not open.) */
  lemma HandlerWriteIsFatalIff(s: State, step: Step, v: nat)
    requires Inv(s) && Enabled(s, step) && (step.FinishVersion? || step.FinishUnmark?) && v !in s.windows
    ensures CanGoWrong(Next(s, step)) <==> Stray(s, step)
  {
    hide CarefulRun, Run, Inv, CanGoWrong, Enabled, Next;
    if Stray(s, step) {
      StrayIsFatal(s, step, v);
    } else {
      StepKeepsInv(s, step);
      InvDoesNotGoWrong(Next(s, step));
    }
  }

  /** A window opened now takes the index to be whole. */
  lemma LooksWhole(s: State, v: nat)
    requires At(s, v).Idle? && !s.built && !Resumable(s) && (s.version.Some? ==> UpToDate(s.version))
    ensures GoesWrong(s, [ReadVersion(v)], Decide(v)) && CanGoWrong(s)
  {
    var s1 := Next(s, ReadVersion(v));
    assert [ReadVersion(v)][1..] == [];
    assert CarefulRun(s1, []) && Run(s1, []) == Some(s1);
    assert GoesWrong(s, [ReadVersion(v)], Decide(v));
  }

  /** What can go wrong after a careful step can go wrong before it. */
  lemma GoesWrongLater(s: State, step: Step)
    requires Enabled(s, step) && Careful(s, step) && CanGoWrong(Next(s, step))
    ensures CanGoWrong(s)
  {
    hide Enabled, Next, Careful, ReturnsEarly;
    var steps, last :| GoesWrong(Next(s, step), steps, last);
    var all := [step] + steps;
    assert all[1..] == steps;
    assert GoesWrong(s, all, last);
  }

  lemma StrayIsFatal(s: State, step: Step, v: nat)
    requires Inv(s) && Enabled(s, step) && Stray(s, step) && v !in s.windows
    ensures CanGoWrong(Next(s, step))
  {
    hide CanGoWrong, Careful;
    var s1 := Next(s, step);
    if !s.built && (step.FinishUnmark? ==> s.version.None?) {
      LooksWhole(s1, v);
    } else {
      var w := s.lock.value;
      assert WindowOk(s, w);
      WorkIsCareful(s1, w);
      var s2 := Next(s1, Work(w));
      if At(s, w) == (if step.FinishVersion? then Clearing else Unversioning) {
        LooksWhole(s2, v);
      } else {
        WorkIsCareful(s2, w);
        LooksWhole(Next(s2, Work(w)), v);
        GoesWrongLater(s2, Work(w));
      }
      GoesWrongLater(s1, Work(w));
    }
  }

  lemma WorkIsCareful(s: State, w: nat)
    ensures Careful(s, Work(w))
  {
  }

  /** It can happen: an interrupted reindex has left no version, so the window that takes it up is
      armed. Its handler gives up between the marking and the clearing, and the window is closed
      after the version is deleted once more. The next start takes the cleared index to be new. */
  lemma HandlerHidesReindex(w: nat)
    ensures var s := State(None, true, false, None, map[], map[]);
      Settled(s) &&
      var marked := Run(s, [Boot(w), ReadVersion(w), Decide(w), Lock(w), Recheck(w), Work(w)]);
      marked.Some? &&
      var finished := Run(marked.value, [GiveUp(w), FinishVersion(w), FinishUnmark(w)]);
      finished.Some? &&
      var closed := Run(finished.value, [Work(w), Work(w), Crash(w), ReadVersion(w)]);
      closed.Some? && !closed.value.built && ReturnsEarly(closed.value, Decide(w))
  {
    hide Run;
    TakenUp(w);
    var s := State(None, true, false, Some(w), map[w := Clearing], map[w := Armed]);
    var s1 := Next(s, GiveUp(w));
    var s2 := Next(s1, FinishVersion(w));
    ThreeSteps(s, [GiveUp(w), FinishVersion(w), FinishUnmark(w)]);
    assert Next(s2, FinishUnmark(w)) ==
      State(Some(DESIRED), false, false, Some(w), map[w := Clearing], map[w := Spent]);
    ClosedAfterClearing(w);
  }

  lemma TakenUp(w: nat)
    ensures var s := State(None, true, false, None, map[], map[]);
      Run(s, [Boot(w), ReadVersion(w), Decide(w), Lock(w), Recheck(w), Work(w)]) ==
      Some(State(None, true, false, Some(w), map[w := Clearing], map[w := Armed]))
  {
    hide Run;
    var s := State(None, true, false, None, map[], map[]);
    var s3 := State(None, true, false, None, map[w := Waiting], map[w := Armed]);
    assert Next(Next(Next(s, Boot(w)), ReadVersion(w)), Decide(w)) == s3;
    var steps := [Boot(w), ReadVersion(w), Decide(w), Lock(w), Recheck(w), Work(w)];
    ThreeSteps(s, steps);
    assert steps[3..] == [Lock(w), Recheck(w), Work(w)];
    ThreeSteps(s3, [Lock(w), Recheck(w), Work(w)]);
    assert Next(Next(Next(s3, Lock(w)), Recheck(w)), Work(w)).windows == map[w := Clearing];
  }

  lemma ClosedAfterClearing(w: nat)
    ensures var s := State(Some(DESIRED), false, false, Some(w), map[w := Clearing], map[w := Spent]);
      Run(s, [Work(w), Work(w), Crash(w), ReadVersion(w)]) ==
      Some(State(None, false, false, None, map[w := Checked(None)], map[]))
  {
    var s := State(Some(DESIRED), false, false, Some(w), map[w := Clearing], map[w := Spent]);
    var s3 := State(None, false, false, None, map[w := Idle], map[]);
    assert Next(Next(Next(s, Work(w)), Work(w)), Crash(w)) == s3;
    ThreeSteps(s, [Work(w), Work(w), Crash(w), ReadVersion(w)]);
    assert [Work(w), Work(w), Crash(w), ReadVersion(w)][3..] == [ReadVersion(w)];
    assert Next(s3, ReadVersion(w)).windows == map[w := Checked(None)];
    assert Run(Next(s3, ReadVersion(w)), []) == Some(Next(s3, ReadVersion(w)));
  }

  lemma ThreeSteps(s: State, steps: seq<Step>)
    requires |steps| >= 3 && Enabled(s, steps[0]) && Enabled(Next(s, steps[0]), steps[1])
    requires Enabled(Next(Next(s, steps[0]), steps[1]), steps[2])
    ensures Run(s, steps) == Run(Next(Next(Next(s, steps[0]), steps[1]), steps[2]), steps[3..])
    ensures |steps| == 3 ==> Run(s, steps) == Some(Next(Next(Next(s, steps[0]), steps[1]), steps[2]))
  {
    hide Enabled, Next;
    var s1 := Next(s, steps[0]);
    var s2 := Next(s1, steps[1]);
    assert Run(s, steps) == Run(s1, steps[1..]);
    assert steps[1..][0] == steps[1] && steps[1..][1..] == steps[2..];
    assert Run(s1, steps[1..]) == Run(s2, steps[2..]);
    assert steps[2..][0] == steps[2] && steps[2..][1..] == steps[3..];
  }

  /** The order of the storage calls matters: a manual reindex that is interrupted after
      clearing and before the version key is gone is taken up again after a restart exactly if
      the stored version was not current when it began. */
  lemma InterruptedReindexResumesIff(s: State, w: nat)
    requires Inv(s) && At(s, w).Idle? && s.lock.None?
    ensures var steps := [ReindexSpace(w), Work(w), Work(w), Crash(w), ReadVersion(w)];
      var after := Run(s, steps);
      && after.Some? && !after.value.built && Enabled(after.value, Decide(w))
      && (ReturnsEarly(after.value, Decide(w)) <==> UpToDate(s.version))
  {
    var s1 := Next(s, ReindexSpace(w));
    var s2 := Next(s1, Work(w));
    var s3 := Next(s2, Work(w));
    var s4 := Next(s3, Crash(w));
    var s5 := Next(s4, ReadVersion(w));
    assert Run(s5, []) == Some(s5);
    assert Run(s4, [ReadVersion(w)]) == Run(s5, []);
    assert Run(s3, [Crash(w), ReadVersion(w)]) == Run(s4, [ReadVersion(w)]);
    assert Run(s2, [Work(w), Crash(w), ReadVersion(w)]) == Run(s3, [Crash(w), ReadVersion(w)]);
    assert Run(s1, [Work(w), Work(w), Crash(w), ReadVersion(w)]) == Run(s2, [Work(w), Crash(w), ReadVersion(w)]);
  }

  /** A window that has looked at the stored version goes on exactly if it is below 14, or there is
      none and a reindex was left unfinished; otherwise it changes nothing. */
  lemma WindowGoesOnIff(s: State, w: nat)
    requires At(s, w).Idle?
    ensures Run(s, [ReadVersion(w), Decide(w)]) == Some(s.(windows := s.windows[w :=
      if (s.version == None && !s.marker) || (s.version.Some? && s.version.value >= 14) then Idle else Waiting]))
  {
    hide Run;
    TwoSteps(s, ReadVersion(w), Decide(w));
    var read := Next(s, ReadVersion(w));
    assert At(read, w) == Checked(s.version);
    GotoTwice(s, w, Checked(s.version), if ReturnsEarly(read, Decide(w)) then Idle else Waiting);
  }

  lemma GotoTwice(s: State, w: nat, pc: Pc, pc': Pc)
    ensures Goto(Goto(s, w, pc), w, pc') == Goto(s, w, pc')
  {
    assert s.windows[w := pc][w := pc'] == s.windows[w := pc'];
  }

  /** With the lock, it looks again, and begins the reindex exactly if the version is below 14 or
      missing. */
  lemma WindowBeginsIff(s: State, w: nat)
    requires At(s, w).Waiting? && s.lock.None?
    ensures var after := Run(s, [Lock(w), Recheck(w)]);
      after.Some? && At(after.value, w) == if s.version.Some? && s.version.value >= 14 then Idle else Marking
  {
    hide Run;
    TwoSteps(s, Lock(w), Recheck(w));
  }

  lemma TwoSteps(s: State, a: Step, b: Step)
    requires Enabled(s, a) && Enabled(Next(s, a), b)
    ensures Run(s, [a, b]) == Some(Next(Next(s, a), b))
  {
    hide Enabled, Next;
    assert [a, b][1..] == [b] && [b][1..] == [];
    assert Run(Next(s, a), [b]) == Run(Next(Next(s, a), b), []);
  }

  /** An uninterrupted reindex leaves a whole index at the desired version, and no marker. */
  lemma ReindexCompletes(s: State, w: nat)
    requires Inv(s) && At(s, w).Locked? && !UpToDate(s.version)
    ensures var after := Run(s, [Recheck(w), Work(w), Work(w), Work(w), Work(w), Work(w), Work(w), Work(w)]);
      after.Some? && after.value.built && after.value.version == Some(DESIRED) && !after.value.marker
      && after.value.lock.None? && At(after.value, w).Idle?
  {
    hide Run, Inv;
    var work := [Work(w), Work(w), Work(w), Work(w), Work(w)];
    ThreeSteps(s, [Recheck(w), Work(w), Work(w)] + work);
    assert [Recheck(w), Work(w), Work(w)] + work ==
           [Recheck(w), Work(w), Work(w), Work(w), Work(w), Work(w), Work(w), Work(w)];
    RebuildCompletes(Next(Next(Next(s, Recheck(w)), Work(w)), Work(w)), w);
  }

  lemma RebuildCompletes(s: State, w: nat)
    requires At(s, w).Unversioning?
    ensures var after := Run(s, [Work(w), Work(w), Work(w), Work(w), Work(w)]);
      after.Some? && after.value.built && after.value.version == Some(DESIRED) && !after.value.marker
      && after.value.lock.None? && At(after.value, w).Idle?
  {
    var s3 := Next(Next(Next(s, Work(w)), Work(w)), Work(w));
    assert At(s3, w) == Finishing && s3.built;
    ThreeSteps(s, [Work(w), Work(w), Work(w), Work(w), Work(w)]);
    assert [Work(w), Work(w), Work(w), Work(w), Work(w)][3..] == [Work(w), Work(w)];
    var s4 := Next(s3, Work(w));
    assert Run(Next(s4, Work(w)), []) == Some(Next(s4, Work(w)));
    assert Run(s4, [Work(w)]) == Run(Next(s4, Work(w)), []);
    assert Run(s3, [Work(w), Work(w)]) == Run(s4, [Work(w)]);
  }

  // ----- finishInitialIndex -----

  /** What a call makes of the pages it finds missing. */
  datatype Verdict = Requeue | Complete

  predicate Shrinks(missing: nat, outstanding: Option<nat>) {
    outstanding.None? || missing < outstanding.value
  }

  function Judge(missing: nat, outstanding: Option<nat>): Verdict {
    if missing > 0 && Shrinks(missing, outstanding) then Requeue else Complete
  }

  /** The calls of one session, by how many pages each finds missing: the rounds queued again,
      and the call that completes the index, if any. */
  function Rounds(outstanding: Option<nat>, missing: seq<nat>): (nat, Option<nat>)
    decreases |missing|
  {
    if missing == [] then (0, None)
    else if Judge(missing[0], outstanding) == Complete then (0, Some(0))
    else
      var (n, done) := Rounds(Some(missing[0]), missing[1..]);
      (n + 1, if done.Some? then Some(done.value + 1) else None)
  }

  /** Something is missing, and less than in the round before. */
  predicate MayGoOn(outstanding: Option<nat>, missing: seq<nat>, i: nat)
    requires i < |missing|
  {
    missing[i] > 0 && if i == 0 then Shrinks(missing[0], outstanding) else missing[i] < missing[i - 1]
  }

  /** At most as many rounds as pages were first found missing; and the index is called complete
      only when nothing is missing or a round has not made the set smaller. */
  lemma {:induction false} RoundsConverge(outstanding: Option<nat>, missing: seq<nat>)
    requires missing != []
    ensures var (n, done) := Rounds(outstanding, missing);
      && n <= missing[0]
      && (done.None? ==> n == |missing|)
      && (done.Some? ==> n == done.value < |missing| && !MayGoOn(outstanding, missing, done.value))
      && (forall i :: 0 < i < n ==> missing[i] < missing[i - 1])
    decreases |missing|
  {
    if Judge(missing[0], outstanding) == Requeue && |missing| > 1 {
      RoundsConverge(Some(missing[0]), missing[1..]);
    }
  }

  class InitialIndex<Path(==)> {
    /** `finishInitialIndex` is still defined. */
    var armed: bool
    /** A call is under way. */
    var finishing: bool
    /** `None` stands for `Infinity`. */
    var outstanding: Option<nat>
    var queue: seq<Path>

    constructor ()
      ensures armed && !finishing && outstanding == None && queue == []
    {
      armed, finishing, outstanding, queue := true, false, None, [];
    }

    /** A call goes on only if none is under way; so two never act on the same missing pages. */
    method Begin() returns (runs: bool)
      modifies this`finishing
      ensures runs == (old(armed) && !old(finishing)) && finishing == (old(finishing) || runs)
    {
      runs := armed && !finishing;
      if runs {
        finishing := true;
      }
    }

    /** The call, once it has the pages that have no row in the index. If it completes the index, it
        goes on to write version and marker (`FinishVersion` and `FinishUnmark` above). */
    method Finish(missingFiles: seq<Path>) returns (completes: bool)
      requires armed && finishing
      modifies this
      ensures completes == (Judge(|missingFiles|, old(outstanding)) == Complete)
      ensures if completes then !armed && finishing && outstanding == old(outstanding) && queue == old(queue)
              else armed && !finishing && outstanding == Some(|missingFiles|) && queue == old(queue) + missingFiles
    {
      if |missingFiles| > 0 {
        if outstanding.None? || |missingFiles| < outstanding.value {
          outstanding := Some(|missingFiles|);
          queue := queue + missingFiles;
          finishing := false;
          return false;
        }
      }
      armed := false;
      return true;
    }

    /** After the writes. */
    method End()
      requires !armed && finishing
      modifies this`finishing
      ensures !finishing
    {
      finishing := false;
    }
  }
}
