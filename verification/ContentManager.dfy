/** How `client/content_manager.ts` keeps the last text known to be on disk (the base of a merge),
    an update withheld because it collides with local edits, and saves in flight, on one page.
    Whether an update merges, and into what text, is decided outside: `Outcome`. */
module ContentManager {
  import opened Options

  datatype Withheld = Withheld(text: string, modified: Option<int>)

  /** What `computeExternalChanges` says: withhold, or the new text of the buffer. */
  datatype Outcome = Deferred | Merged(buffer: string, empty: bool)

  datatype Write = Write(id: nat, text: string)

  /** `declaring` counts saves that wait for the divergent base to be declared; `inFlight` are the
      writes not finished, in the order they were started, and `pendingWrite` the one that a reload
      would wait for. `waiting` are the reloads that wait, each for the write it has captured. */
  datatype State = State(
    buffer: string, baseText: string, baseModified: Option<int>, withheld: Option<Withheld>,
    declaring: nat, started: nat, inFlight: seq<Write>, pendingWrite: Option<nat>, waiting: map<nat, nat>)

  datatype Step =
    | Edit(buffer: string)
    | External(text: string, modified: Option<int>, outcome: Outcome)              // a reload that need not wait
    | Wait(r: nat)                                                                 // a reload captures `pendingWrite`
    | Resume(r: nat, text: string, modified: Option<int>, outcome: Outcome)        // that write has ended
    | StartSave(outcome: Outcome)
    | BaseDeclared
    | Written(i: nat, modified: Option<int>)
    | WriteFailed(i: nat)

  predicate Older(modified: Option<int>, seen: Option<int>) {
    modified.Some? && seen.Some? && modified.value < seen.value
  }

  /** The timestamp below which an update counts as stale. */
  function Seen(s: State): Option<int> {
    if s.withheld.Some? && s.withheld.value.modified.Some? then s.withheld.value.modified else s.baseModified
  }

  function Adopt(s: State, text: string, modified: Option<int>): State {
    if Older(modified, s.baseModified) then s else s.(baseText := text, baseModified := modified)
  }

  function ApplyExternal(s: State, text: string, modified: Option<int>, outcome: Outcome): State {
    if Older(modified, Seen(s)) then s
    else match outcome
      case Deferred => s.(withheld := Some(Withheld(text, modified)))
      case Merged(buffer, _) => s.(withheld := None, baseText := text, baseModified := modified, buffer := buffer)
  }

  function Settle(s: State, outcome: Outcome): State {
    if s.withheld.None? then s
    else match outcome
      case Deferred => s.(withheld := None)
      case Merged(buffer, _) =>
        s.(withheld := None, baseText := s.withheld.value.text, baseModified := s.withheld.value.modified,
        buffer := buffer)
  }

  /** The base of a save whose buffer does not descend from the withheld update. */
  function Divergent(s: State, outcome: Outcome): Option<string> {
    if s.withheld.Some? && outcome.Deferred? then Some(s.baseText) else None
  }

  function StartWrite(s: State): State {
    s.(started := s.started + 1, inFlight := s.inFlight + [Write(s.started, s.buffer)], pendingWrite := Some(s.started))
  }

  function EndWrite(s: State, i: nat): State
    requires i < |s.inFlight|
  {
    s.(inFlight := s.inFlight[..i] + s.inFlight[i + 1..],
    pendingWrite := if s.pendingWrite == Some(s.inFlight[i].id) then None else s.pendingWrite)
  }

  predicate InFlight(s: State, id: nat) {
    exists i :: 0 <= i < |s.inFlight| && s.inFlight[i].id == id
  }

  predicate Enabled(s: State, step: Step) {
    match step
    case Wait(r) => s.pendingWrite.Some? && r !in s.waiting
    case Resume(r, _, _, _) => r in s.waiting && !InFlight(s, s.waiting[r])
    case BaseDeclared => s.declaring > 0
    case Written(i, _) => i < |s.inFlight|
    case WriteFailed(i) => i < |s.inFlight|
    case _ => true
  }

  function Next(s: State, step: Step): State
    requires Enabled(s, step)
  {
    match step
    case Edit(buffer) => s.(buffer := buffer)
    case External(text, modified, outcome) => ApplyExternal(s, text, modified, outcome)
    case Wait(r) => s.(waiting := s.waiting[r := s.pendingWrite.value])
    case Resume(r, text, modified, outcome) => ApplyExternal(s.(waiting := s.waiting - {r}), text, modified, outcome)
    case StartSave(outcome) =>
      var settled := Settle(s, outcome);
      if Divergent(s, outcome).Some? then settled.(declaring := s.declaring + 1)
      else StartWrite(settled)
    case BaseDeclared => StartWrite(s.(declaring := s.declaring - 1))
    case Written(i, modified) => Adopt(EndWrite(s, i), s.inFlight[i].text, modified)
    case WriteFailed(i) => EndWrite(s, i)
  }

  // ----- Timestamps -----

  /** An update reaches the page. */
  predicate Lands(step: Step) {
    step.External? || step.Resume?
  }

  /** Timestamps are known, and a withheld update is not older than the base. */
  predicate Ordered(s: State) {
    s.baseModified.Some? &&
    (s.withheld.Some? ==>
       s.withheld.value.modified.Some? && s.baseModified.value <= s.withheld.value.modified.value)
  }

  /** An update or a write comes without a timestamp, or a write comes back newer than an update
      that is withheld. */
  predicate Disturbs(s: State, step: Step) {
    match step
    case External(_, modified, _) => modified.None?
    case Resume(_, _, modified, _) => modified.None?
    case Written(_, modified) => modified.None? || (s.withheld.Some? && Older(s.withheld.value.modified, modified))
    case _ => false
  }

  /** The exact condition under which a step keeps the order; then it does not move the base back. */
  lemma StepKeepsOrderIff(s: State, step: Step)
    requires Ordered(s) && Enabled(s, step)
    ensures Ordered(Next(s, step)) <==> !Disturbs(s, step)
    ensures !Disturbs(s, step) ==> s.baseModified.value <= Next(s, step).baseModified.value
  {
  }

  /** What moves the base, and that it is not older: an update than all seen, a write than the base. */
  lemma BaseMovesForward(s: State, step: Step)
    requires Ordered(s) && Enabled(s, step) && !Disturbs(s, step)
    ensures var s' := Next(s, step);
      s'.baseText != s.baseText ==>
        match step
        case External(text, modified, _) =>
          s'.baseText == text && s'.baseModified == modified && !Older(modified, Seen(s))
        case Resume(_, text, modified, _) =>
          s'.baseText == text && s'.baseModified == modified && !Older(modified, Seen(s))
        case Written(i, modified) =>
          s'.baseText == s.inFlight[i].text && s'.baseModified == modified && !Older(modified, s.baseModified)
        case StartSave(_) => s.withheld == Some(Withheld(s'.baseText, s'.baseModified))
        case _ => false
  {
  }

  function Run(s: State, steps: seq<Step>): Option<State>
    decreases |steps|
  {
    if steps == [] then Some(s)
    else if !Enabled(s, steps[0]) then None
    else Run(Next(s, steps[0]), steps[1..])
  }

  ghost predicate Undisturbed(s: State, steps: seq<Step>)
    decreases |steps|
  {
    steps == [] || !Enabled(s, steps[0]) || (!Disturbs(s, steps[0]) && Undisturbed(Next(s, steps[0]), steps[1..]))
  }

  ghost predicate AlwaysOrdered(s: State, steps: seq<Step>)
    decreases |steps|
  {
    Ordered(s) && (steps == [] || !Enabled(s, steps[0]) || AlwaysOrdered(Next(s, steps[0]), steps[1..]))
  }

  /** Over every run: the order holds throughout exactly when no step disturbs it. */
  lemma {:induction false} RunKeepsOrderIff(s: State, steps: seq<Step>)
    requires Ordered(s)
    ensures AlwaysOrdered(s, steps) <==> Undisturbed(s, steps)
    decreases |steps|
  {
    hide Next, Enabled, Disturbs, Ordered;
    if steps != [] && Enabled(s, steps[0]) {
      StepKeepsOrderIff(s, steps[0]);
      if !Disturbs(s, steps[0]) {
        RunKeepsOrderIff(Next(s, steps[0]), steps[1..]);
      }
    }
  }

  /** And then the base's timestamp never decreases, and a withheld update is never older. */
  lemma {:induction false} RunNeverGoesBack(s: State, steps: seq<Step>)
    requires Ordered(s) && Undisturbed(s, steps) && Run(s, steps).Some?
    ensures var end := Run(s, steps).value; Ordered(end) && s.baseModified.value <= end.baseModified.value
    decreases |steps|
  {
    hide Next, Enabled, Disturbs, Ordered;
    if steps != [] {
      StepKeepsOrderIff(s, steps[0]);
      RunNeverGoesBack(Next(s, steps[0]), steps[1..]);
    }
  }

  // ----- Waiting for the write in flight -----

  /** `pendingWrite` is set just when a write is in flight, and is the one started last. */
  ghost predicate Tracks(s: State) {
    (forall i :: 0 <= i < |s.inFlight| ==> s.inFlight[i].id < s.started) &&
    (forall i, j :: 0 <= i < j < |s.inFlight| ==> s.inFlight[i].id < s.inFlight[j].id) &&
    s.pendingWrite == if s.inFlight == [] then None else Some(s.inFlight[|s.inFlight| - 1].id)
  }

  /** The write started last comes back while another is still in flight. */
  predicate Overtakes(s: State, step: Step) {
    (step.Written? || step.WriteFailed?) && step.i == |s.inFlight| - 1 && |s.inFlight| > 1
  }

  lemma EndTracksIff(s: State, i: nat)
    requires Tracks(s) && i < |s.inFlight|
    ensures Tracks(EndWrite(s, i)) <==> !(i == |s.inFlight| - 1 && |s.inFlight| > 1)
  {
    var rest := EndWrite(s, i).inFlight;
    assert forall k :: 0 <= k < |rest| ==> rest[k] == s.inFlight[if k < i then k else k + 1];
    assert s.inFlight[i].id == s.inFlight[|s.inFlight| - 1].id <==> i == |s.inFlight| - 1;
  }

  /** Exactly an overtaking write makes `pendingWrite` lose track of what is in flight. */
  lemma StepTracksIff(s: State, step: Step)
    requires Tracks(s) && Enabled(s, step)
    ensures Tracks(Next(s, step)) <==> !Overtakes(s, step)
  {
    hide Tracks, InFlight;
    match step
    case Edit(_) => SameWrites(s, Next(s, step));
    case External(_, _, _) => SameWrites(s, Next(s, step));
    case Wait(_) => SameWrites(s, Next(s, step));
    case Resume(_, _, _, _) => SameWrites(s, Next(s, step));
    case StartSave(outcome) =>
      var settled := Settle(s, outcome);
      SameWrites(s, settled);
      StartTracks(settled);
      SameWrites(settled, settled.(declaring := s.declaring + 1));
    case BaseDeclared =>
      SameWrites(s, s.(declaring := s.declaring - 1));
      StartTracks(s.(declaring := s.declaring - 1));
    case Written(i, _) =>
      EndTracksIff(s, i);
      SameWrites(EndWrite(s, i), Next(s, step));
    case WriteFailed(i) => EndTracksIff(s, i);
  }

  lemma StartTracks(s: State)
    requires Tracks(s)
    ensures Tracks(StartWrite(s))
  {
  }

  lemma SameWrites(s: State, s': State)
    requires s'.inFlight == s.inFlight && s'.started == s.started && s'.pendingWrite == s.pendingWrite
    ensures Tracks(s) <==> Tracks(s')
  {
  }

  /** The step puts a new write in flight. */
  predicate StartsWrite(s: State, step: Step) {
    step.BaseDeclared? || (step.StartSave? && Divergent(s, step.outcome).None?)
  }

  ghost predicate NoneStarts(s: State, steps: seq<Step>)
    decreases |steps|
  {
    steps == [] || !Enabled(s, steps[0]) || (!StartsWrite(s, steps[0]) && NoneStarts(Next(s, steps[0]), steps[1..]))
  }

  ghost predicate NoneOvertakes(s: State, steps: seq<Step>)
    decreases |steps|
  {
    steps == [] || !Enabled(s, steps[0]) || (!Overtakes(s, steps[0]) && NoneOvertakes(Next(s, steps[0]), steps[1..]))
  }

  ghost predicate StaysInFlight(s: State, steps: seq<Step>, id: nat)
    decreases |steps|
  {
    InFlight(s, id) &&
    (steps == [] || !Enabled(s, steps[0]) || StaysInFlight(Next(s, steps[0]), steps[1..], id))
  }

  /** While an earlier write is in flight, a step that does not overtake leaves the last one last,
      unless it starts another. */
  lemma StepKeepsLast(s: State, step: Step, id: nat)
    requires Tracks(s) && Enabled(s, step) && InFlight(s, id) && InFlight(Next(s, step), id) && !Overtakes(s, step)
    ensures var s' := Next(s, step);
      s.pendingWrite.Some? && s'.pendingWrite.Some? &&
      if StartsWrite(s, step) then s.pendingWrite.value < s'.pendingWrite.value else s'.pendingWrite == s.pendingWrite
  {
    StepTracksIff(s, step);
    if step.Written? || step.WriteFailed? {
      var i := step.i;
      assert s.inFlight[i].id == s.inFlight[|s.inFlight| - 1].id <==> i == |s.inFlight| - 1;
    }
  }

  /** The last write stays the last over a run exactly if no other is started. */
  lemma {:induction false} RunKeepsLastIff(s: State, steps: seq<Step>, id: nat)
    requires Tracks(s) && Run(s, steps).Some? && StaysInFlight(s, steps, id) && NoneOvertakes(s, steps)
    ensures var end := Run(s, steps).value;
      Tracks(end) && InFlight(end, id) && s.pendingWrite.Some? && end.pendingWrite.Some? &&
      s.pendingWrite.value <= end.pendingWrite.value &&
      (end.pendingWrite == s.pendingWrite <==> NoneStarts(s, steps))
    decreases |steps|
  {
    hide Tracks, InFlight, Next, Enabled, Overtakes, StartsWrite;
    if steps == [] {
      SomethingPending(s, id);
    } else {
      StepTracksIff(s, steps[0]);
      StepKeepsLast(s, steps[0], id);
      RunKeepsLastIff(Next(s, steps[0]), steps[1..], id);
    }
  }

  lemma SomethingPending(s: State, id: nat)
    requires Tracks(s) && InFlight(s, id)
    ensures s.pendingWrite.Some?
  {
  }

  /** If the last write stays in flight and none is started, none overtakes. */
  lemma {:induction false} NoStartNoOvertaking(s: State, steps: seq<Step>, id: nat)
    requires Tracks(s) && s.pendingWrite == Some(id) && Run(s, steps).Some?
    requires StaysInFlight(s, steps, id) && NoneStarts(s, steps)
    ensures NoneOvertakes(s, steps)
    decreases |steps|
  {
    hide Tracks, InFlight, Next, Enabled, Overtakes, StartsWrite;
    if steps != [] {
      if Overtakes(s, steps[0]) {
        OvertakingEndsLast(s, steps[0], id);
      }
      StepTracksIff(s, steps[0]);
      StepKeepsLast(s, steps[0], id);
      NoStartNoOvertaking(Next(s, steps[0]), steps[1..], id);
    }
  }

  lemma OvertakingEndsLast(s: State, step: Step, id: nat)
    requires Tracks(s) && s.pendingWrite == Some(id) && Enabled(s, step) && Overtakes(s, step)
    ensures !InFlight(Next(s, step), id)
  {
    var rest := EndWrite(s, step.i).inFlight;
    assert forall k :: 0 <= k < |rest| ==> rest[k] == s.inFlight[k];
  }

  /** The step ends this write, one way or the other. */
  predicate Ends(s: State, step: Step, id: nat)
    requires Enabled(s, step)
  {
    (step.Written? || step.WriteFailed?) && s.inFlight[step.i].id == id
  }

  lemma EndsAloneIff(s: State, step: Step, id: nat)
    requires Tracks(s) && Enabled(s, step) && Ends(s, step, id)
    ensures Next(s, step).inFlight == [] <==> s.pendingWrite == Some(id) && !Overtakes(s, step)
  {
    assert s.inFlight[step.i].id == s.inFlight[|s.inFlight| - 1].id <==> step.i == |s.inFlight| - 1;
  }

  /** A reload captures the pending write `id`; some steps later that write ends, and the reload
      resumes. The exact condition under which no write is then in flight, none having overtaken
      another: no save has started a write during the wait, and the write waited for overtakes none. */
  lemma WaitEndsAloneIff(s: State, steps: seq<Step>, last: Step, id: nat)
    requires Tracks(s) && s.pendingWrite == Some(id) && Run(s, steps).Some? && StaysInFlight(s, steps, id)
    requires var mid := Run(s, steps).value; Enabled(mid, last) && Ends(mid, last, id)
    ensures var mid := Run(s, steps).value;
      Next(mid, last).inFlight == [] && NoneOvertakes(s, steps) <==> NoneStarts(s, steps) && !Overtakes(mid, last)
  {
    hide Tracks, InFlight, Next, Enabled, Overtakes, StartsWrite, Run, StaysInFlight, NoneStarts, NoneOvertakes, Ends;
    if NoneStarts(s, steps) {
      NoStartNoOvertaking(s, steps, id);
    }
    if NoneOvertakes(s, steps) {
      RunKeepsLastIff(s, steps, id);
      EndsAloneIff(Run(s, steps).value, last, id);
    }
  }

  // ----- Runs in which updates land between saves -----

  /** Nothing starts a save during a reload's wait, writes do not overtake, updates and writes bring
      timestamps, and no update lands between the two halves of a save's start. An update that need
      not wait lands when no write is pending. */
  predicate Calm(s: State, step: Step) {
    && !Overtakes(s, step)
    && (step.StartSave? || step.BaseDeclared? ==> s.waiting == map[])
    && (Lands(step) ==> step.modified.Some? && s.declaring == 0 && (step.External? ==> s.pendingWrite.None?))
    && (step.Written? ==> step.modified.Some?)
  }

  ghost predicate CalmRun(s: State, steps: seq<Step>)
    decreases |steps|
  {
    steps == [] || !Enabled(s, steps[0]) || (Calm(s, steps[0]) && CalmRun(Next(s, steps[0]), steps[1..]))
  }

  predicate Saving(s: State) {
    s.declaring > 0 || s.inFlight != []
  }

  /** Each reload waits for the last write, or for nothing any more; no update is withheld while a
      save is under way. */
  ghost predicate Between(s: State) {
    && Tracks(s)
    && (forall r :: r in s.waiting && InFlight(s, s.waiting[r]) ==> s.pendingWrite == Some(s.waiting[r]))
    && (forall r :: r in s.waiting && !InFlight(s, s.waiting[r]) ==> s.inFlight == [])
    && (s.withheld.Some? ==> !Saving(s))
  }

  lemma StepKeepsBetween(s: State, step: Step)
    requires Between(s) && Enabled(s, step) && Calm(s, step)
    ensures Between(Next(s, step))
  {
    StepTracksIff(s, step);
    if step.Written? || step.WriteFailed? {
      EndKeepsBetween(s, step.i);
    } else if step.StartSave? || step.BaseDeclared? {
      assert Next(s, step).waiting == map[];
    }
  }

  lemma EndKeepsBetween(s: State, i: nat)
    requires Between(s) && i < |s.inFlight| && !(i == |s.inFlight| - 1 && |s.inFlight| > 1)
    ensures var s' := EndWrite(s, i);
      forall r :: r in s.waiting ==>
        if InFlight(s', s.waiting[r]) then s'.pendingWrite == Some(s.waiting[r]) else s'.inFlight == []
  {
    var s' := EndWrite(s, i);
    var n := |s.inFlight| - 1;
    forall r | r in s.waiting
      ensures if InFlight(s', s.waiting[r]) then s'.pendingWrite == Some(s.waiting[r]) else s'.inFlight == []
    {
      if n > 0 {
        assert s.inFlight[i].id < s.inFlight[n].id;
        assert s'.inFlight[n - 1] == s.inFlight[n];
        assert InFlight(s, s.waiting[r]);
      }
    }
  }

  lemma CalmDoesNotDisturb(s: State, step: Step)
    requires Between(s) && Enabled(s, step) && Calm(s, step)
    ensures !Disturbs(s, step)
  {
  }

  /** So in these runs base and withheld update stay in order throughout. */
  lemma {:induction false} CalmRunsStayOrdered(s: State, steps: seq<Step>)
    requires Between(s) && Ordered(s) && CalmRun(s, steps)
    ensures Undisturbed(s, steps) && AlwaysOrdered(s, steps)
    decreases |steps|
  {
    hide Next, Enabled, Between, Calm, Disturbs, Ordered;
    if steps != [] && Enabled(s, steps[0]) {
      CalmDoesNotDisturb(s, steps[0]);
      StepKeepsBetween(s, steps[0]);
      StepKeepsOrderIff(s, steps[0]);
      CalmRunsStayOrdered(Next(s, steps[0]), steps[1..]);
    }
  }

  // ----- Runs that go back -----

  /** Waiting is not enough: a reload waits for write 0, a save starts write 1, write 0 returns, and
      the update is withheld during write 1. No write overtakes. Write 1 moves the base past the
      withheld update, and a later update that is newer only than that one moves the base back. */
  lemma SaveDuringWait(text: string)
    ensures var s := State(text, text, Some(10), None, 0, 1, [Write(0, text)], Some(0), map[]);
      var steps := [Wait(0), StartSave(Deferred), Written(0, Some(11)), Resume(0, text, Some(12), Deferred)];
      Ordered(s) && Tracks(s) && NoneOvertakes(s, steps) && Run(s, steps).Some? &&
      var mid := Run(Run(s, steps).value, [Written(0, Some(15))]);
      mid.Some? && mid.value.baseModified == Some(15) &&
      var end := Run(mid.value, [External(text, Some(13), Merged(text, true))]);
      end.Some? && end.value.baseModified == Some(13)
  {
    WithheldAfterWait(text);
    var s4 := State(text, text, Some(11), Some(Withheld(text, Some(12))), 0, 2, [Write(1, text)], Some(1), map[]);
    OneStep(s4, Written(0, Some(15)));
    OneStep(Next(s4, Written(0, Some(15))), External(text, Some(13), Merged(text, true)));
  }

  lemma WithheldAfterWait(text: string)
    ensures var s := State(text, text, Some(10), None, 0, 1, [Write(0, text)], Some(0), map[]);
      var steps := [Wait(0), StartSave(Deferred), Written(0, Some(11)), Resume(0, text, Some(12), Deferred)];
      Tracks(s) && NoneOvertakes(s, steps) && Run(s, steps) ==
        Some(State(text, text, Some(11), Some(Withheld(text, Some(12))), 0, 2, [Write(1, text)], Some(1), map[]))
  {
    var s := State(text, text, Some(10), None, 0, 1, [Write(0, text)], Some(0), map[]);
    var a, b := Wait(0), StartSave(Deferred);
    var c, d := Written(0, Some(11)), Resume(0, text, Some(12), Deferred);
    var s2 := Next(Next(s, a), b);
    assert s2 == State(text, text, Some(10), None, 0, 2, [Write(0, text), Write(1, text)], Some(1), map[0 := 0]);
    var s3 := Next(s2, c);
    assert s3 == State(text, text, Some(11), None, 0, 2, [Write(1, text)], Some(1), map[0 := 0]);
    FourSteps(s, a, b, c, d);
  }

  lemma OneStep(s: State, step: Step)
    requires Enabled(s, step)
    ensures Run(s, [step]) == Some(Next(s, step))
  {
    hide Next, Enabled;
    assert [step][1..] == [];
  }

  lemma FourSteps(s: State, a: Step, b: Step, c: Step, d: Step)
    requires Enabled(s, a) && Enabled(Next(s, a), b)
    requires var s2 := Next(Next(s, a), b); Enabled(s2, c) && Enabled(Next(s2, c), d)
    ensures var s1 := Next(s, a); var s2 := Next(s1, b); var s3 := Next(s2, c);
      Run(s, [a, b, c, d]) == Some(Next(s3, d)) &&
      (NoneOvertakes(s, [a, b, c, d]) <==>
       !Overtakes(s, a) && !Overtakes(s1, b) && !Overtakes(s2, c) && !Overtakes(s3, d))
  {
    hide Next, Enabled, Overtakes;
    var s1 := Next(s, a);
    var s2 := Next(s1, b);
    var s3 := Next(s2, c);
    assert [a, b, c, d][1..] == [b, c, d] && [b, c, d][1..] == [c, d] && [c, d][1..] == [d] && [d][1..] == [];
    assert Run(s3, [d]) == Run(Next(s3, d), []);
    assert Run(s2, [c, d]) == Run(s3, [d]);
    assert Run(s1, [b, c, d]) == Run(s2, [c, d]);
    assert NoneOvertakes(s3, [d]) <==> !Overtakes(s3, d) && NoneOvertakes(Next(s3, d), []);
    assert NoneOvertakes(s2, [c, d]) <==> !Overtakes(s2, c) && NoneOvertakes(s3, [d]);
    assert NoneOvertakes(s1, [b, c, d]) <==> !Overtakes(s1, b) && NoneOvertakes(s2, [c, d]);
  }

  /** Without a timestamp the base forgets how new it was. */
  lemma UnknownTimestampForgets(text: string)
    ensures var s := State(text, text, Some(10), None, 0, 0, [], None, map[]);
      var mid := Run(s, [External(text, None, Merged(text, true))]);
      Ordered(s) && mid.Some? &&
      var end := Run(mid.value, [External(text, Some(5), Merged(text, true))]);
      end.Some? && end.value.baseModified == Some(5)
  {
    var s := State(text, text, Some(10), None, 0, 0, [], None, map[]);
    OneStep(s, External(text, None, Merged(text, true)));
    OneStep(Next(s, External(text, None, Merged(text, true))), External(text, Some(5), Merged(text, true)));
  }

  // ----- The class -----

  class ContentManager {
    var lastKnownDiskText: string
    var lastKnownDiskModified: Option<int>
    var pendingExternal: Option<Withheld>
    var pendingWrite: Option<nat>
    var buffer: string
    ghost var declaring: nat
    var started: nat
    ghost var inFlight: seq<Write>
    ghost var waiting: map<nat, nat>

    ghost function Now(): State
      reads this
    {
      State(buffer, lastKnownDiskText, lastKnownDiskModified, pendingExternal, declaring, started, inFlight,
        pendingWrite, waiting)
    }

    method AdoptOwnWriteAsBase(text: string, modified: Option<int>)
      modifies this`lastKnownDiskText, this`lastKnownDiskModified
      ensures Now() == Adopt(old(Now()), text, modified)
    {
      if modified.Some? && lastKnownDiskModified.Some? && modified.value < lastKnownDiskModified.value {
        return;
      }
      lastKnownDiskText, lastKnownDiskModified := text, modified;
    }

    method ApplyExternalPatches(text: string, modified: Option<int>, outcome: Outcome) returns (applied: bool)
      modifies this
      ensures Now() == ApplyExternal(old(Now()), text, modified, outcome)
      ensures applied <==> !Older(modified, old(Seen(Now()))) && outcome.Merged? && !outcome.empty
    {
      var seen := lastKnownDiskModified;
      if pendingExternal.Some? && pendingExternal.value.modified.Some? {
        seen := pendingExternal.value.modified;
      }
      if modified.Some? && seen.Some? && modified.value < seen.value {
        return false;
      }
      if outcome.Deferred? {
        pendingExternal := Some(Withheld(text, modified));
        return false;
      }
      pendingExternal, lastKnownDiskText, lastKnownDiskModified := None, text, modified;
      buffer := outcome.buffer;
      return !outcome.empty;
    }

    /** `reloadPageContent` after its fetch: the write it waits for, if any. */
    method BeginWait(ghost r: nat) returns (write: Option<nat>)
      requires r !in waiting
      modifies this`waiting
      ensures write == old(pendingWrite)
      ensures Now() == if write.Some? then Next(old(Now()), Wait(r)) else old(Now())
    {
      write := pendingWrite;
      if write.Some? {
        waiting := waiting[r := write.value];
      }
    }

    /** `reloadPageContent` once the write it has captured has ended. */
    method ResumeReload(ghost r: nat, text: string, modified: Option<int>, outcome: Outcome) returns (applied: bool)
      requires Enabled(Now(), Resume(r, text, modified, outcome))
      modifies this
      ensures Now() == Next(old(Now()), Resume(r, text, modified, outcome))
      ensures applied <==> !Older(modified, old(Seen(Now()))) && outcome.Merged? && !outcome.empty
    {
      waiting := waiting - {r};
      applied := ApplyExternalPatches(text, modified, outcome);
    }

    method SettlePendingExternal(outcome: Outcome) returns (divergent: Option<string>)
      modifies this
      ensures Now() == Settle(old(Now()), outcome) && divergent == Divergent(old(Now()), outcome)
    {
      if pendingExternal.None? {
        return None;
      }
      var pending := pendingExternal.value;
      pendingExternal := None;
      if outcome.Deferred? {
        return Some(lastKnownDiskText);
      }
      lastKnownDiskText, lastKnownDiskModified := pending.text, pending.modified;
      buffer := outcome.buffer;
      return None;
    }

    /** A save up to the write, or up to declaring the divergent base. */
    method BeginSave(outcome: Outcome) returns (divergent: Option<string>)
      modifies this
      ensures Now() == Next(old(Now()), StartSave(outcome)) && divergent == Divergent(old(Now()), outcome)
    {
      divergent := SettlePendingExternal(outcome);
      if divergent.Some? {
        declaring := declaring + 1;
      } else {
        BeginWrite();
      }
    }

    /** A save after declaring the divergent base. */
    method ContinueSave()
      requires Enabled(Now(), BaseDeclared)
      modifies this
      ensures Now() == Next(old(Now()), BaseDeclared)
    {
      declaring := declaring - 1;
      BeginWrite();
    }

    method BeginWrite()
      modifies this
      ensures Now() == StartWrite(old(Now()))
    {
      inFlight, pendingWrite, started := inFlight + [Write(started, buffer)], Some(started), started + 1;
    }

    method FinishWrite(i: nat, id: nat, text: string, modified: Option<int>)
      requires Enabled(Now(), Written(i, modified)) && inFlight[i] == Write(id, text)
      modifies this
      ensures Now() == Next(old(Now()), Written(i, modified))
    {
      AdoptOwnWriteAsBase(text, modified);
      ClearWrite(i, id);
    }

    method FailWrite(i: nat, id: nat)
      requires Enabled(Now(), WriteFailed(i)) && inFlight[i].id == id
      modifies this
      ensures Now() == Next(old(Now()), WriteFailed(i))
    {
      ClearWrite(i, id);
    }

    method ClearWrite(i: nat, id: nat)
      requires i < |inFlight| && inFlight[i].id == id
      modifies this`inFlight, this`pendingWrite
      ensures Now() == EndWrite(old(Now()), i)
    {
      if pendingWrite == Some(id) {
        pendingWrite := None;
      }
      inFlight := inFlight[..i] + inFlight[i + 1..];
    }
  }
}
