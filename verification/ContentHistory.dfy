/** Where the texts of `client/content_manager.ts` come from, over whole runs: what the base is, what
    a write in flight carries, and what the buffer shows. */
module ContentHistory {
  import opened ContentManager
  import opened Options

  // ----- Which updates count -----

  /** The newest timestamp that has arrived and has not been given up. */
  function HighWater(s: State): int
    requires Ordered(s)
  {
    if s.withheld.Some? then s.withheld.value.modified.value else s.baseModified.value
  }

  /** It falls in one case only: a save gives up an update that is newer than the base. */
  lemma HighWaterFallsIff(s: State, step: Step)
    requires Ordered(s) && Enabled(s, step) && !Disturbs(s, step)
    ensures Ordered(Next(s, step))
    ensures HighWater(Next(s, step)) < HighWater(s) <==>
            step == StartSave(Deferred) && s.withheld.Some? && s.baseModified != s.withheld.value.modified
  {
  }

  /** An update below the high-water mark changes nothing; any other is withheld, with base and
      buffer as they were, or becomes the base, with the merge in the buffer. */
  lemma UpdateCountsIff(s: State, text: string, modified: int, outcome: Outcome)
    requires Ordered(s)
    ensures var s' := Next(s, External(text, Some(modified), outcome));
      if modified < HighWater(s) then s' == s
      else
        && s' == s.(withheld := s'.withheld, baseText := s'.baseText, baseModified := s'.baseModified,
                   buffer := s'.buffer)
        && match outcome
           case Deferred =>
             s'.withheld == Some(Withheld(text, Some(modified))) &&
             s'.baseText == s.baseText && s'.baseModified == s.baseModified && s'.buffer == s.buffer
           case Merged(buffer, _) =>
             s'.withheld == None && s'.baseText == text && s'.baseModified == Some(modified) && s'.buffer == buffer
  {
  }

  // ----- The buffer descends from the base -----

  /** The text from disk that a step merges into the buffer. */
  function MergedIn(s: State, step: Step): Option<Withheld> {
    match step
    case External(text, modified, Merged(_, _)) =>
      if Older(modified, Seen(s)) then None else Some(Withheld(text, modified))
    case Resume(_, text, modified, Merged(_, _)) =>
      if Older(modified, Seen(s)) then None else Some(Withheld(text, modified))
    case StartSave(Merged(_, _)) => s.withheld
    case _ => None
  }

  /** All texts that the buffer contains the changes of, and the buffer at the start of each write. */
  datatype Past = Past(taken: set<string>, saved: seq<string>)

  function Remember(past: Past, s: State, step: Step): Past
    requires Enabled(s, step)
  {
    var merged := if MergedIn(s, step).Some? then {MergedIn(s, step).value.text} else {};
    var buffer := Next(s, step).buffer;
    if StartsWrite(s, step) then Past(past.taken + merged + {buffer}, past.saved + [buffer])
    else Past(past.taken + merged, past.saved)
  }

  ghost predicate Descends(s: State, past: Past) {
    && s.baseText in past.taken
    && s.started == |past.saved|
    && (forall text :: text in past.saved ==> text in past.taken)
    && (forall i :: 0 <= i < |s.inFlight| ==>
          s.inFlight[i].id < |past.saved| && s.inFlight[i].text == past.saved[s.inFlight[i].id])
  }

  lemma StepDescends(s: State, past: Past, step: Step)
    requires Descends(s, past) && Enabled(s, step)
    ensures Descends(Next(s, step), Remember(past, s, step))
  {
  }

  function Memory(past: Past, s: State, steps: seq<Step>): Past
    requires Run(s, steps).Some?
    decreases |steps|
  {
    if steps == [] then past else Memory(Remember(past, s, steps[0]), Next(s, steps[0]), steps[1..])
  }

  /** Over every run: the base of the next merge is a text whose changes the buffer contains, also
      when a save declares it as divergent, and each write in flight carries the buffer as it was
      when that write began. */
  lemma {:induction false} RunDescends(s: State, past: Past, steps: seq<Step>, outcome: Outcome)
    requires Descends(s, past) && Run(s, steps).Some?
    ensures var end, all := Run(s, steps).value, Memory(past, s, steps);
      Descends(end, all) && (Divergent(end, outcome).Some? ==> Divergent(end, outcome).value in all.taken)
    decreases |steps|
  {
    hide Next, Enabled, Descends, Remember;
    if steps == [] {
      DivergentDescends(s, past, outcome);
    } else {
      StepDescends(s, past, steps[0]);
      RunDescends(Next(s, steps[0]), Remember(past, s, steps[0]), steps[1..], outcome);
    }
  }

  lemma DivergentDescends(s: State, past: Past, outcome: Outcome)
    requires Descends(s, past)
    ensures Divergent(s, outcome).Some? ==> Divergent(s, outcome).value in past.taken
  {
  }

  // ----- The base is the newest text -----

  /** What a step merges in or brings back as written. */
  function Arrival(s: State, step: Step): Option<Withheld>
    requires Enabled(s, step)
  {
    match step
    case Written(i, modified) => Some(Withheld(s.inFlight[i].text, modified))
    case _ => MergedIn(s, step)
  }

  function Arrivals(s: State, steps: seq<Step>): seq<Withheld>
    requires Run(s, steps).Some?
    decreases |steps|
  {
    if steps == [] then []
    else
      var rest := Arrivals(Next(s, steps[0]), steps[1..]);
      match Arrival(s, steps[0])
      case Some(text) => [text] + rest
      case None => rest
  }

  /** `newest` is the last of the newest among `texts`. */
  ghost predicate LastNewest(newest: Withheld, texts: seq<Withheld>) {
    && newest.modified.Some?
    && (forall i :: 0 <= i < |texts| ==> texts[i].modified.Some?)
    && exists k :: 0 <= k < |texts| && texts[k] == newest && NewestAt(texts, k)
  }

  ghost predicate NewestAt(texts: seq<Withheld>, k: nat)
    requires k < |texts| && forall i :: 0 <= i < |texts| ==> texts[i].modified.Some?
  {
    && (forall i :: 0 <= i < k ==> texts[i].modified.value <= texts[k].modified.value)
    && (forall i :: k < i < |texts| ==> texts[i].modified.value < texts[k].modified.value)
  }

  function Base(s: State): Withheld {
    Withheld(s.baseText, s.baseModified)
  }

  lemma StepTakesNewer(s: State, step: Step)
    requires Ordered(s) && Enabled(s, step) && !Disturbs(s, step)
    ensures var came, s' := Arrival(s, step), Next(s, step);
      match came
      case None => Base(s') == Base(s)
      case Some(text) =>
        text.modified.Some? &&
        Base(s') == if text.modified.value < s.baseModified.value then Base(s) else text
  {
  }

  /** A text in front of one that is not older may be left out. */
  lemma SkipOlder(older: Withheld, text: Withheld, texts: seq<Withheld>, newest: Withheld)
    requires older.modified.Some? && text.modified.Some? && older.modified.value <= text.modified.value
    requires LastNewest(newest, [text] + texts)
    ensures LastNewest(newest, [older] + ([text] + texts))
  {
    var few := [text] + texts;
    var all := [older] + few;
    var k :| 0 <= k < |few| && few[k] == newest && NewestAt(few, k);
    assert forall i :: 1 <= i < |all| ==> all[i] == few[i - 1];
    assert all[0] == older && few[0] == text && text.modified.value <= few[k].modified.value;
    assert NewestAt(all, k + 1);
  }

  /** A text behind a newer one may be left out. */
  lemma SkipNext(text: Withheld, older: Withheld, texts: seq<Withheld>, newest: Withheld)
    requires older.modified.Some? && text.modified.Some? && older.modified.value < text.modified.value
    requires LastNewest(newest, [text] + texts)
    ensures LastNewest(newest, [text] + ([older] + texts))
  {
    var few := [text] + texts;
    var all := [text] + ([older] + texts);
    var k :| 0 <= k < |few| && few[k] == newest && NewestAt(few, k);
    assert forall i :: 2 <= i < |all| ==> all[i] == few[i - 1];
    assert all[0] == few[0] == text && all[1] == older;
    assert NewestAt(all, if k == 0 then 0 else k + 1);
  }

  /** In a run that nothing disturbs, the base is the newest of all texts that were merged in or came
      back from a write, and among equally new ones the last. */
  lemma {:induction false} BaseIsNewest(s: State, steps: seq<Step>)
    requires Ordered(s) && Undisturbed(s, steps) && Run(s, steps).Some?
    ensures LastNewest(Base(Run(s, steps).value), [Base(s)] + Arrivals(s, steps))
    decreases |steps|
  {
    hide Next, Enabled, Disturbs, LastNewest, Arrival;
    if steps == [] {
      Alone(s);
    } else {
      StepKeepsOrderIff(s, steps[0]);
      StepTakesNewer(s, steps[0]);
      var s' := Next(s, steps[0]);
      BaseIsNewest(s', steps[1..]);
      var rest := Arrivals(s', steps[1..]);
      var newest := Base(Run(s, steps).value);
      match Arrival(s, steps[0])
      case None =>
      case Some(text) =>
        if text.modified.value < s.baseModified.value {
          SkipNext(Base(s), text, rest, newest);
        } else {
          SkipOlder(Base(s), text, rest, newest);
        }
    }
  }

  lemma Alone(s: State)
    requires Ordered(s)
    ensures LastNewest(Base(s), [Base(s)] + [])
  {
    assert [Base(s)] + [] == [Base(s)];
    assert NewestAt([Base(s)], 0);
  }

  // ----- What the buffer shows -----

  /** The step gives the buffer a new text. */
  predicate TouchesBuffer(s: State, step: Step) {
    step.Edit? || MergedIn(s, step).Some?
  }

  /** Only typing, and merges of updates that count, change the buffer. */
  lemma BufferStays(s: State, step: Step)
    requires Enabled(s, step) && !TouchesBuffer(s, step)
    ensures Next(s, step).buffer == s.buffer
  {
  }

  ghost predicate LeftAlone(s: State, steps: seq<Step>)
    decreases |steps|
  {
    steps == [] || !Enabled(s, steps[0]) || (!TouchesBuffer(s, steps[0]) && LeftAlone(Next(s, steps[0]), steps[1..]))
  }

  /** The write `id` is in flight and carries the buffer. */
  ghost predicate Carries(s: State, id: nat) {
    id < s.started && forall i :: 0 <= i < |s.inFlight| && s.inFlight[i].id == id ==> s.inFlight[i].text == s.buffer
  }

  lemma StepCarries(s: State, step: Step, id: nat)
    requires Carries(s, id) && Enabled(s, step) && !TouchesBuffer(s, step)
    ensures Carries(Next(s, step), id)
  {
  }

  lemma {:induction false} RunCarries(s: State, steps: seq<Step>, id: nat)
    requires Carries(s, id) && LeftAlone(s, steps) && Run(s, steps).Some?
    ensures Carries(Run(s, steps).value, id)
    decreases |steps|
  {
    hide Next, Enabled, Carries, TouchesBuffer;
    if steps != [] {
      StepCarries(s, steps[0], id);
      RunCarries(Next(s, steps[0]), steps[1..], id);
    }
  }

  /** A save whose write comes back while the buffer is left alone makes the base the buffer's text,
      unless the base is newer by then. */
  lemma SavedIsBase(s: State, save: Step, steps: seq<Step>, i: nat, modified: Option<int>)
    requires Enabled(s, save) && StartsWrite(s, save)
    requires forall k :: 0 <= k < |s.inFlight| ==> s.inFlight[k].id < s.started
    requires LeftAlone(Next(s, save), steps) && Run(Next(s, save), steps).Some?
    requires var mid := Run(Next(s, save), steps).value;
      Enabled(mid, Written(i, modified)) && mid.inFlight[i].id == s.started && !Older(modified, mid.baseModified)
    ensures var end := Next(Run(Next(s, save), steps).value, Written(i, modified));
      end.baseText == end.buffer == Next(s, save).buffer && end.baseModified == modified
  {
    hide LeftAlone, Run, TouchesBuffer;
    var s1 := Next(s, save);
    assert Carries(s1, s.started);
    RunCarries(s1, steps, s.started);
    BufferKept(s1, steps);
  }

  lemma {:induction false} BufferKept(s: State, steps: seq<Step>)
    requires LeftAlone(s, steps) && Run(s, steps).Some?
    ensures Run(s, steps).value.buffer == s.buffer
    decreases |steps|
  {
    hide Next, Enabled, TouchesBuffer;
    if steps != [] {
      BufferStays(s, steps[0]);
      BufferKept(Next(s, steps[0]), steps[1..]);
    }
  }

  /** What a step that touches the buffer makes it: what was typed, or the merge. */
  predicate Gives(step: Step, buffer: string) {
    match step
    case Edit(text) => buffer == text
    case External(_, _, outcome) => outcome.Merged? && buffer == outcome.buffer
    case Resume(_, _, _, outcome) => outcome.Merged? && buffer == outcome.buffer
    case StartSave(outcome) => outcome.Merged? && buffer == outcome.buffer
    case _ => false
  }

  lemma TouchGives(s: State, step: Step)
    requires Enabled(s, step) && TouchesBuffer(s, step)
    ensures Gives(step, Next(s, step).buffer)
  {
  }

  /** The buffer shows what it was given last, by typing or by a merge. */
  lemma BufferIsLastGiven(s: State, step: Step, rest: seq<Step>)
    requires Enabled(s, step) && TouchesBuffer(s, step)
    requires LeftAlone(Next(s, step), rest) && Run(s, [step] + rest).Some?
    ensures Gives(step, Run(s, [step] + rest).value.buffer)
  {
    hide Next, Enabled, TouchesBuffer, Gives, LeftAlone;
    var steps := [step] + rest;
    assert steps[0] == step && steps[1..] == rest;
    TouchGives(s, step);
    BufferKept(Next(s, step), rest);
  }

  // ----- A buffer without local edits -----

  predicate Clean(s: State) {
    s.buffer == s.baseText
  }

  /** No typing and no saving; and where the buffer is the base, nothing can collide and the merge is
      the new text itself. */
  predicate Follows(s: State, step: Step) {
    && !step.Edit? && !step.StartSave?
    && (Lands(step) && Clean(s) ==> step.outcome.Merged? && step.outcome.buffer == step.text)
  }

  ghost predicate FollowsThroughout(s: State, steps: seq<Step>)
    decreases |steps|
  {
    steps == [] || !Enabled(s, steps[0]) || (Follows(s, steps[0]) && FollowsThroughout(Next(s, steps[0]), steps[1..]))
  }

  /** Without local edits and saves, the buffer shows the newest text from disk throughout. */
  lemma CleanShowsNewest(s: State, steps: seq<Step>)
    requires Ordered(s) && Undisturbed(s, steps) && Run(s, steps).Some?
    requires Clean(s) && s.inFlight == [] && s.declaring == 0 && FollowsThroughout(s, steps)
    ensures var end := Run(s, steps).value;
      Clean(end) && LastNewest(Withheld(end.buffer, end.baseModified), [Base(s)] + Arrivals(s, steps))
  {
    hide LastNewest, Arrival;
    StaysClean(s, steps);
    BaseIsNewest(s, steps);
  }

  lemma {:induction false} StaysClean(s: State, steps: seq<Step>)
    requires Run(s, steps).Some? && Clean(s) && s.inFlight == [] && s.declaring == 0 && FollowsThroughout(s, steps)
    ensures Clean(Run(s, steps).value)
    decreases |steps|
  {
    if steps != [] {
      StaysClean(Next(s, steps[0]), steps[1..]);
    }
  }
}
