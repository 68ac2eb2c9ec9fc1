/** Conflict-marker hunks: `client/codemirror/conflict_markers.ts`.

    Lines and line numbers are counted from 0 here. */
module ConflictMarkers {
  import opened TextLines
  import opened Options

  const SB_START := "<<<<<<< SB sha256:"
  const SB_BASE := "||||||| SB BASE sha256:"
  const SEPARATOR := "======="
  const SB_END := ">>>>>>> SB sha256:"
  const GIT_START := "<<<<<<<"
  const GIT_BASE := "|||||||"
  const GIT_END := ">>>>>>>"

  datatype Kind = Sb | Git
  datatype Marker = Marker(kind: Kind, hash: string, title: Option<string>)

  // ----- Single lines -----

  function StripTrailingCR(line: string): string {
    if line != "" && line[|line| - 1] == '\r' then line[..|line| - 1] else line
  }

  predicate StartsWith(s: string, prefix: string) {
    |prefix| <= |s| && s[..|prefix|] == prefix
  }

  function SplitLabel(rest: string): string {
    if StartsWith(rest, " ") then rest[1..] else rest
  }

  /** SB's own form is tried first, so it is never taken for git's. */
  function MatchMarker(line: string, sb: string, git: string): Option<Marker> {
    var stripped := StripTrailingCR(line);
    if StartsWith(stripped, sb) then Some(Marker(Sb, stripped[|sb|..], None))
    else if StartsWith(stripped, git) then Some(Marker(Git, "", Some(SplitLabel(stripped[|git|..]))))
    else None
  }

  function MatchStart(line: string): Option<Marker> { MatchMarker(line, SB_START, GIT_START) }

  function MatchBase(line: string): Option<Marker> { MatchMarker(line, SB_BASE, GIT_BASE) }

  function MatchEnd(line: string): Option<Marker> { MatchMarker(line, SB_END, GIT_END) }

  predicate IsSeparator(line: string) { StripTrailingCR(line) == SEPARATOR }

  // ----- computeFenceMask -----

  /** The open fence, if any: its character and its length. */
  datatype Fence = NoFence | In(ch: char, len: nat)

  /** Drops up to three leading spaces. */
  function Unindent(line: string, max: nat): string
    decreases max
  {
    if max > 0 && line != "" && line[0] == ' ' then Unindent(line[1..], max - 1) else line
  }

  function RunOf(s: string, ch: char): nat {
    if s != "" && s[0] == ch then 1 + RunOf(s[1..], ch) else 0
  }

  function OpenFence(trimmed: string): Fence {
    if RunOf(trimmed, '`') >= 3 then In('`', RunOf(trimmed, '`'))
    else if RunOf(trimmed, '~') >= 3 then In('~', RunOf(trimmed, '~'))
    else NoFence
  }

  predicate ClosesFence(trimmed: string, fence: Fence)
    requires fence.In?
  {
    var run := RunOf(trimmed, fence.ch);
    RunWithin(trimmed, fence.ch);
    run >= 3 && TrimStart(trimmed[run..]) == "" && |TrimEnd(trimmed)| >= fence.len
  }

  lemma RunWithin(s: string, ch: char)
    ensures RunOf(s, ch) <= |s|
  {
  }

  function TrimmedLine(line: string): string {
    Unindent(StripTrailingCR(line), 3)
  }

  function FenceStep(fence: Fence, line: string): Fence {
    if fence.NoFence? then OpenFence(TrimmedLine(line))
    else if ClosesFence(TrimmedLine(line), fence) then NoFence
    else fence
  }

  /** The fence that is open in front of line `i`. */
  function FenceBefore(lines: seq<string>, i: nat): Fence
    requires i <= |lines|
  {
    if i == 0 then NoFence else FenceStep(FenceBefore(lines, i - 1), lines[i - 1])
  }

  predicate Fenced(lines: seq<string>, i: nat)
    requires i < |lines|
  {
    FenceBefore(lines, i).In? && !ClosesFence(TrimmedLine(lines[i]), FenceBefore(lines, i))
  }

  function FenceMask(lines: seq<string>): (mask: seq<bool>)
    ensures |mask| == |lines|
  {
    seq(|lines|, i requires 0 <= i < |lines| => Fenced(lines, i))
  }

  /** A line is masked when it lies strictly between an opening fence and the first line that
      closes it, or after an opening fence that nothing closes. */
  lemma {:induction false} FencedIff(lines: seq<string>, i: nat)
    requires i < |lines|
    ensures Fenced(lines, i) <==> exists o :: 0 <= o < i && OpensAndStays(lines, o, i)
  {
    hide OpenFence, ClosesFence, TrimmedLine;
    if Fenced(lines, i) {
      var o := FenceOpenedBy(lines, i);
      assert OpensAndStays(lines, o, i);
    }
    if o :| 0 <= o < i && OpensAndStays(lines, o, i) {
      StaysOpen(lines, o, i);
    }
  }

  ghost predicate OpensAndStays(lines: seq<string>, o: nat, i: nat)
    requires o < i < |lines|
  {
    var fence := OpenFence(TrimmedLine(lines[o]));
    FenceBefore(lines, o).NoFence? && fence.In? &&
    forall k :: o < k <= i ==> !ClosesFence(TrimmedLine(lines[k]), fence)
  }

  lemma {:induction false} FenceOpenedBy(lines: seq<string>, i: nat) returns (o: nat)
    requires i <= |lines| && FenceBefore(lines, i).In?
    ensures o < i && FenceBefore(lines, o).NoFence?
    ensures FenceBefore(lines, i) == OpenFence(TrimmedLine(lines[o]))
    ensures forall k :: o < k < i ==> !ClosesFence(TrimmedLine(lines[k]), FenceBefore(lines, i))
  {
    hide OpenFence, ClosesFence, TrimmedLine;
    if FenceBefore(lines, i - 1).In? {
      o := FenceOpenedBy(lines, i - 1);
    } else {
      o := i - 1;
    }
  }

  lemma {:induction false} StaysOpen(lines: seq<string>, o: nat, i: nat)
    requires o < i < |lines| && OpensAndStays(lines, o, i)
    ensures FenceBefore(lines, i) == OpenFence(TrimmedLine(lines[o]))
    decreases i
  {
    hide OpenFence, ClosesFence, TrimmedLine;
    if o < i - 1 {
      StaysOpen(lines, o, i - 1);
    }
  }

  method ComputeFenceMask(lines: seq<string>) returns (mask: seq<bool>)
    ensures mask == FenceMask(lines)
  {
    hide OpenFence, ClosesFence, TrimmedLine;
    mask := [];
    var fence := NoFence;
    for i := 0 to |lines|
      invariant fence == FenceBefore(lines, i)
      invariant |mask| == i && forall k :: 0 <= k < i ==> mask[k] == Fenced(lines, k)
    {
      var trimmed := TrimmedLine(lines[i]);
      if fence.NoFence? {
        fence := OpenFence(trimmed);
        mask := mask + [false];
      } else if ClosesFence(trimmed, fence) {
        fence := NoFence;
        mask := mask + [false];
      } else {
        mask := mask + [true];
      }
    }
  }

  // ----- scanForLine and scanForEnd -----

  /** All that the scans ask about a line. */
  datatype LineKind = LineKind(start: Option<Kind>, base: Option<Kind>, separator: bool, end: Option<Kind>,
                               fenced: bool)

  function KindOf(m: Option<Marker>): Option<Kind> {
    if m.Some? then Some(m.value.kind) else None
  }

  function Classify(line: string, fenced: bool): LineKind {
    LineKind(KindOf(MatchStart(line)), KindOf(MatchBase(line)), IsSeparator(line), KindOf(MatchEnd(line)), fenced)
  }

  function Kinds(lines: seq<string>, mask: seq<bool>): (kinds: seq<LineKind>)
    requires |mask| == |lines|
    ensures |kinds| == |lines|
  {
    seq(|lines|, i requires 0 <= i < |lines| => Classify(lines[i], mask[i]))
  }

  datatype ScanResult = Found(line: nat) | Sep(line: nat) | Nested(line: nat) | Missing

  predicate NestedKind(k: LineKind, respect: bool) {
    k.start.Some? && !(k.start.value == Git && respect && k.fenced)
  }

  /** A start marker for the main loop: git's own does not count inside a fence. */
  predicate Counts(k: LineKind) {
    NestedKind(k, true)
  }

  predicate IsNestedStart(line: string, fenced: bool, respect: bool) {
    match MatchStart(line)
    case None => false
    case Some(m) => !(m.kind == Git && respect && fenced)
  }

  /** What a scan looks for: base markers of a kind, separators, or end markers of a kind. */
  datatype Want = Want(base: Option<Kind>, separator: bool) | WantEnd(kind: Kind)

  /** What the scan makes of line `i`; `Missing` means that it goes on. */
  function Look(k: LineKind, i: nat, respect: bool, want: Want): ScanResult {
    if NestedKind(k, respect) then Nested(i)
    else if respect && k.fenced then Missing
    else if want.WantEnd? then if k.end == Some(want.kind) then Found(i) else Missing
    else if want.separator && k.separator then Sep(i)
    else if want.base.Some? && k.base == want.base then Found(i)
    else Missing
  }

  /** The first line from `i` on that stops the scan. */
  function Scan(kinds: seq<LineKind>, i: nat, respect: bool, want: Want): (r: ScanResult)
    ensures !r.Missing? ==> i <= r.line < |kinds|
    decreases |kinds| - i
  {
    if i >= |kinds| then Missing
    else
      var here := Look(kinds[i], i, respect, want);
      if here.Missing? then Scan(kinds, i + 1, respect, want) else here
  }

  method ScanForLine(lines: seq<string>, from: nat, mask: seq<bool>, respect: bool,
                     wantBase: Option<Kind>, wantSeparator: bool) returns (r: ScanResult)
    requires |mask| == |lines|
    ensures r == Scan(Kinds(lines, mask), from, respect, Want(wantBase, wantSeparator))
  {
    hide MatchMarker;
    var i := from;
    ghost var kinds, want := Kinds(lines, mask), Want(wantBase, wantSeparator);
    while i < |lines|
      invariant Scan(kinds, from, respect, want) == Scan(kinds, i, respect, want)
    {
      var line := lines[i];
      if IsNestedStart(line, mask[i], respect) {
        return Nested(i);
      }
      if !(respect && mask[i]) {
        if wantSeparator && IsSeparator(line) {
          return Sep(i);
        }
        if wantBase.Some? {
          var base := MatchBase(line);
          if base.Some? && base.value.kind == wantBase.value {
            return Found(i);
          }
        }
      }
      i := i + 1;
    }
    return Missing;
  }

  method ScanForEnd(lines: seq<string>, from: nat, mask: seq<bool>, respect: bool, wantKind: Kind)
    returns (r: ScanResult)
    requires |mask| == |lines|
    ensures r == Scan(Kinds(lines, mask), from, respect, WantEnd(wantKind))
  {
    hide MatchMarker;
    var i := from;
    ghost var kinds := Kinds(lines, mask);
    while i < |lines|
      invariant Scan(kinds, from, respect, WantEnd(wantKind)) == Scan(kinds, i, respect, WantEnd(wantKind))
    {
      var line := lines[i];
      if IsNestedStart(line, mask[i], respect) {
        return Nested(i);
      }
      if !(respect && mask[i]) {
        var end := MatchEnd(line);
        if end.Some? && end.value.kind == wantKind {
          return Found(i);
        }
      }
      i := i + 1;
    }
    return Missing;
  }

  // ----- findConflictHunks -----

  datatype Section = Section(from: nat, to: nat, hash: string, title: Option<string>, text: string)
  datatype Hunk = Hunk(from: nat, to: nat, kind: Kind, first: Section, base: Option<Section>, second: Section)

  /** The marker lines of an accepted hunk. */
  datatype Frame = Frame(kind: Kind, start: nat, base: Option<nat>, sep: nat, end: nat)

  ghost predicate FrameIn(f: Frame, kinds: seq<LineKind>) {
    && f.start < f.sep < f.end < |kinds|
    && kinds[f.start].start == Some(f.kind) && kinds[f.sep].separator && kinds[f.end].end == Some(f.kind)
    && (f.kind.Sb? ==> f.base.Some?)
    && (f.base.Some? ==> f.start < f.base.value < f.sep && kinds[f.base.value].base == Some(f.kind))
    && Counts(kinds[f.start]) && forall i :: f.start < i <= f.end ==> !NestedKind(kinds[i], f.kind.Git?)
  }

  /** What the main loop does at line `n`: move on to a later line, or accept a hunk. */
  datatype Outcome = Skip(next: nat) | Take(frame: Frame)

  /** A scan that did not find what it wanted: past a nested start, else just one line on. */
  function GiveUp(r: ScanResult, n: nat): Outcome {
    if r.Nested? then Skip(r.line + 1) else Skip(n + 1)
  }

  function SbFrame(kinds: seq<LineKind>, n: nat): Outcome {
    var base := Scan(kinds, n + 1, false, Want(Some(Sb), false));
    if !base.Found? then GiveUp(base, n) else
    var sep := Scan(kinds, base.line + 1, false, Want(None, true));
    if !sep.Sep? then GiveUp(sep, n) else
    var end := Scan(kinds, sep.line + 1, false, WantEnd(Sb));
    if !end.Found? then GiveUp(end, n) else
    Take(Frame(Sb, n, Some(base.line), sep.line, end.line))
  }

  /** Git's base section is optional: whichever of base and separator comes first. */
  function GitFrame(kinds: seq<LineKind>, n: nat): Outcome {
    var baseOrSep := Scan(kinds, n + 1, true, Want(Some(Git), true));
    if baseOrSep.Found? then
      GitFrameEnd(kinds, n, Some(baseOrSep.line), Scan(kinds, baseOrSep.line + 1, true, Want(None, true)))
    else if baseOrSep.Sep? then GitFrameEnd(kinds, n, None, baseOrSep)
    else GiveUp(baseOrSep, n)
  }

  function GitFrameEnd(kinds: seq<LineKind>, n: nat, base: Option<nat>, sep: ScanResult): Outcome {
    if !sep.Sep? then GiveUp(sep, n) else
    var end := Scan(kinds, sep.line + 1, true, WantEnd(Git));
    if !end.Found? then GiveUp(end, n) else
    Take(Frame(Git, n, base, sep.line, end.line))
  }

  function AtLine(kinds: seq<LineKind>, n: nat): Outcome
    requires n < |kinds|
  {
    match kinds[n].start
    case None => Skip(n + 1)
    case Some(Git) => if kinds[n].fenced then Skip(n + 1) else GitFrame(kinds, n)
    case Some(Sb) => SbFrame(kinds, n)
  }

  lemma {:induction false} ScanFinds(kinds: seq<LineKind>, i: nat, respect: bool, want: Want)
    ensures var r := Scan(kinds, i, respect, want);
      && (!r.Missing? ==> Look(kinds[r.line], r.line, respect, want) == r)
      && forall k :: i <= k < (if r.Missing? then |kinds| else r.line) ==> Look(kinds[k], k, respect, want).Missing?
    decreases |kinds| - i
  {
    if i < |kinds| && Look(kinds[i], i, respect, want).Missing? {
      ScanFinds(kinds, i + 1, respect, want);
    }
  }

  ghost predicate Progress(outcome: Outcome, n: nat, kinds: seq<LineKind>) {
    match outcome
    case Skip(next) => n < next <= |kinds|
    case Take(f) => f.start == n && FrameIn(f, kinds)
  }

  lemma SbFrameMakesProgress(kinds: seq<LineKind>, n: nat)
    requires n < |kinds| && kinds[n].start == Some(Sb)
    ensures Progress(SbFrame(kinds, n), n, kinds)
  {
    hide Scan;
    var base := Scan(kinds, n + 1, false, Want(Some(Sb), false));
    ScanFinds(kinds, n + 1, false, Want(Some(Sb), false));
    if base.Found? {
      var sep := Scan(kinds, base.line + 1, false, Want(None, true));
      ScanFinds(kinds, base.line + 1, false, Want(None, true));
      if sep.Sep? {
        ScanFinds(kinds, sep.line + 1, false, WantEnd(Sb));
      }
    }
  }

  lemma GitFrameMakesProgress(kinds: seq<LineKind>, n: nat)
    requires n < |kinds| && kinds[n].start == Some(Git) && !kinds[n].fenced
    ensures Progress(GitFrame(kinds, n), n, kinds)
  {
    hide Scan;
    var first := Scan(kinds, n + 1, true, Want(Some(Git), true));
    ScanFinds(kinds, n + 1, true, Want(Some(Git), true));
    if first.Found? || first.Sep? {
      var sep := if first.Found? then Scan(kinds, first.line + 1, true, Want(None, true)) else first;
      ScanFinds(kinds, first.line + 1, true, Want(None, true));
      if sep.Sep? {
        ScanFinds(kinds, sep.line + 1, true, WantEnd(Git));
      }
    }
  }

  lemma AtLineMakesProgress(kinds: seq<LineKind>, n: nat)
    requires n < |kinds|
    ensures Progress(AtLine(kinds, n), n, kinds)
  {
    match kinds[n].start
    case None =>
    case Some(Git) =>
      if !kinds[n].fenced {
        GitFrameMakesProgress(kinds, n);
      }
    case Some(Sb) => SbFrameMakesProgress(kinds, n);
  }

  /** The hunks the loop accepts from line `n` on: in order, apart from each other. */
  function Frames(kinds: seq<LineKind>, n: nat): (fs: seq<Frame>)
    ensures forall i :: 0 <= i < |fs| ==> n <= fs[i].start && FrameIn(fs[i], kinds)
    ensures forall i, j :: 0 <= i < j < |fs| ==> fs[i].end < fs[j].start
    decreases |kinds| - n
  {
    if n >= |kinds| then []
    else
      AtLineMakesProgress(kinds, n);
      match AtLine(kinds, n)
      case Skip(next) => Frames(kinds, next)
      case Take(f) => [f] + Frames(kinds, f.end + 1)
  }

  predicate MarkersIn(f: Frame, lines: seq<string>) {
    && f.start < f.sep < f.end < |lines|
    && (f.base.Some? ==> f.start < f.base.value < f.sep && MatchBase(lines[f.base.value]).Some?)
    && MatchStart(lines[f.start]).Some? && MatchEnd(lines[f.end]).Some?
  }

  function LineTo(lines: seq<string>, i: nat): nat
    requires i < |lines|
  {
    LineFrom(lines, i) + |lines[i]|
  }

  lemma NextLineFrom(lines: seq<string>, i: nat)
    requires i < |lines|
    ensures LineFrom(lines, i + 1) == LineTo(lines, i) + 1
  {
    assert lines[..i + 1] == lines[..i] + [lines[i]];
    UnlinesConcat(lines[..i], [lines[i]]);
    assert Unlines([lines[i]]) == lines[i] + "\n" + Unlines([]);
  }

  /** The section between two marker lines. */
  function ReadSection(lines: seq<string>, before: nat, after: nat, m: Marker): Section
    requires before < after < |lines|
  {
    NextLineFrom(lines, before);
    LinesSlice(lines, before + 1, after);
    var from, to := LineTo(lines, before) + 1, LineFrom(lines, after);
    Section(from, to, m.hash, m.title, JoinLines(lines)[from..to])
  }

  function HunkOf(lines: seq<string>, f: Frame): Hunk
    requires MarkersIn(f, lines)
  {
    var to := LineTo(lines, f.end);
    Hunk(LineFrom(lines, f.start), if to < |JoinLines(lines)| then to + 1 else to, f.kind,
         ReadSection(lines, f.start, if f.base.Some? then f.base.value else f.sep, MatchStart(lines[f.start]).value),
         if f.base.Some?
         then Some(ReadSection(lines, f.base.value, f.sep, MatchBase(lines[f.base.value]).value))
         else None,
         ReadSection(lines, f.sep, f.end, MatchEnd(lines[f.end]).value))
  }

  function DocKinds(lines: seq<string>): (kinds: seq<LineKind>)
    ensures |kinds| == |lines|
  {
    Kinds(lines, FenceMask(lines))
  }

  lemma FrameMarkers(lines: seq<string>, mask: seq<bool>, f: Frame)
    requires |mask| == |lines| && FrameIn(f, Kinds(lines, mask))
    ensures MarkersIn(f, lines) && f.start < f.end < |lines|
  {
  }

  function HunksOf(lines: seq<string>, fs: seq<Frame>): (hunks: seq<Hunk>)
    requires forall i :: 0 <= i < |fs| ==> MarkersIn(fs[i], lines)
    ensures |hunks| == |fs|
    ensures forall i :: 0 <= i < |fs| ==> hunks[i] == HunkOf(lines, fs[i])
  {
    seq(|fs|, i requires 0 <= i < |fs| => HunkOf(lines, fs[i]))
  }

  function FindHunks(lines: seq<string>): seq<Hunk> {
    var fs := Frames(DocKinds(lines), 0);
    HunksOf(lines, fs)
  }

  method TrySbHunk(lines: seq<string>, mask: seq<bool>, n: nat) returns (outcome: Outcome)
    requires |mask| == |lines| && n < |lines|
    ensures outcome == SbFrame(Kinds(lines, mask), n)
  {
    hide Kinds;
    var base := ScanForLine(lines, n + 1, mask, false, Some(Sb), false);
    if base.Nested? {
      return Skip(base.line + 1);
    }
    if !base.Found? {
      return Skip(n + 1);
    }
    var sep := ScanForLine(lines, base.line + 1, mask, false, None, true);
    if sep.Nested? {
      return Skip(sep.line + 1);
    }
    if !sep.Sep? {
      return Skip(n + 1);
    }
    var end := ScanForEnd(lines, sep.line + 1, mask, false, Sb);
    if end.Nested? {
      return Skip(end.line + 1);
    }
    if !end.Found? {
      return Skip(n + 1);
    }
    return Take(Frame(Sb, n, Some(base.line), sep.line, end.line));
  }

  method TryGitHunk(lines: seq<string>, mask: seq<bool>, n: nat) returns (outcome: Outcome)
    requires |mask| == |lines| && n < |lines|
    ensures outcome == GitFrame(Kinds(lines, mask), n)
  {
    hide Kinds;
    var baseOrSep := ScanForLine(lines, n + 1, mask, true, Some(Git), true);
    if baseOrSep.Nested? {
      return Skip(baseOrSep.line + 1);
    }
    if baseOrSep.Missing? {
      return Skip(n + 1);
    }
    var base, sep := None, baseOrSep;
    if baseOrSep.Found? {
      base := Some(baseOrSep.line);
      sep := ScanForLine(lines, baseOrSep.line + 1, mask, true, None, true);
      if sep.Nested? {
        return Skip(sep.line + 1);
      }
      if !sep.Sep? {
        return Skip(n + 1);
      }
    }
    var end := ScanForEnd(lines, sep.line + 1, mask, true, Git);
    if end.Nested? {
      return Skip(end.line + 1);
    }
    if !end.Found? {
      return Skip(n + 1);
    }
    return Take(Frame(Git, n, base, sep.line, end.line));
  }

  /** One turn of the main loop. */
  method TryHunk(lines: seq<string>, mask: seq<bool>, n: nat) returns (outcome: Outcome)
    requires |mask| == |lines| && n < |lines|
    ensures outcome == AtLine(Kinds(lines, mask), n)
  {
    hide MatchMarker, IsSeparator, SbFrame, GitFrame;
    var start := MatchStart(lines[n]);
    if start.None? || (start.value.kind == Git && mask[n]) {
      outcome := Skip(n + 1);
    } else if start.value.kind == Sb {
      outcome := TrySbHunk(lines, mask, n);
    } else {
      outcome := TryGitHunk(lines, mask, n);
    }
  }

  ghost predicate Collected(lines: seq<string>, fs: seq<Frame>, hunks: seq<Hunk>) {
    && (forall i :: 0 <= i < |fs| ==> MarkersIn(fs[i], lines))
    && |hunks| == |fs| && forall i :: 0 <= i < |fs| ==> hunks[i] == HunkOf(lines, fs[i])
  }

  lemma NothingCollected(lines: seq<string>)
    ensures Collected(lines, [], [])
  {
  }

  lemma CollectedFurther(lines: seq<string>, fs: seq<Frame>, hunks: seq<Hunk>, f: Frame)
    requires Collected(lines, fs, hunks) && MarkersIn(f, lines)
    ensures Collected(lines, fs + [f], hunks + [HunkOf(lines, f)])
  {
    hide MarkersIn, HunkOf;
  }

  lemma CollectedAll(lines: seq<string>, fs: seq<Frame>, hunks: seq<Hunk>)
    requires Collected(lines, fs, hunks)
    ensures (forall i :: 0 <= i < |fs| ==> MarkersIn(fs[i], lines)) && HunksOf(lines, fs) == hunks
  {
    hide MarkersIn, HunkOf;
  }

  method FindConflictHunks(lines: seq<string>) returns (hunks: seq<Hunk>)
    ensures hunks == FindHunks(lines)
  {
    hide MatchMarker, FrameIn, MarkersIn, AtLine, HunkOf, Collected, Kinds, FenceMask, HunksOf;
    var mask := ComputeFenceMask(lines);
    ghost var kinds := DocKinds(lines);
    ghost var taken: seq<Frame> := [];
    hunks := [];
    NothingCollected(lines);
    var n := 0;
    while n < |lines|
      invariant Frames(kinds, 0) == taken + Frames(kinds, n)
      invariant Collected(lines, taken, hunks)
      decreases |lines| - n
    {
      var outcome := TryHunk(lines, mask, n);
      AtLineMakesProgress(kinds, n);
      match outcome
      case Skip(next) =>
        n := next;
      case Take(f) =>
        FrameMarkers(lines, mask, f);
        CollectedFurther(lines, taken, hunks, f);
        hunks := hunks + [HunkOf(lines, f)];
        taken := taken + [f];
        n := f.end + 1;
    }
    CollectedAll(lines, taken, hunks);
    assert taken + [] == taken;
  }
}
