/** Git's own conflict markers, printed and scanned again, and texts with CRLF line ends:
    `findConflictHunks` in `client/codemirror/conflict_markers.ts`. */
module GitConflicts {
  import opened Changes
  import opened ConflictFences
  import opened ConflictMarkers
  import opened ConflictPrinting
  import opened ConflictResolution
  import opened Options
  import opened TextLines

  // ----- CRLF -----

  function WithCR(lines: seq<string>): (r: seq<string>)
    ensures |r| == |lines| && forall i :: 0 <= i < |r| ==> r[i] == lines[i] + "\r"
  {
    seq(|lines|, i requires 0 <= i < |lines| => lines[i] + "\r")
  }

  lemma StripsCR(line: string)
    requires NoCR(line)
    ensures StripTrailingCR(line + "\r") == line == StripTrailingCR(line)
  {
    assert (line + "\r")[..|line|] == line;
  }

  /** The markers of a line are read through its CR. */
  lemma CRLineAlike(line: string, fence: Fence)
    requires NoCR(line)
    ensures MatchStart(line + "\r") == MatchStart(line) && MatchBase(line + "\r") == MatchBase(line)
    ensures MatchEnd(line + "\r") == MatchEnd(line) && IsSeparator(line + "\r") == IsSeparator(line)
    ensures FenceStep(fence, line + "\r") == FenceStep(fence, line)
    ensures fence.In? ==>
      ClosesFence(TrimmedLine(line + "\r"), fence) == ClosesFence(TrimmedLine(line), fence)
  {
    hide StripTrailingCR, ClosesFence, OpenFence;
    StripsCR(line);
  }

  lemma {:induction false} CRFences(lines: seq<string>, i: nat)
    requires i <= |lines| && forall k :: 0 <= k < |lines| ==> NoCR(lines[k])
    ensures FenceBefore(WithCR(lines), i) == FenceBefore(lines, i)
    decreases i
  {
    hide FenceStep, NoCR;
    if i > 0 {
      CRFences(lines, i - 1);
      CRLineAlike(lines[i - 1], FenceBefore(lines, i - 1));
    }
  }

  /** A text with CRLF line ends has its hunks on the same lines as one with LF line ends. */
  lemma CRLFAlike(lines: seq<string>)
    requires forall k :: 0 <= k < |lines| ==> NoCR(lines[k])
    ensures DocKinds(WithCR(lines)) == DocKinds(lines)
    ensures Frames(DocKinds(WithCR(lines)), 0) == Frames(DocKinds(lines), 0)
  {
    hide MatchStart, MatchBase, MatchEnd, IsSeparator, NoCR, FenceBefore, ClosesFence, TrimmedLine, DocKinds, Frames,
      FenceMask;
    var ks, js := DocKinds(lines), DocKinds(WithCR(lines));
    forall k | 0 <= k < |ks|
      ensures js[k] == ks[k]
    {
      KindAt(lines, k);
      KindAt(WithCR(lines), k);
      CRFences(lines, k);
      CRLineAlike(lines[k], FenceBefore(lines, k));
    }
    assert ks == js;
  }

  // ----- Git's form -----

  /** The merge base is printed only in diff3 style. */
  datatype GitBase = GitBase(name: string, lines: seq<string>)

  datatype GitConflict = GitConflict(firstName: string, first: seq<string>, base: Option<GitBase>,
                                     second: seq<string>, secondName: string)

  function BaseLines(base: Option<GitBase>): seq<string> {
    if base.None? then [] else [GIT_BASE + " " + base.value.name] + base.value.lines
  }

  function GitPrinted(c: GitConflict): seq<string> {
    [GIT_START + " " + c.firstName] + c.first + BaseLines(c.base) + [SEPARATOR] + c.second +
    [GIT_END + " " + c.secondName]
  }

  /** The name does not make the marker one of SB's. */
  predicate GitName(name: string, sbTail: string) {
    NoCR(name) && !StartsWith(name, sbTail)
  }

  /** A line of a section: no start marker, and nothing that opens a fence. */
  predicate PlainLine(line: string) {
    MatchStart(line).None? && FenceStep(NoFence, line) == NoFence
  }

  ghost predicate GitPrintable(c: GitConflict) {
    && GitName(c.firstName, "SB sha256:") && GitName(c.secondName, "SB sha256:")
    && (c.base.Some? ==> GitName(c.base.value.name, "SB BASE sha256:"))
    && (forall k :: 0 <= k < |c.first| ==>
          PlainLine(c.first[k]) && !IsSeparator(c.first[k]) && KindOf(MatchBase(c.first[k])) != Some(Git))
    && (c.base.Some? ==> forall k :: 0 <= k < |c.base.value.lines| ==>
          PlainLine(c.base.value.lines[k]) && !IsSeparator(c.base.value.lines[k]))
    && (forall k :: 0 <= k < |c.second| ==> PlainLine(c.second[k]) && KindOf(MatchEnd(c.second[k])) != Some(Git))
  }

  lemma CommonFront(front: string, x: string, y: string)
    ensures StartsWith(front + x, front + y) <==> StartsWith(x, y)
  {
    if |y| <= |x| {
      assert (front + x)[..|front + y|] == front + x[..|y|];
      assert (front + x[..|y|])[|front|..] == x[..|y|] && (front + y)[|front|..] == y;
    }
  }

  lemma GitMarkerLine(git: string, sb: string, sbTail: string, name: string)
    requires git != "" && git[0] != '\r' && sb == git + " " + sbTail && GitName(name, sbTail)
    ensures MatchMarker(git + " " + name, sb, git) == Some(Marker(Git, "", Some(name)))
  {
    var line := git + " " + name;
    assert StripTrailingCR(line) == line;
    CommonFront(git + " ", name, sbTail);
    assert line[..|git|] == git && line[|git|..] == " " + name;
    assert (" " + name)[..1] == " " && (" " + name)[1..] == name;
  }

  /** What the markers of a printed git conflict are read as. */
  lemma GitMarkerLines(c: GitConflict)
    requires GitPrintable(c)
    ensures MatchStart(GIT_START + " " + c.firstName) == Some(Marker(Git, "", Some(c.firstName)))
    ensures MatchEnd(GIT_END + " " + c.secondName) == Some(Marker(Git, "", Some(c.secondName)))
    ensures MatchStart(GIT_END + " " + c.secondName).None?
    ensures c.base.Some? ==> var line := GIT_BASE + " " + c.base.value.name;
      MatchBase(line) == Some(Marker(Git, "", Some(c.base.value.name))) && MatchStart(line).None? && !IsSeparator(line)
  {
    hide MatchMarker;
    GitMarkerLine(GIT_START, SB_START, "SB sha256:", c.firstName);
    GitMarkerLine(GIT_END, SB_END, "SB sha256:", c.secondName);
    NotAStart(GIT_END + " " + c.secondName);
    if c.base.Some? {
      GitMarkerLine(GIT_BASE, SB_BASE, "SB BASE sha256:", c.base.value.name);
      NotAStart(GIT_BASE + " " + c.base.value.name);
      NotASeparator(GIT_BASE + " " + c.base.value.name);
    }
  }

  lemma NotASeparator(line: string)
    requires line != "" && line[0] != '=' && line != "\r"
    ensures !IsSeparator(line)
  {
  }

  // ----- The grammar -----

  ghost predicate Quiet(ks: seq<LineKind>, i: nat, j: nat) {
    j <= |ks| && forall k :: i <= k < j ==> ks[k].start.None? && !ks[k].fenced && !ks[k].separator
  }

  /** The line classes of a printed git hunk. */
  ghost predicate GitGrammarAt(ks: seq<LineKind>, f: Frame) {
    && f.kind == Git && f.start < f.sep < f.end < |ks|
    && ks[f.start].start == Some(Git) && !ks[f.start].fenced
    && (if f.base.Some? then
          && f.start < f.base.value < f.sep && Quiet(ks, f.start + 1, f.sep)
          && (forall k :: f.start < k < f.base.value ==> ks[k].base != Some(Git)) && ks[f.base.value].base == Some(Git)
        else Quiet(ks, f.start + 1, f.sep) && forall k :: f.start < k < f.sep ==> ks[k].base != Some(Git))
    && ks[f.sep].separator && (forall k :: f.sep <= k <= f.end ==> ks[k].start.None? && !ks[k].fenced)
    && (forall k :: f.sep < k < f.end ==> ks[k].end != Some(Git)) && ks[f.end].end == Some(Git)
  }

  lemma GitGrammarIsTaken(ks: seq<LineKind>, f: Frame)
    requires GitGrammarAt(ks, f)
    ensures AtLine(ks, f.start) == Take(f)
  {
    if f.base.Some? {
      ScanHits(ks, f.start + 1, f.base.value, true, Want(Some(Git), true));
      ScanHits(ks, f.base.value + 1, f.sep, true, Want(None, true));
    } else {
      ScanHits(ks, f.start + 1, f.sep, true, Want(Some(Git), true));
    }
    ScanHits(ks, f.sep + 1, f.end, true, WantEnd(Git));
  }

  function GitPrintedFrame(at: nat, c: GitConflict): Frame {
    var base := at + 1 + |c.first|;
    var sep := base + |BaseLines(c.base)|;
    Frame(Git, at, if c.base.Some? then Some(base) else None, sep, sep + 1 + |c.second|)
  }

  lemma GitPrintedParts(c: GitConflict)
    ensures var p, f := GitPrinted(c), GitPrintedFrame(0, c);
      && |p| == f.end + 1
      && p[0] == GIT_START + " " + c.firstName && p[1..1 + |c.first|] == c.first
      && p[1 + |c.first|..f.sep] == BaseLines(c.base)
      && p[f.sep] == SEPARATOR && p[f.sep + 1..f.end] == c.second
      && p[f.end] == GIT_END + " " + c.secondName
  {
  }

  /** The line classes of some lines that stand outside all fences. */
  function UnfencedKinds(p: seq<string>): (ks: seq<LineKind>)
    ensures |ks| == |p| && forall k :: 0 <= k < |ks| ==> ks[k] == Classify(p[k], false)
  {
    seq(|p|, k requires 0 <= k < |p| => Classify(p[k], false))
  }

  lemma PartIn(p: seq<string>, i: nat, part: seq<string>)
    requires i + |part| <= |p| && p[i..i + |part|] == part
    ensures forall k :: i <= k < i + |part| ==> p[k] == part[k - i]
  {
    assert forall k :: i <= k < i + |part| ==> p[k] == p[i..i + |part|][k - i];
  }

  lemma BasePart(c: GitConflict)
    ensures var p, at := GitPrinted(c), 1 + |c.first|;
      && (c.base.Some? ==> at < |p| && p[at] == GIT_BASE + " " + c.base.value.name)
      && (c.base.Some? ==> at + 1 + |c.base.value.lines| == GitPrintedFrame(0, c).sep <= |p| &&
                           p[at + 1..GitPrintedFrame(0, c).sep] == c.base.value.lines)
  {
    hide GitPrinted;
    GitPrintedParts(c);
    var p, at, sep := GitPrinted(c), 1 + |c.first|, GitPrintedFrame(0, c).sep;
    if c.base.Some? {
      PartIn(p, at, BaseLines(c.base));
      assert p[at + 1..sep] == p[at..sep][1..] == c.base.value.lines;
    }
  }

  lemma FirstKindsOf(p: seq<string>, c: GitConflict)
    requires GitPrintable(c) && 1 + |c.first| <= |p| && p[1..1 + |c.first|] == c.first
    ensures var ks := UnfencedKinds(p);
      Quiet(ks, 1, 1 + |c.first|) && forall k :: 1 <= k < 1 + |c.first| ==> ks[k].base != Some(Git)
  {
    hide MatchStart, MatchBase, MatchEnd, IsSeparator, FenceStep;
    PartIn(p, 1, c.first);
  }

  lemma BaseKindsOf(p: seq<string>, i: nat, c: GitConflict)
    requires GitPrintable(c) && c.base.Some?
    requires i + |c.base.value.lines| <= |p| && p[i..i + |c.base.value.lines|] == c.base.value.lines
    ensures Quiet(UnfencedKinds(p), i, i + |c.base.value.lines|)
  {
    hide MatchStart, MatchBase, MatchEnd, IsSeparator, FenceStep;
    PartIn(p, i, c.base.value.lines);
  }

  lemma SecondKindsOf(p: seq<string>, i: nat, c: GitConflict)
    requires GitPrintable(c) && i + |c.second| <= |p| && p[i..i + |c.second|] == c.second
    ensures var ks := UnfencedKinds(p);
      forall k :: i <= k < i + |c.second| ==> ks[k].start.None? && !ks[k].fenced && ks[k].end != Some(Git)
  {
    hide MatchStart, MatchBase, MatchEnd, IsSeparator, FenceStep;
    PartIn(p, i, c.second);
  }

  lemma GitPrintedGrammar(c: GitConflict)
    requires GitPrintable(c)
    ensures GitGrammarAt(UnfencedKinds(GitPrinted(c)), GitPrintedFrame(0, c))
  {
    hide MatchStart, MatchBase, MatchEnd, IsSeparator, GitPrinted, GitPrintable;
    var p, f := GitPrinted(c), GitPrintedFrame(0, c);
    GitPrintedParts(c);
    GitMarkerLines(c);
    SeparatorLine();
    FirstKindsOf(p, c);
    BasePart(c);
    if c.base.Some? {
      BaseKindsOf(p, f.base.value + 1, c);
    }
    SecondKindsOf(p, f.sep + 1, c);
  }

  lemma SeparatorLine()
    ensures IsSeparator(SEPARATOR) && MatchStart(SEPARATOR).None?
  {
    NotAStart(SEPARATOR);
  }

  // ----- In a document -----

  lemma GitLineFence(c: GitConflict, k: nat)
    requires GitPrintable(c) && k < |GitPrinted(c)|
    ensures FenceStep(NoFence, GitPrinted(c)[k]) == NoFence
  {
    hide FenceStep, GitPrinted, MatchStart, MatchBase, MatchEnd, IsSeparator;
    var p, f := GitPrinted(c), GitPrintedFrame(0, c);
    GitPrintedParts(c);
    PartIn(p, 1, c.first);
    BasePart(c);
    PartIn(p, f.sep + 1, c.second);
    if c.base.Some? {
      PartIn(p, f.base.value + 1, c.base.value.lines);
    }
    if k == 0 || k == f.sep || k == f.end || Some(k) == f.base {
      NoFenceLineStep(p[k], NoFence);
    }
  }

  lemma GitUnfenced(lines: seq<string>, at: nat, c: GitConflict)
    requires GitPrintable(c) && at + |GitPrinted(c)| <= |lines| && lines[at..at + |GitPrinted(c)|] == GitPrinted(c)
    requires FenceBefore(lines, at) == NoFence
    ensures AlikeTo(UnfencedKinds(GitPrinted(c)), 0, DocKinds(lines), at, |GitPrinted(c)|, true)
    ensures FenceBefore(lines, at + |GitPrinted(c)|) == NoFence
  {
    hide FenceStep, GitPrinted, GitPrintable, FenceBefore, MatchMarker, FenceMask, DocKinds;
    var p := GitPrinted(c);
    forall k | 0 <= k < |p|
      ensures FenceStep(NoFence, p[k]) == NoFence
    {
      GitLineFence(c, k);
    }
    forall k | 0 <= k < |p|
      ensures DocKinds(lines)[at + k] == UnfencedKinds(p)[k]
    {
      FenceUnmoved(lines, at, p, k);
      KindAt(lines, at + k);
      assert lines[at + k] == lines[at..at + |p|][k];
    }
    FenceUnmoved(lines, at, p, |p|);
  }

  /** Outside all fences a printed git conflict is taken as one hunk. */
  lemma GitIsTaken(lines: seq<string>, at: nat, c: GitConflict)
    requires GitPrintable(c) && at + |GitPrinted(c)| <= |lines| && lines[at..at + |GitPrinted(c)|] == GitPrinted(c)
    requires FenceBefore(lines, at) == NoFence
    ensures AtLine(DocKinds(lines), at) == Take(GitPrintedFrame(at, c))
  {
    hide AtLine, GitPrinted, GitPrintable, FenceBefore, MatchMarker, FenceMask, DocKinds, AlikeTo, GitGrammarAt,
      GitPrintedFrame, MovedFrame, UnfencedKinds, Counts;
    GitUnfenced(lines, at, c);
    GitPrintedGrammar(c);
    var ks, f := UnfencedKinds(GitPrinted(c)), GitPrintedFrame(0, c);
    GitFrameSpan(c);
    GitGrammarIsTaken(ks, f);
    AtLineMoved(ks, 0, DocKinds(lines), at, |GitPrinted(c)|);
    FrameAt(c, AtLine(DocKinds(lines), at).frame, at);
  }

  lemma GitFrameSpan(c: GitConflict)
    ensures GitPrintedFrame(0, c).start == 0 && GitPrintedFrame(0, c).end + 1 == |GitPrinted(c)|
  {
  }

  lemma FrameAt(c: GitConflict, f: Frame, at: nat)
    requires MovedFrame(GitPrintedFrame(0, c), f, 0, at)
    ensures f == GitPrintedFrame(at, c)
  {
  }

  /** The hunk that a printed git conflict must be read as. */
  ghost predicate GitReadsAs(h: Hunk, c: GitConflict, from: nat) {
    && h.from == from && h.kind == Git
    && h.first.title == Some(c.firstName) && h.first.text == Unlines(c.first)
    && h.second.title == Some(c.secondName) && h.second.text == Unlines(c.second)
    && h.base.Some? == c.base.Some?
    && (h.base.Some? ==>
          h.base.value.title == Some(c.base.value.name) && h.base.value.text == Unlines(c.base.value.lines))
  }

  lemma PrintedLineParts(lines: seq<string>, at: nat, c: GitConflict)
    requires at + |GitPrinted(c)| <= |lines| && lines[at..at + |GitPrinted(c)|] == GitPrinted(c)
    ensures var f := GitPrintedFrame(at, c);
      && f.end + 1 == at + |GitPrinted(c)|
      && lines[f.start] == GIT_START + " " + c.firstName && lines[f.start + 1..f.start + 1 + |c.first|] == c.first
      && (c.base.Some? ==> lines[f.base.value] == GIT_BASE + " " + c.base.value.name)
      && (c.base.Some? ==> lines[f.base.value + 1..f.sep] == c.base.value.lines)
      && lines[f.sep] == SEPARATOR && lines[f.sep + 1..f.end] == c.second
      && lines[f.end] == GIT_END + " " + c.secondName
  {
    hide GitPrinted;
    var p, f := GitPrinted(c), GitPrintedFrame(0, c);
    GitPrintedParts(c);
    BasePart(c);
    PrintedLineAt(lines, at, p, 0);
    PrintedLineAt(lines, at, p, f.sep);
    PrintedLineAt(lines, at, p, f.end);
    SubsectionOf(lines, at, p, 1, 1 + |c.first|);
    SubsectionOf(lines, at, p, f.sep + 1, f.end);
    if c.base.Some? {
      PrintedLineAt(lines, at, p, f.base.value);
      SubsectionOf(lines, at, p, f.base.value + 1, f.sep);
    }
  }

  lemma GitPrintedHunk(lines: seq<string>, at: nat, c: GitConflict)
    requires GitPrintable(c) && at + |GitPrinted(c)| <= |lines| && lines[at..at + |GitPrinted(c)|] == GitPrinted(c)
    ensures var f := GitPrintedFrame(at, c);
      MarkersIn(f, lines) && GitReadsAs(HunkOf(lines, f), c, LineFrom(lines, at))
  {
    hide MatchMarker, GitPrinted, Unlines, LineFrom, ReadSection, JoinLines;
    PrintedLineParts(lines, at, c);
    GitMarkerLines(c);
    hide MatchStart, MatchBase, MatchEnd, GitPrintable, IsSeparator;
    var f := GitPrintedFrame(at, c);
    SectionText(lines, f.sep, f.end, MatchEnd(lines[f.end]).value);
    SectionText(lines, f.start, f.start + 1 + |c.first|, MatchStart(lines[f.start]).value);
    if c.base.Some? {
      SectionText(lines, f.base.value, f.sep, MatchBase(lines[f.base.value]).value);
    }
  }

  /** A git conflict printed behind some lines that leave no start marker and no fence open is found,
      with its names and texts, and each action keeps the lines it names; without a base section the
      base cannot be restored. */
  lemma GitPrintedIsFound(before: seq<string>, c: GitConflict, behind: seq<string>) returns (i: nat)
    requires GitPrintable(c) && NoneLeftOpen(before) && FenceBefore(before, |before|) == NoFence
    ensures var lines := before + GitPrinted(c) + behind; var t, hs := JoinLines(lines), FindHunks(lines);
      && i < |hs| && GitReadsAs(hs[i], c, |Unlines(before)|) && hs[i].from <= hs[i].to <= |t|
      && ResolvesTo(t, hs[i], TakeFirst, KeptLines(before, c.first, behind))
      && ResolvesTo(t, hs[i], TakeSecond, KeptLines(before, c.second, behind))
      && ResolvesTo(t, hs[i], TakeBoth, KeptLines(before, c.first + c.second, behind))
      && if c.base.None? then ResolveHunk(hs[i], TakeBase).None?
         else ResolvesTo(t, hs[i], TakeBase, KeptLines(before, c.base.value.lines, behind))
  {
    hide MatchMarker, GitPrinted, Unlines, DocKinds, HunkOf, MarkersIn, AtLine, GitReadsAs, FramesUntil, Frames,
      JoinLines, NoneLeftOpen, ResolvesTo, KeptLines, ResolveHunk, HunksOf, FenceBefore, GitPrintable;
    var lines, f := before + GitPrinted(c) + behind, GitPrintedFrame(|before|, c);
    GitStands(before, c, behind);
    i := GitPrintedAt(before, c, behind);
    FramesFit(lines);
    HunkSpan(lines, f);
    UnlinesConcat(c.first, c.second);
    var h := HunkOf(lines, f);
    GitSectionsRead(h, c, |Unlines(before)|);
    KeepsTheLines(lines, f, before, behind, TakeFirst, c.first);
    KeepsTheLines(lines, f, before, behind, TakeSecond, c.second);
    KeepsTheLines(lines, f, before, behind, TakeBoth, c.first + c.second);
    if c.base.Some? {
      KeepsTheLines(lines, f, before, behind, TakeBase, c.base.value.lines);
    }
  }

  lemma GitSectionsRead(h: Hunk, c: GitConflict, from: nat)
    requires GitReadsAs(h, c, from)
    ensures h.from == from
    ensures ResolveHunk(h, TakeFirst) == Some(Change(h.from, h.to, Unlines(c.first)))
    ensures ResolveHunk(h, TakeSecond) == Some(Change(h.from, h.to, Unlines(c.second)))
    ensures ResolveHunk(h, TakeBoth) == Some(Change(h.from, h.to, Unlines(c.first) + Unlines(c.second)))
    ensures ResolveHunk(h, TakeBase) ==
      if c.base.None? then None else Some(Change(h.from, h.to, Unlines(c.base.value.lines)))
  {
  }

  lemma GitStands(before: seq<string>, c: GitConflict, behind: seq<string>)
    requires GitPrintable(c) && FenceBefore(before, |before|) == NoFence
    ensures var lines, f := before + GitPrinted(c) + behind, GitPrintedFrame(|before|, c);
      && |before| < |lines| && lines[..|before|] == before && f.end < |lines| && lines[f.end + 1..] == behind
      && AtLine(DocKinds(lines), |before|) == Take(f)
      && MarkersIn(f, lines) && GitReadsAs(HunkOf(lines, f), c, |Unlines(before)|)
  {
    hide MatchMarker, GitPrinted, Unlines, DocKinds, HunkOf, MarkersIn, AtLine, GitReadsAs, FenceBefore, GitPrintable;
    var lines, at := before + GitPrinted(c) + behind, |before|;
    assert lines[at..at + |GitPrinted(c)|] == GitPrinted(c);
    assert lines == before + (GitPrinted(c) + behind);
    FenceOfFront(before, GitPrinted(c) + behind);
    GitFrameSpan(c);
    GitIsTaken(lines, at, c);
    GitPrintedHunk(lines, at, c);
  }

  lemma GitPrintedAt(before: seq<string>, c: GitConflict, behind: seq<string>) returns (i: nat)
    requires GitPrintable(c) && NoneLeftOpen(before) && FenceBefore(before, |before|) == NoFence
    ensures var fs := Frames(DocKinds(before + GitPrinted(c) + behind), 0);
      i < |fs| && fs[i] == GitPrintedFrame(|before|, c)
  {
    hide DocKinds, FramesUntil, Counts, GitPrinted, Frames, AtLine, FrameIn, GitReadsAs, HunkOf, MarkersIn, Unlines,
      FenceBefore, GitPrintable;
    var lines, at := before + GitPrinted(c) + behind, |before|;
    GitStands(before, c, behind);
    ReachedAlike(before, lines);
    FramesFromUntil(DocKinds(lines), 0, at);
    FramesStep(DocKinds(lines), at);
    i := |FramesUntil(DocKinds(lines), 0, at).value|;
  }
}
