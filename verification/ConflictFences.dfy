/** Exactly when resolving a hunk leaves the other hunks alone, whatever stands behind it: fences
    in `findConflictHunks` of `client/codemirror/conflict_markers.ts`. */
module ConflictFences {
  import opened ConflictMarkers
  import opened ConflictPrinting
  import opened ConflictResolution
  import opened Options
  import opened TextLines

  // ----- A fence line and a git hunk tell any two fences apart -----

  function Repeat(ch: char, n: nat): (s: string)
    ensures |s| == n && forall k :: 0 <= k < n ==> s[k] == ch
  {
    seq(n, _ => ch)
  }

  predicate FenceChar(ch: char) {
    ch == '`' || ch == '~'
  }

  lemma {:induction false} RunOfRepeat(ch: char, n: nat, other: char)
    ensures RunOf(Repeat(ch, n), other) == if other == ch then n else 0
    decreases n
  {
    if n > 0 {
      assert Repeat(ch, n)[1..] == Repeat(ch, n - 1);
      RunOfRepeat(ch, n - 1, other);
    }
  }

  lemma TrimmedRepeat(ch: char, n: nat)
    requires FenceChar(ch)
    ensures TrimmedLine(Repeat(ch, n)) == Repeat(ch, n) && TrimEnd(Repeat(ch, n)) == Repeat(ch, n)
  {
  }

  /** A line of fence characters closes exactly the fences of its character that are not longer. */
  lemma RepeatCloses(ch: char, n: nat, fence: Fence)
    requires FenceChar(ch) && n >= 3 && fence.In?
    ensures ClosesFence(TrimmedLine(Repeat(ch, n)), fence) <==> ch == fence.ch && fence.len <= n
  {
    TrimmedRepeat(ch, n);
    RunOfRepeat(ch, n, fence.ch);
    if ch == fence.ch {
      assert Repeat(ch, n)[n..] == "";
    }
  }

  // ----- What a fence line is -----

  /** Up to three spaces, a run of the fence character, and what follows it. */
  ghost predicate FenceLine(line: string, k: nat, ch: char, n: nat, rest: string) {
    && k <= 3 && n >= 3 && StripTrailingCR(line) == Repeat(' ', k) + (Repeat(ch, n) + rest)
    && (rest != "" ==> rest[0] != ch)
  }

  lemma RepeatStep(ch: char, n: nat, rest: string)
    requires n > 0
    ensures (Repeat(ch, n) + rest)[0] == ch && (Repeat(ch, n) + rest)[1..] == Repeat(ch, n - 1) + rest
    ensures [ch] + (Repeat(ch, n - 1) + rest) == Repeat(ch, n) + rest
  {
    assert Repeat(ch, n) == [ch] + Repeat(ch, n - 1);
  }

  lemma NoRepeat(ch: char, rest: string)
    ensures Repeat(ch, 0) + rest == rest
  {
  }

  lemma {:induction false} UnindentedBy(s: string, max: nat) returns (k: nat)
    ensures k <= max && s == Repeat(' ', k) + Unindent(s, max)
    decreases max
  {
    if max > 0 && s != "" && s[0] == ' ' {
      var j := UnindentedBy(s[1..], max - 1);
      k := j + 1;
      RepeatStep(' ', k, Unindent(s, max));
      assert s == [' '] + s[1..];
    } else {
      k := 0;
      NoRepeat(' ', s);
    }
  }

  lemma {:induction false} UnindentIs(k: nat, rest: string, max: nat)
    requires k <= max && (rest != "" ==> rest[0] != ' ')
    ensures Unindent(Repeat(' ', k) + rest, max) == rest
    decreases k
  {
    if k > 0 {
      RepeatStep(' ', k, rest);
      UnindentIs(k - 1, rest, max - 1);
    } else {
      NoRepeat(' ', rest);
    }
  }

  lemma {:induction false} RunSplits(s: string, ch: char) returns (rest: string)
    ensures s == Repeat(ch, RunOf(s, ch)) + rest && (rest != "" ==> rest[0] != ch)
    decreases |s|
  {
    if s != "" && s[0] == ch {
      rest := RunSplits(s[1..], ch);
      RepeatStep(ch, RunOf(s, ch), rest);
      assert s == [ch] + s[1..];
    } else {
      rest := s;
      NoRepeat(ch, s);
    }
  }

  lemma {:induction false} RunIs(ch: char, n: nat, rest: string)
    requires rest != "" ==> rest[0] != ch
    ensures RunOf(Repeat(ch, n) + rest, ch) == n
    decreases n
  {
    if n > 0 {
      RepeatStep(ch, n, rest);
      RunIs(ch, n - 1, rest);
    } else {
      NoRepeat(ch, rest);
    }
  }

  /** The trimmed line of a fence line is its run and what follows. */
  lemma FenceLineTrimmed(line: string, k: nat, ch: char, n: nat, rest: string)
    requires FenceChar(ch) && FenceLine(line, k, ch, n, rest)
    ensures TrimmedLine(line) == Repeat(ch, n) + rest
    ensures RunOf(TrimmedLine(line), ch) == n && TrimmedLine(line)[n..] == rest
    ensures forall other :: FenceChar(other) && other != ch ==> RunOf(TrimmedLine(line), other) == 0
  {
    RepeatStep(ch, n, rest);
    UnindentIs(k, Repeat(ch, n) + rest, 3);
    RunIs(ch, n, rest);
  }

  lemma TrimmedIsFenceLine(line: string, ch: char) returns (k: nat, rest: string)
    requires RunOf(TrimmedLine(line), ch) >= 3
    ensures FenceLine(line, k, ch, RunOf(TrimmedLine(line), ch), rest)
    ensures TrimmedLine(line) == Repeat(ch, RunOf(TrimmedLine(line), ch)) + rest
  {
    hide Unindent, RunOf;
    k := UnindentedBy(StripTrailingCR(line), 3);
    rest := RunSplits(TrimmedLine(line), ch);
  }

  /** A line opens a fence exactly if, behind at most three spaces, it begins with a run of at least
      three backticks or tildes; the fence is that run. */
  lemma OpensIff(line: string, ch: char, n: nat)
    requires FenceChar(ch)
    ensures OpenFence(TrimmedLine(line)) == In(ch, n) <==> exists k, rest :: FenceLine(line, k, ch, n, rest)
  {
    hide TrimmedLine, FenceLine, RunOf;
    if k, rest :| FenceLine(line, k, ch, n, rest) {
      assert n >= 3 by { FenceLineLong(line, k, ch, n, rest); }
      FenceLineTrimmed(line, k, ch, n, rest);
    }
    if OpenFence(TrimmedLine(line)) == In(ch, n) {
      var k, rest := TrimmedIsFenceLine(line, ch);
    }
  }

  lemma FenceLineLong(line: string, k: nat, ch: char, n: nat, rest: string)
    requires FenceLine(line, k, ch, n, rest)
    ensures n >= 3
  {
  }

  lemma {:induction false} AllSpaceIff(w: string)
    ensures TrimStart(w) == "" <==> forall i :: 0 <= i < |w| ==> IsSpace(w[i])
    decreases |w|
  {
    if w != "" {
      AllSpaceIff(w[1..]);
      if IsSpace(w[0]) {
        assert forall i :: 0 <= i < |w[1..]| ==> w[1..][i] == w[i + 1];
        assert forall i :: 0 < i < |w| ==> w[i] == w[1..][i - 1];
      }
    }
  }

  lemma {:induction false} TrimEndOfRun(ch: char, n: nat, w: string)
    requires FenceChar(ch) && forall i :: 0 <= i < |w| ==> IsSpace(w[i])
    ensures TrimEnd(Repeat(ch, n) + w) == Repeat(ch, n)
    decreases |w|
  {
    hide IsSpace;
    var s := Repeat(ch, n) + w;
    if w != "" {
      assert s[..|s| - 1] == Repeat(ch, n) + w[..|w| - 1] && s[|s| - 1] == w[|w| - 1];
      TrimEndOfRun(ch, n, w[..|w| - 1]);
    } else {
      assert s == Repeat(ch, n);
      NoSpace(ch);
    }
  }

  lemma NoSpace(ch: char)
    requires FenceChar(ch)
    ensures !IsSpace(ch)
  {
  }

  ghost predicate ClosingLine(line: string, k: nat, fence: Fence, n: nat, w: string)
    requires fence.In?
  {
    FenceLine(line, k, fence.ch, n, w) && n >= fence.len && forall i :: 0 <= i < |w| ==> IsSpace(w[i])
  }

  /** A line closes a fence exactly if, behind at most three spaces, it is a run of the same character
      that is at least as long, and then only white space. */
  lemma ClosesIff(line: string, fence: Fence)
    requires fence.In? && FenceChar(fence.ch)
    ensures ClosesFence(TrimmedLine(line), fence) <==> exists k, n, w :: ClosingLine(line, k, fence, n, w)
  {
    hide TrimmedLine, FenceLine, RunOf, TrimStart, TrimEnd, IsSpace;
    if k, n, w :| ClosingLine(line, k, fence, n, w) {
      FenceLineLong(line, k, fence.ch, n, w);
      FenceLineTrimmed(line, k, fence.ch, n, w);
      AllSpaceIff(w);
      TrimEndOfRun(fence.ch, n, w);
    }
    if ClosesFence(TrimmedLine(line), fence) {
      var k, w := TrimmedIsFenceLine(line, fence.ch);
      var n := RunOf(TrimmedLine(line), fence.ch);
      assert TrimmedLine(line)[n..] == w;
      AllSpaceIff(w);
      TrimEndOfRun(fence.ch, n, w);
      assert ClosingLine(line, k, fence, n, w);
    }
  }

  ghost predicate FenceShape(fence: Fence) {
    fence.In? ==> FenceChar(fence.ch) && fence.len >= 3
  }

  lemma {:induction false} FenceHasShape(lines: seq<string>, i: nat)
    requires i <= |lines|
    ensures FenceShape(FenceBefore(lines, i))
    decreases i
  {
    hide TrimmedLine, RunOf, ClosesFence;
    if i > 0 {
      FenceHasShape(lines, i - 1);
    }
  }

  function GitLines(): seq<string> {
    [GIT_START, SEPARATOR, GIT_END]
  }

  /** A line that begins with none of a space and the fence characters. */
  predicate NoFenceLine(line: string) {
    line == "" || !(line[0] in " `~")
  }

  lemma NoFenceLineStep(line: string, fence: Fence)
    requires NoFenceLine(line) && FenceShape(fence)
    ensures FenceStep(fence, line) == fence
    ensures fence.In? ==> !ClosesFence(TrimmedLine(line), fence)
  {
    var stripped := StripTrailingCR(line);
    assert stripped != "" ==> stripped[0] == line[0];
    assert RunOf(stripped, '`') == 0 && RunOf(stripped, '~') == 0;
  }

  /** The git hunk `GitLines()` from line `p` on, and nothing but an empty line behind it. */
  ghost predicate GitAt(lines: seq<string>, p: nat) {
    && |lines| == p + 4 && lines[p] == GIT_START && lines[p + 1] == SEPARATOR
    && lines[p + 2] == GIT_END && lines[p + 3] == ""
  }

  lemma FenceOverGit(lines: seq<string>, p: nat, k: nat)
    requires GitAt(lines, p) && k <= 4
    ensures FenceBefore(lines, p + k) == FenceBefore(lines, p)
    ensures k < 4 ==> Fenced(lines, p + k) == FenceBefore(lines, p).In?
    decreases k
  {
    hide FenceStep, ClosesFence, TrimmedLine;
    FenceHasShape(lines, p);
    if k > 0 {
      FenceOverGit(lines, p, k - 1);
      NoFenceLineStep(lines[p + (k - 1)], FenceBefore(lines, p));
      assert p + k - 1 == p + (k - 1);
    }
    if k < 4 {
      NoFenceLineStep(lines[p + k], FenceBefore(lines, p));
    }
  }

  lemma GitLineKinds()
    ensures KindOf(MatchStart(GIT_START)) == Some(Git)
    ensures MatchStart(SEPARATOR).None? && MatchBase(SEPARATOR).None? && IsSeparator(SEPARATOR)
    ensures MatchStart(GIT_END).None? && KindOf(MatchEnd(GIT_END)) == Some(Git)
    ensures MatchStart("").None?
  {
  }

  lemma GitKindAt(lines: seq<string>, p: nat, k: nat)
    requires GitAt(lines, p) && k < 4
    ensures DocKinds(lines)[p + k] == Classify(lines[p + k], FenceBefore(lines, p).In?)
  {
    hide MatchMarker, FenceMask, Fenced, FenceBefore, DocKinds;
    FenceOverGit(lines, p, k);
    KindAt(lines, p + k);
  }

  /** Not fenced, the git hunk is found; fenced, it is not. */
  lemma GitFoundIff(lines: seq<string>, p: nat)
    requires GitAt(lines, p)
    ensures Frames(DocKinds(lines), p) != [] <==> FenceBefore(lines, p).NoFence?
  {
    hide MatchMarker, FenceBefore, DocKinds, IsSeparator, AtLine, Frames;
    var ks := DocKinds(lines);
    GitLineKinds();
    GitKindAt(lines, p, 0);
    GitKindAt(lines, p, 1);
    GitKindAt(lines, p, 2);
    GitKindAt(lines, p, 3);
    if FenceBefore(lines, p).NoFence? {
      UnfencedGit(ks, p);
      FramesStep(ks, p);
    } else {
      FencedGit(ks, p);
    }
  }

  lemma UnfencedGit(ks: seq<LineKind>, p: nat)
    requires |ks| == p + 4 && ks[p].start == Some(Git) && !ks[p].fenced
    requires ks[p + 1].start.None? && ks[p + 1].separator && !ks[p + 1].fenced && ks[p + 1].base.None?
    requires ks[p + 2].start.None? && ks[p + 2].end == Some(Git) && !ks[p + 2].fenced
    ensures AtLine(ks, p).Take?
  {
    assert Scan(ks, p + 1, true, Want(Some(Git), true)) == Sep(p + 1);
    assert Scan(ks, p + 2, true, WantEnd(Git)) == Found(p + 2);
  }

  lemma {:induction false} NoneCounts(ks: seq<LineKind>, n: nat)
    requires n <= |ks| && forall i :: n <= i < |ks| ==> !Counts(ks[i])
    ensures Frames(ks, n) == []
    decreases |ks| - n
  {
    hide Frames;
    FramesStep(ks, n);
    if n < |ks| {
      NoneCounts(ks, n + 1);
    }
  }

  lemma FencedGit(ks: seq<LineKind>, p: nat)
    requires |ks| == p + 4 && ks[p].start == Some(Git) && ks[p].fenced
    requires ks[p + 1].start.None? && ks[p + 2].start.None? && ks[p + 3].start.None?
    ensures Frames(ks, p) == []
  {
    hide Frames;
    NoneCounts(ks, p);
  }

  /** A line that closes one of two fences only, where both are open, and a git hunk. */
  function Telling(fence: Fence, fence': Fence): seq<string> {
    (if fence.NoFence? || fence'.NoFence? then []
     else if fence.ch != fence'.ch || fence.len < fence'.len then [Repeat(fence.ch, fence.len)]
     else [Repeat(fence'.ch, fence'.len)])
    + GitLines() + [""]
  }

  lemma BehindFenceLine(lines: seq<string>, p: nat, ch: char, n: nat)
    requires FenceChar(ch) && n >= 3 && p < |lines| && lines[p] == Repeat(ch, n) && GitAt(lines, p + 1)
    requires FenceBefore(lines, p).In?
    ensures Frames(DocKinds(lines), p) != [] <==> ch == FenceBefore(lines, p).ch && FenceBefore(lines, p).len <= n
  {
    hide MatchMarker, DocKinds, Frames, ClosesFence, TrimmedLine, FenceMask, FenceBefore, OpenFence;
    RepeatCloses(ch, n, FenceBefore(lines, p));
    NextFence(lines, p);
    GitFoundIff(lines, p + 1);
    RepeatIsNoStart(ch, n);
    StepOverPlain(lines, p);
  }

  lemma StepOverPlain(lines: seq<string>, p: nat)
    requires p < |lines| && MatchStart(lines[p]).None?
    ensures Frames(DocKinds(lines), p) == Frames(DocKinds(lines), p + 1)
  {
    hide MatchMarker, DocKinds, Frames, FenceMask;
    KindAt(lines, p);
    FramesStep(DocKinds(lines), p);
  }

  lemma RepeatIsNoStart(ch: char, n: nat)
    requires FenceChar(ch)
    ensures MatchStart(Repeat(ch, n)).None?
  {
    var line := Repeat(ch, n);
    assert StripTrailingCR(line) == line;
    assert SB_START[0] == GIT_START[0] == '<';
    assert |line| >= |GIT_START| ==> line[..|GIT_START|][0] == line[0];
    assert |line| >= |SB_START| ==> line[..|SB_START|][0] == line[0];
  }

  /** With two different fences in front of them, the same lines have a hunk in one place only. */
  lemma TellsApart(lines: seq<string>, p: nat, lines': seq<string>, p': nat)
    requires p <= |lines| && p' <= |lines'|
    requires var fence, fence' := FenceBefore(lines, p), FenceBefore(lines', p');
      fence != fence' && lines[p..] == lines'[p'..] == Telling(fence, fence')
    ensures Frames(DocKinds(lines), p) != [] <==> Frames(DocKinds(lines'), p') == []
  {
    hide DocKinds, Frames, FenceBefore;
    FenceHasShape(lines, p);
    FenceHasShape(lines', p');
    var fence, fence' := FenceBefore(lines, p), FenceBefore(lines', p');
    if fence.NoFence? || fence'.NoFence? {
      TailIs(lines, p, []);
      TailIs(lines', p', []);
      GitFoundIff(lines, p);
      GitFoundIff(lines', p');
    } else {
      var one := if fence.ch != fence'.ch || fence.len < fence'.len then fence else fence';
      TailIs(lines, p, [Repeat(one.ch, one.len)]);
      TailIs(lines', p', [Repeat(one.ch, one.len)]);
      BehindFenceLine(lines, p, one.ch, one.len);
      BehindFenceLine(lines', p', one.ch, one.len);
    }
  }

  lemma TailIs(lines: seq<string>, p: nat, line: seq<string>)
    requires p <= |lines| && |line| <= 1 && lines[p..] == line + GitLines() + [""]
    ensures GitAt(lines, p + |line|) && (line != [] ==> lines[p] == line[0])
  {
    var tail := lines[p..];
    assert forall k :: 0 <= k < |tail| ==> lines[p + k] == tail[k];
    assert tail[|line|] == GIT_START && tail[|line| + 1] == SEPARATOR;
    assert tail[|line| + 2] == GIT_END && tail[|line| + 3] == "";
  }

  // ----- The exact condition -----

  /** With `back` behind it, replacing the `i`-th hunk of `front` leaves exactly the others. */
  ghost predicate KeepsOthers(front: seq<string>, i: nat, with: seq<string>, back: seq<string>)
    requires i < |Frames(DocKinds(front), 0)|
  {
    var f, fs := Frames(DocKinds(front), 0)[i], Frames(DocKinds(front + back), 0);
    && f.start <= f.end < |front| && i < |fs| && fs[i] == f
    && WithoutFrame(fs, i, Frames(DocKinds(ReplaceFrame(front + back, f, with)), 0), f.end + 1, f.start + |with|)
  }

  /** A hunk at the end of some lines is found with any lines behind them. */
  lemma FrameExtends(front: seq<string>, i: nat, back: seq<string>)
    requires i < |Frames(DocKinds(front), 0)| && Frames(DocKinds(front), 0)[i].end + 1 == |front|
    ensures var fs, gs := Frames(DocKinds(front), 0), Frames(DocKinds(front + back), 0);
      i < |gs| && gs[i] == fs[i] && gs[i + 1..] == Frames(DocKinds(front + back), |front|)
  {
    hide DocKinds, Frames, FramesUntil, Alike, Counts, AtLine, FrameIn, MovedFrame;
    var lines := front + back;
    var ks, js := DocKinds(front), DocKinds(lines);
    var f := Frames(ks, 0)[i];
    FrameTaken(ks, i);
    FrameReached(ks, 0, i);
    assert FrameIn(f, ks);
    FrameBounds(ks, f);
    assert lines[..|front|] == front == front[..|front|];
    AlikeFront(front, lines, |front|);
    AlikeFrom(ks, 0, js, 0, |front|, f.start);
    AtLineMoved(ks, f.start, js, f.start, |front| - f.start);
    NotMoved(f, AtLine(js, f.start).frame, f.start);
    assert lines[..f.start] == front[..f.start];
    AlikeFront(front, lines, f.start);
    UntilMoved(ks, js, 0, f.start);
    FramesFromUntil(js, 0, f.start);
    FramesStep(js, f.start);
    var front_, rest := FramesUntil(js, 0, f.start).value, Frames(js, f.end + 1);
    assert Frames(js, 0) == front_ + ([f] + rest);
  }

  /** The main result: a hunk can be replaced by lines without start markers and the others are
      kept, whatever stands behind it, exactly if the fence open behind it stays the same. */
  lemma KeepsOthersIff(front: seq<string>, i: nat, with: seq<string>)
    requires i < |Frames(DocKinds(front), 0)| && Frames(DocKinds(front), 0)[i].end + 1 == |front|
    requires forall k :: 0 <= k < |with| ==> MatchStart(with[k]).None?
    ensures Frames(DocKinds(front), 0)[i].start < |front|
    ensures var replaced := front[..Frames(DocKinds(front), 0)[i].start] + with;
      (forall back :: back != [] ==> KeepsOthers(front, i, with, back)) <==>
        FenceBefore(front, |front|) == FenceBefore(replaced, |replaced|)
  {
    hide DocKinds, Frames, FenceBefore, MatchMarker, FrameIn, KeepsOthers;
    var f := Frames(DocKinds(front), 0)[i];
    assert FrameIn(f, DocKinds(front));
    FrameBounds(DocKinds(front), f);
    var replaced := front[..f.start] + with;
    var fence, fence' := FenceBefore(front, |front|), FenceBefore(replaced, |replaced|);
    if fence == fence' {
      forall back: seq<string> | back != []
        ensures KeepsOthers(front, i, with, back)
      {
        SameFenceKeeps(front, i, with, back);
      }
    } else {
      OtherFenceLoses(front, i, with);
    }
  }

  lemma FenceOfFront(front: seq<string>, back: seq<string>)
    ensures FenceBefore(front + back, |front|) == FenceBefore(front, |front|)
  {
    hide FenceBefore;
    assert (front + back)[0..0 + |front|] == front == front[0..0 + |front|];
    StartOfText(front + back, front);
    SameFence(front + back, 0, front, 0, |front|, |front|);
  }

  lemma ReplacedIs(front: seq<string>, f: Frame, with: seq<string>, back: seq<string>)
    requires f.start <= f.end && f.end + 1 == |front| && back != []
    ensures ReplaceFrame(front + back, f, with) == front[..f.start] + with + back
  {
  }

  lemma KeptInFrontOf(front: seq<string>, f: Frame, with: seq<string>, back: seq<string>)
    requires f.start <= f.end && f.end + 1 == |front| && back != []
    requires var replaced := front[..f.start] + with; FenceBefore(front, |front|) == FenceBefore(replaced, |replaced|)
    ensures FenceKept(front + back, f, with)
  {
    hide FenceBefore, FencedAlike;
    var replaced := front[..f.start] + with;
    ReplacedIs(front, f, with, back);
    FenceOfFront(front, back);
    FenceOfFront(replaced, back);
    AlikeByFence(front + back, |front|, replaced + back, |replaced|);
  }

  lemma SameFenceKeeps(front: seq<string>, i: nat, with: seq<string>, back: seq<string>)
    requires i < |Frames(DocKinds(front), 0)| && Frames(DocKinds(front), 0)[i].end + 1 == |front| && back != []
    requires forall k :: 0 <= k < |with| ==> MatchStart(with[k]).None?
    requires Frames(DocKinds(front), 0)[i].start < |front|
    requires var replaced := front[..Frames(DocKinds(front), 0)[i].start] + with;
      FenceBefore(front, |front|) == FenceBefore(replaced, |replaced|)
    ensures KeepsOthers(front, i, with, back)
  {
    hide DocKinds, Frames, FenceBefore, MatchMarker, FrameIn, WithoutFrame, FenceKept, ReplaceFrame;
    var lines, f := front + back, Frames(DocKinds(front), 0)[i];
    assert FrameIn(f, DocKinds(front));
    FrameBounds(DocKinds(front), f);
    FrameExtends(front, i, back);
    KeptInFrontOf(front, f, with, back);
    ReplaceFrameKeepsOthers(lines, i, with);
  }

  lemma OtherFenceLoses(front: seq<string>, i: nat, with: seq<string>)
    requires i < |Frames(DocKinds(front), 0)| && Frames(DocKinds(front), 0)[i].end + 1 == |front|
    requires forall k :: 0 <= k < |with| ==> MatchStart(with[k]).None?
    requires Frames(DocKinds(front), 0)[i].start < |front|
    requires var replaced := front[..Frames(DocKinds(front), 0)[i].start] + with;
      FenceBefore(front, |front|) != FenceBefore(replaced, |replaced|)
    ensures exists back :: back != [] && !KeepsOthers(front, i, with, back)
  {
    hide DocKinds, Frames, FenceBefore, MatchMarker, FrameIn, MovedFrame;
    var f := Frames(DocKinds(front), 0)[i];
    assert FrameIn(f, DocKinds(front));
    FrameBounds(DocKinds(front), f);
    var replaced := front[..f.start] + with;
    var back := Telling(FenceBefore(front, |front|), FenceBefore(replaced, |replaced|));
    var lines, lines' := front + back, replaced + back;
    FrameExtends(front, i, back);
    ReplacedIs(front, f, with, back);
    FenceOfFront(front, back);
    FenceOfFront(replaced, back);
    assert lines[|front|..] == back == lines'[|replaced|..];
    TellsApart(lines, |front|, lines', |replaced|);
    ReplacedFrames(lines, i, with);
    assert !KeepsOthers(front, i, with, back);
  }

  // ----- A hunk that opens a fence -----

  /** An SB hunk whose first version is a line that opens a fence; the other versions are empty. */
  function OpeningHunk(): seq<string> {
    [SB_START, "```", SB_BASE, SEPARATOR, SB_END]
  }

  /** Only this hunk is found in front of a git hunk, which the open fence hides; once the hunk is
      resolved to its second version, which is nothing, the git hunk is found. */
  lemma FenceInsideHunk()
    ensures Frames(DocKinds(OpeningHunk() + (GitLines() + [""])), 0) == [Frame(Sb, 0, Some(2), 3, 4)]
    ensures MarkersIn(Frame(Sb, 0, Some(2), 3, 4), OpeningHunk())
    ensures ResolutionLines(OpeningHunk(), Frame(Sb, 0, Some(2), 3, 4), TakeSecond) == Some([])
    ensures Frames(DocKinds(GitLines() + [""]), 0) != []
  {
    hide MatchMarker, DocKinds, Frames, AtLine, FenceBefore, OpeningHunk, Printed, Printable, MarkersIn, HunkOf,
      ResolutionLines;
    var c := Conflict("", ["```"], "", [], "", []);
    var back := GitLines() + [""];
    OpeningIsPrinted(c);
    OpeningResolves();
    OpeningFound(c, OpeningHunk(), back);
    StartOfText(back, back);
    GitFoundIff(back, 0);
  }

  lemma OpeningResolves()
    requires MarkersIn(Frame(Sb, 0, Some(2), 3, 4), OpeningHunk())
    ensures ResolutionLines(OpeningHunk(), Frame(Sb, 0, Some(2), 3, 4), TakeSecond) == Some([])
  {
    assert OpeningHunk()[4..4] == [];
  }

  lemma GitBehind(front: seq<string>, back: seq<string>)
    requires GitAt(back, 0)
    ensures GitAt(front + back, |front|)
  {
    assert forall k :: 0 <= k < 4 ==> (front + back)[|front| + k] == back[k];
  }

  lemma OpeningFound(c: Conflict, front: seq<string>, back: seq<string>)
    requires Printable(c) && Printed(c) == front && |front| == 5 && front == OpeningHunk() && GitAt(back, 0)
    requires PrintedFrame(0, c) == Frame(Sb, 0, Some(2), 3, 4)
    ensures Frames(DocKinds(front + back), 0) == [Frame(Sb, 0, Some(2), 3, 4)]
  {
    hide MatchMarker, DocKinds, Frames, AtLine, FenceBefore, OpeningHunk, Printed, Printable, MarkersIn, HunkOf,
      ReadsAs, GitAt;
    var lines := front + back;
    PrintedStands([], c, back);
    assert [] + Printed(c) + back == lines;
    FramesStep(DocKinds(lines), 0);
    FenceBehindOpening(lines);
    GitBehind(front, back);
    GitFoundIff(lines, 5);
  }

  lemma OpeningIsPrinted(c: Conflict)
    requires c == Conflict("", ["```"], "", [], "", [])
    ensures Printable(c) && Printed(c) == OpeningHunk()
    ensures |OpeningHunk()| == 5 && PrintedFrame(0, c) == Frame(Sb, 0, Some(2), 3, 4)
    ensures MarkersIn(Frame(Sb, 0, Some(2), 3, 4), OpeningHunk())
  {
    NotAStart("```");
    PrintedOpening(c);
    assert Printed(c)[0..0 + |Printed(c)|] == Printed(c);
    PrintedHunk(Printed(c), 0, c);
  }

  lemma PrintedOpening(c: Conflict)
    requires c == Conflict("", ["```"], "", [], "", [])
    ensures Printed(c) == OpeningHunk()
  {
    assert SB_START + "" == SB_START && SB_BASE + "" == SB_BASE && SB_END + "" == SB_END;
  }

  lemma FenceBehindOpening(lines: seq<string>)
    requires |lines| >= 5 && lines[..5] == OpeningHunk()
    ensures FenceBefore(lines, 5) == In('`', 3)
  {
    hide FenceBefore;
    assert forall k :: 0 <= k < 5 ==> lines[k] == lines[..5][k];
    OpensAtSecond(lines);
  }

  lemma OpensAtSecond(lines: seq<string>)
    requires |lines| >= 5 && lines[1] == "```"
    requires NoFenceLine(lines[0]) && NoFenceLine(lines[2]) && NoFenceLine(lines[3]) && NoFenceLine(lines[4])
    ensures FenceBefore(lines, 5) == In('`', 3)
  {
    hide FenceStep, FenceBefore, NoFenceLine;
    StartOfText(lines, lines);
    NextFence(lines, 0);
    NoFenceLineStep(lines[0], NoFence);
    NextFence(lines, 1);
    BackticksOpen();
    NextFence(lines, 2);
    NoFenceLineStep(lines[2], In('`', 3));
    NextFence(lines, 3);
    NoFenceLineStep(lines[3], In('`', 3));
    NextFence(lines, 4);
    NoFenceLineStep(lines[4], In('`', 3));
  }

  lemma NextFence(lines: seq<string>, i: nat)
    requires i < |lines|
    ensures FenceBefore(lines, i + 1) == FenceStep(FenceBefore(lines, i), lines[i])
  {
  }

  lemma BackticksOpen()
    ensures FenceStep(NoFence, "```") == In('`', 3)
  {
    assert Repeat('`', 3) == "```";
    TrimmedRepeat('`', 3);
    RunOfRepeat('`', 3, '`');
  }
}
