/** Resolving hunks one at a time: `resolveHunk` in `client/codemirror/conflict_markers.ts`,
    and what it means for a later `findConflictHunks`. */
module ConflictResolution {
  import opened TextLines
  import opened Changes
  import opened ConflictMarkers
  import opened Options

  datatype Action = TakeFirst | TakeSecond | TakeBoth | TakeBase

  /** `None` where the source throws. */
  function ResolveHunk(hunk: Hunk, action: Action): Option<Change>
  {
    match action
    case TakeFirst => Some(Change(hunk.from, hunk.to, hunk.first.text))
    case TakeSecond => Some(Change(hunk.from, hunk.to, hunk.second.text))
    case TakeBoth => Some(Change(hunk.from, hunk.to, hunk.first.text + hunk.second.text))
    case TakeBase => if hunk.base.None? then None else Some(Change(hunk.from, hunk.to, hunk.base.value.text))
  }

  // ----- Scans depend only on the lines they pass -----

  /** No git start marker: then fences play no part. */
  ghost predicate SbOnly(kinds: seq<LineKind>) {
    forall i :: 0 <= i < |kinds| ==> kinds[i].start != Some(Git)
  }

  /** From `i` in one document and `j` in the other, `m` lines look alike to a scan that respects
      fences, or to one that does not. */
  ghost predicate AlikeTo(ks: seq<LineKind>, i: nat, js: seq<LineKind>, j: nat, m: nat, respect: bool) {
    && i + m <= |ks| && j + m <= |js|
    && forall k :: i <= k < i + m ==> SameMarkers(ks[k], js[k - i + j], respect)
  }

  ghost predicate SameMarkers(k: LineKind, k': LineKind, respect: bool) {
    k'.(fenced := k.fenced) == k && (respect ==> k'.fenced == k.fenced)
  }

  /** Alike to every scan that the two documents call for. */
  ghost predicate Alike(ks: seq<LineKind>, i: nat, js: seq<LineKind>, j: nat, m: nat) {
    AlikeTo(ks, i, js, j, m, true) || (SbOnly(ks) && SbOnly(js) && AlikeTo(ks, i, js, j, m, false))
  }

  /** The same result, for a scan that began at `j` instead of `i`. */
  ghost predicate MovedResult(r: ScanResult, r': ScanResult, i: nat, j: nat) {
    match r
    case Found(line) => r'.Found? && r'.line + i == line + j
    case Sep(line) => r'.Sep? && r'.line + i == line + j
    case Nested(line) => r'.Nested? && r'.line + i == line + j
    case Missing => r'.Missing?
  }

  ghost predicate MovedFrame(f: Frame, f': Frame, i: nat, j: nat) {
    && f'.kind == f.kind && f'.start + i == f.start + j && f'.sep + i == f.sep + j && f'.end + i == f.end + j
    && f'.base.Some? == f.base.Some?
    && (f.base.Some? ==> f'.base.value + i == f.base.value + j)
  }

  lemma {:induction false} ScanMoved(ks: seq<LineKind>, i: nat, js: seq<LineKind>, j: nat, m: nat, respect: bool,
                                     want: Want)
    requires AlikeTo(ks, i, js, j, m, respect)
    ensures var r := Scan(ks, i, respect, want);
      && (!r.Missing? && r.line < i + m ==> MovedResult(r, Scan(js, j, respect, want), i, j))
      && (r.Missing? && |ks| == i + m && |js| == j + m ==> Scan(js, j, respect, want).Missing?)
    decreases m
  {
    if m > 0 {
      assert SameMarkers(ks[i], js[j], respect);
      if Look(ks[i], i, respect, want).Missing? {
        ScanMoved(ks, i + 1, js, j + 1, m - 1, respect, want);
      }
    }
  }

  /** `o` is an outcome at line `n`; `o'` is what it must be at line `p` of a document that
      agrees on `m` lines. Both documents may end there. */
  ghost predicate MovedOutcome(o: Outcome, o': Outcome, n: nat, p: nat, m: nat, ends: bool) {
    match o
    case Take(f) => f.end < n + m ==> o'.Take? && MovedFrame(f, o'.frame, n, p)
    case Skip(next) =>
      && (n + 1 < next <= n + m ==> o'.Skip? && o'.next + n == next + p)
      && (next == n + 1 && ends ==> o' == Skip(p + 1))
  }

  /** The outcome at an SB start is settled by the lines the scans pass. */
  lemma SbFrameMoved(ks: seq<LineKind>, n: nat, js: seq<LineKind>, p: nat, m: nat)
    requires AlikeTo(ks, n, js, p, m, false) && 0 < m
    ensures MovedOutcome(SbFrame(ks, n), SbFrame(js, p), n, p, m, |ks| == n + m && |js| == p + m)
  {
    hide Look, AlikeTo, Scan;
    AlikeToFrom(ks, n, js, p, m, false, n + 1);
    ScanMoved(ks, n + 1, js, p + 1, m - 1, false, Want(Some(Sb), false));
    var base := Scan(ks, n + 1, false, Want(Some(Sb), false));
    if base.Found? && base.line < n + m {
      var d := base.line + 1 - n;
      AlikeToFrom(ks, n, js, p, m, false, n + d);
      ScanMoved(ks, n + d, js, p + d, m - d, false, Want(None, true));
      var sep := Scan(ks, base.line + 1, false, Want(None, true));
      if sep.Sep? && sep.line < n + m {
        var e := sep.line + 1 - n;
        AlikeToFrom(ks, n, js, p, m, false, n + e);
        ScanMoved(ks, n + e, js, p + e, m - e, false, WantEnd(Sb));
      }
    }
  }

  /** The same at an unfenced git start, where the lines must be fenced alike, too. */
  lemma GitFrameMoved(ks: seq<LineKind>, n: nat, js: seq<LineKind>, p: nat, m: nat)
    requires AlikeTo(ks, n, js, p, m, true) && 0 < m
    ensures MovedOutcome(GitFrame(ks, n), GitFrame(js, p), n, p, m, |ks| == n + m && |js| == p + m)
  {
    hide Look, AlikeTo, Scan, GitFrameEnd;
    AlikeToFrom(ks, n, js, p, m, true, n + 1);
    ScanMoved(ks, n + 1, js, p + 1, m - 1, true, Want(Some(Git), true));
    var first, first' := Scan(ks, n + 1, true, Want(Some(Git), true)), Scan(js, p + 1, true, Want(Some(Git), true));
    if !first.Missing? && first.line < n + m {
      if first.Found? {
        var d := first.line + 1 - n;
        AlikeToFrom(ks, n, js, p, m, true, n + d);
        ScanMoved(ks, n + d, js, p + d, m - d, true, Want(None, true));
        ScanNeverFinds(ks, n + d);
        GitFrameEndMoved(ks, n, js, p, m, Some(first.line), Some(first'.line),
                         Scan(ks, n + d, true, Want(None, true)), Scan(js, p + d, true, Want(None, true)));
      } else if first.Sep? {
        GitFrameEndMoved(ks, n, js, p, m, None, None, first, first');
      }
    } else {
      GitFrameEndsLate(ks, n, m);
    }
  }

  /** A scan for a separator alone finds no base marker. */
  lemma ScanNeverFinds(ks: seq<LineKind>, i: nat)
    ensures !Scan(ks, i, true, Want(None, true)).Found?
  {
    hide Scan;
    ScanFinds(ks, i, true, Want(None, true));
  }

  lemma GitFrameEndsLate(ks: seq<LineKind>, n: nat, m: nat)
    requires var first := Scan(ks, n + 1, true, Want(Some(Git), true)); !first.Missing? ==> n + m <= first.line
    requires n < |ks|
    ensures match GitFrame(ks, n)
      case Take(f) => n + m <= f.end
      case Skip(next) => next == n + 1 || n + m < next
  {
    hide Scan;
  }

  lemma GitFrameEndMoved(ks: seq<LineKind>, n: nat, js: seq<LineKind>, p: nat, m: nat, base: Option<nat>,
                         base': Option<nat>, sep: ScanResult, sep': ScanResult)
    requires AlikeTo(ks, n, js, p, m, true) && 0 < m && base.Some? == base'.Some?
    requires base.Some? ==> base'.value + n == base.value + p
    requires !sep.Missing? ==> n < sep.line < |ks|
    requires !sep.Missing? && sep.line < n + m ==> MovedResult(sep, sep', n, p)
    requires sep.Missing? && |ks| == n + m && |js| == p + m ==> sep'.Missing?
    ensures MovedOutcome(GitFrameEnd(ks, n, base, sep), GitFrameEnd(js, p, base', sep'), n, p, m,
                         |ks| == n + m && |js| == p + m)
  {
    hide Look, AlikeTo, Scan;
    if sep.Sep? && sep.line < n + m {
      var e := sep.line + 1 - n;
      AlikeToFrom(ks, n, js, p, m, true, n + e);
      ScanMoved(ks, n + e, js, p + e, m - e, true, WantEnd(Git));
    }
  }

  /** Whatever the line is. */
  lemma AtLineMoved(ks: seq<LineKind>, n: nat, js: seq<LineKind>, p: nat, m: nat)
    requires Alike(ks, n, js, p, m) && 0 < m
    ensures MovedOutcome(AtLine(ks, n), AtLine(js, p), n, p, m, |ks| == n + m && |js| == p + m)
    ensures Counts(ks[n]) == Counts(js[p])
    ensures !Counts(ks[n]) ==> AtLine(ks, n) == Skip(n + 1) && AtLine(js, p) == Skip(p + 1)
  {
    hide SbFrame, GitFrame, AlikeTo;
    AlikeAt(ks, n, js, p, m);
    match ks[n].start
    case None =>
    case Some(Git) =>
      if !ks[n].fenced {
        GitFrameMoved(ks, n, js, p, m);
      }
    case Some(Sb) =>
      SbFrameMoved(ks, n, js, p, m);
  }

  ghost predicate MovedFrames(fs: seq<Frame>, fs': seq<Frame>, i: nat, j: nat) {
    |fs'| == |fs| && forall k :: 0 <= k < |fs| ==> MovedFrame(fs[k], fs'[k], i, j)
  }

  lemma SameShift(fs: seq<Frame>, fs': seq<Frame>, i: nat, j: nat, m: nat, n: nat)
    requires MovedFrames(fs, fs', i, j) && i + n == m + j
    ensures MovedFrames(fs, fs', m, n)
  {
  }

  lemma OneMoreMoved(f: Frame, f': Frame, fs: seq<Frame>, fs': seq<Frame>, i: nat, j: nat)
    requires MovedFrame(f, f', i, j) && MovedFrames(fs, fs', i, j)
    ensures MovedFrames([f] + fs, [f'] + fs', i, j)
  {
  }

  /** What follows a point is found wherever it stands. */
  lemma {:induction false} FramesMoved(ks: seq<LineKind>, n: nat, js: seq<LineKind>, p: nat)
    requires n <= |ks| && p <= |js| && |ks| - n == |js| - p
    requires Alike(ks, n, js, p, |ks| - n)
    ensures MovedFrames(Frames(ks, n), Frames(js, p), n, p)
    decreases |ks| - n, 0
  {
    hide FrameIn, AtLine, Frames, Alike, MovedFrames, MovedFrame;
    FramesStep(ks, n);
    FramesStep(js, p);
    if n == |ks| {
      NoneMoved(n, p);
    } else {
      OutcomeMoved(ks, n, js, p);
      match AtLine(ks, n)
      case Skip(next) =>
        RestMoved(ks, n, js, p, next);
      case Take(f) =>
        var f' := AtLine(js, p).frame;
        MovedEnd(f, f', n, p);
        RestMoved(ks, n, js, p, f.end + 1);
        OneMoreMoved(f, f', Frames(ks, f.end + 1), Frames(js, f'.end + 1), n, p);
    }
  }

  lemma OutcomeMoved(ks: seq<LineKind>, n: nat, js: seq<LineKind>, p: nat)
    requires n < |ks| && p < |js| && |ks| - n == |js| - p
    requires Alike(ks, n, js, p, |ks| - n)
    ensures var o, o' := AtLine(ks, n), AtLine(js, p);
      match o
      case Skip(next) => n < next <= |ks| && o' == Skip(next - n + p)
      case Take(f) => o'.Take? && MovedFrame(f, o'.frame, n, p) && n <= f.end < |ks|
  {
    hide FrameIn, AtLine, Alike, MovedFrame;
    AtLineMakesProgress(ks, n);
    AtLineMoved(ks, n, js, p, |ks| - n);
    if AtLine(ks, n).Take? {
      FrameBounds(ks, AtLine(ks, n).frame);
    }
  }

  lemma {:induction false} RestMoved(ks: seq<LineKind>, n: nat, js: seq<LineKind>, p: nat, next: nat)
    requires n < next <= |ks| && p <= |js| && |ks| - n == |js| - p
    requires Alike(ks, n, js, p, |ks| - n)
    ensures MovedFrames(Frames(ks, next), Frames(js, next - n + p), n, p)
    decreases |ks| - next, 1
  {
    hide Frames, Alike, MovedFrames;
    AlikeFrom(ks, n, js, p, |ks| - n, next);
    FramesMoved(ks, next, js, next - n + p);
    SameShift(Frames(ks, next), Frames(js, next - n + p), next, next - n + p, n, p);
  }

  lemma NoneMoved(i: nat, j: nat)
    ensures MovedFrames([], [], i, j)
  {
  }

  lemma MovedEnd(f: Frame, f': Frame, i: nat, j: nat)
    requires MovedFrame(f, f', i, j)
    ensures f'.end + i == f.end + j
  {
  }

  lemma FramesStep(ks: seq<LineKind>, n: nat)
    ensures Frames(ks, n) == if n >= |ks| then [] else
      match AtLine(ks, n)
      case Take(f) => [f] + Frames(ks, f.end + 1)
      case Skip(next) => Frames(ks, next)
  {
  }

  lemma AlikeAt(ks: seq<LineKind>, i: nat, js: seq<LineKind>, j: nat, m: nat)
    requires Alike(ks, i, js, j, m) && m > 0
    ensures i < |ks| && j < |js| && AlikeTo(ks, i, js, j, m, false) && SameMarkers(ks[i], js[j], false)
    ensures ks[i].start == Some(Git) ==> AlikeTo(ks, i, js, j, m, true) && SameMarkers(ks[i], js[j], true)
  {
  }

  lemma AlikeToFrom(ks: seq<LineKind>, i: nat, js: seq<LineKind>, j: nat, m: nat, respect: bool, k: nat)
    requires AlikeTo(ks, i, js, j, m, respect) && i <= k <= i + m
    ensures AlikeTo(ks, k, js, k - i + j, i + m - k, respect)
  {
  }

  lemma AlikeFrom(ks: seq<LineKind>, i: nat, js: seq<LineKind>, j: nat, m: nat, k: nat)
    requires Alike(ks, i, js, j, m) && i <= k <= i + m
    ensures Alike(ks, k, js, k - i + j, i + m - k)
  {
    hide AlikeTo;
    if AlikeTo(ks, i, js, j, m, true) {
      AlikeToFrom(ks, i, js, j, m, true, k);
    } else {
      AlikeToFrom(ks, i, js, j, m, false, k);
    }
  }

  lemma FrameBounds(ks: seq<LineKind>, f: Frame)
    requires FrameIn(f, ks)
    ensures f.start < f.sep < f.end < |ks| && (f.base.Some? ==> f.start < f.base.value < f.sep)
    ensures Counts(ks[f.start])
  {
  }

  /** No scan gets past a start marker that counts. */
  lemma ScanStopsAt(ks: seq<LineKind>, i: nat, a: nat, respect: bool, want: Want)
    requires i <= a < |ks| && Counts(ks[a])
    ensures var r := Scan(ks, i, respect, want); !r.Missing? && r.line <= a && (r.line == a ==> r.Nested?)
  {
    ScanFinds(ks, i, respect, want);
    assert Look(ks[a], a, respect, want).Nested?;
  }

  lemma SbSkipsToNested(ks: seq<LineKind>, n: nat, a: nat)
    requires n < a < |ks| && Counts(ks[a])
    ensures SbFrame(ks, n).Skip? ==> n + 1 < SbFrame(ks, n).next
  {
    hide Look, Scan;
    ScanStopsAt(ks, n + 1, a, false, Want(Some(Sb), false));
    var base := Scan(ks, n + 1, false, Want(Some(Sb), false));
    ScanFinds(ks, n + 1, false, Want(Some(Sb), false));
    if base.Found? {
      ScanStopsAt(ks, base.line + 1, a, false, Want(None, true));
      var sep := Scan(ks, base.line + 1, false, Want(None, true));
      ScanKinds(ks, n + 1, base.line + 1);
      if sep.Sep? {
        ScanStopsAt(ks, sep.line + 1, a, false, WantEnd(Sb));
        ScanKinds(ks, sep.line + 1, sep.line + 1);
      }
    } else {
      ScanKinds(ks, n + 1, n + 1);
    }
  }

  lemma GitSkipsToNested(ks: seq<LineKind>, n: nat, a: nat)
    requires n < a < |ks| && Counts(ks[a])
    ensures GitFrame(ks, n).Skip? ==> n + 1 < GitFrame(ks, n).next
  {
    hide Look, Scan, GitFrameEnd;
    ScanStopsAt(ks, n + 1, a, true, Want(Some(Git), true));
    var first := Scan(ks, n + 1, true, Want(Some(Git), true));
    if first.Found? {
      ScanStopsAt(ks, first.line + 1, a, true, Want(None, true));
      ScanNeverFinds(ks, first.line + 1);
      GitEndSkipsToNested(ks, n, Some(first.line), Scan(ks, first.line + 1, true, Want(None, true)), a);
    } else if first.Sep? {
      GitEndSkipsToNested(ks, n, None, first, a);
    }
  }

  lemma GitEndSkipsToNested(ks: seq<LineKind>, n: nat, base: Option<nat>, sep: ScanResult, a: nat)
    requires n < a < |ks| && Counts(ks[a])
    requires (sep.Sep? || sep.Nested?) && n < sep.line <= a && (sep.line == a ==> sep.Nested?)
    ensures GitFrameEnd(ks, n, base, sep).Skip? ==> n + 1 < GitFrameEnd(ks, n, base, sep).next
  {
    hide Look, Scan;
    if sep.Sep? {
      ScanStopsAt(ks, sep.line + 1, a, true, WantEnd(Git));
      ScanFinds(ks, sep.line + 1, true, WantEnd(Git));
      EndScanKinds(ks, sep.line + 1);
    }
  }

  lemma EndScanKinds(ks: seq<LineKind>, i: nat)
    ensures !Scan(ks, i, true, WantEnd(Git)).Sep?
  {
    hide Scan;
    ScanFinds(ks, i, true, WantEnd(Git));
  }

  lemma SkipsToNested(ks: seq<LineKind>, n: nat, a: nat)
    requires n < a < |ks| && Counts(ks[a]) && Counts(ks[n])
    ensures AtLine(ks, n).Skip? ==> n + 1 < AtLine(ks, n).next
  {
    hide SbFrame, GitFrame;
    SbSkipsToNested(ks, n, a);
    GitSkipsToNested(ks, n, a);
  }

  /** Each scan stops only at what it looks for, or at a start. */
  lemma ScanKinds(ks: seq<LineKind>, i: nat, j: nat)
    ensures !Scan(ks, i, false, Want(Some(Sb), false)).Sep?
    ensures !Scan(ks, j, false, Want(None, true)).Found?
    ensures !Scan(ks, j, false, WantEnd(Sb)).Sep?
  {
    hide Scan;
    ScanFinds(ks, i, false, Want(Some(Sb), false));
    ScanFinds(ks, j, false, Want(None, true));
    ScanFinds(ks, j, false, WantEnd(Sb));
  }

  /** Where the loop goes on, and the hunk it has accepted, if any. */
  function NextLine(o: Outcome): nat {
    if o.Skip? then o.next else o.frame.end + 1
  }

  function Accepted(o: Outcome): seq<Frame> {
    if o.Skip? then [] else [o.frame]
  }

  lemma NextLineBounds(ks: seq<LineKind>, n: nat)
    requires n < |ks|
    ensures n < NextLine(AtLine(ks, n)) <= |ks|
  {
    hide AtLine;
    AtLineMakesProgress(ks, n);
  }

  lemma FramesStepOn(ks: seq<LineKind>, n: nat)
    requires n < |ks|
    ensures Frames(ks, n) == Accepted(AtLine(ks, n)) + Frames(ks, NextLine(AtLine(ks, n)))
  {
    hide AtLine, Frames, FrameIn;
    FramesStep(ks, n);
  }

  /** The hunks accepted on the way from line `n` to line `a`; `None` if the loop passes over `a`. */
  function FramesUntil(kinds: seq<LineKind>, n: nat, a: nat): Option<seq<Frame>>
    decreases |kinds| - n
  {
    if n == a then Some([])
    else if n > a || n >= |kinds| then None
    else
      NextLineBounds(kinds, n);
      var rest := FramesUntil(kinds, NextLine(AtLine(kinds, n)), a);
      if rest.None? then None else Some(Accepted(AtLine(kinds, n)) + rest.value)
  }

  lemma UntilStep(ks: seq<LineKind>, n: nat, a: nat)
    requires n < a && n < |ks|
    ensures var rest := FramesUntil(ks, NextLine(AtLine(ks, n)), a);
      FramesUntil(ks, n, a) == if rest.None? then None else Some(Accepted(AtLine(ks, n)) + rest.value)
  {
  }

  lemma {:induction false} FramesFromUntil(ks: seq<LineKind>, n: nat, a: nat)
    requires FramesUntil(ks, n, a).Some?
    ensures Frames(ks, n) == FramesUntil(ks, n, a).value + Frames(ks, a)
    decreases |ks| - n
  {
    hide AtLine, Frames, FramesUntil, FrameIn, Accepted, NextLine;
    if n == a {
      NothingUntil(ks, n);
    } else {
      UntilBounds(ks, n, a);
      UntilStep(ks, n, a);
      NextLineBounds(ks, n);
      FramesStepOn(ks, n);
      var next := NextLine(AtLine(ks, n));
      FramesFromUntil(ks, next, a);
      AssociateSeq(Accepted(AtLine(ks, n)), FramesUntil(ks, next, a).value, Frames(ks, a));
    }
  }

  lemma AssociateSeq(x: seq<Frame>, y: seq<Frame>, z: seq<Frame>)
    ensures x + (y + z) == (x + y) + z
  {
  }

  lemma NothingUntil(ks: seq<LineKind>, n: nat)
    ensures FramesUntil(ks, n, n) == Some([])
  {
  }

  lemma UntilBounds(ks: seq<LineKind>, n: nat, a: nat)
    requires FramesUntil(ks, n, a).Some?
    ensures n <= a && (n < a ==> n < |ks|)
  {
  }

  /** The loop reaches the start of every hunk it accepts. */
  lemma {:induction false} FrameReached(ks: seq<LineKind>, n: nat, i: nat)
    requires i < |Frames(ks, n)|
    ensures FramesUntil(ks, n, Frames(ks, n)[i].start) == Some(Frames(ks, n)[..i])
    decreases |ks| - n
  {
    hide AtLine, Frames, FramesUntil, FrameIn, NextLine;
    if n >= |ks| {
      FramesStep(ks, n);
      assert false;
    }
    FramesStepOn(ks, n);
    NextLineBounds(ks, n);
    var o := AtLine(ks, n);
    var next := NextLine(o);
    if i < |Accepted(o)| {
      AcceptedHere(ks, n);
      NothingUntil(ks, n);
    } else {
      var j := i - |Accepted(o)|;
      FrameReached(ks, next, j);
      BehindFront(Accepted(o), Frames(ks, next), i);
      UntilBounds(ks, next, Frames(ks, next)[j].start);
      UntilStep(ks, n, Frames(ks, n)[i].start);
    }
  }

  lemma AcceptedHere(ks: seq<LineKind>, n: nat)
    requires n < |ks| && |Accepted(AtLine(ks, n))| > 0
    ensures Frames(ks, n)[..0] == [] && Frames(ks, n) != [] && Frames(ks, n)[0].start == n
  {
    hide AtLine, Frames, FrameIn;
    AtLineMakesProgress(ks, n);
    FramesStep(ks, n);
  }

  lemma BehindFront(x: seq<Frame>, y: seq<Frame>, i: nat)
    requires |x| <= i < |x| + |y|
    ensures (x + y)[i] == y[i - |x|] && (x + y)[..i] == x + y[..i - |x|]
  {
  }

  /** Up to a start marker that it reaches, the loop sees only the lines in front of it. */
  lemma {:induction false} UntilMoved(ks: seq<LineKind>, js: seq<LineKind>, n: nat, a: nat)
    requires n <= a < |ks| && Counts(ks[a]) && Alike(ks, n, js, n, a - n)
    requires FramesUntil(ks, n, a).Some?
    ensures FramesUntil(js, n, a) == FramesUntil(ks, n, a)
    decreases a - n
  {
    hide AtLine, FramesUntil, Alike, Counts, FrameIn, NextLine, Accepted;
    if n == a {
      NothingUntil(ks, n);
      NothingUntil(js, n);
    } else {
      AlikeBounds(ks, n, js, n, a - n);
      UntilStep(ks, n, a);
      UntilStep(js, n, a);
      NextLineBounds(ks, n);
      var next := NextLine(AtLine(ks, n));
      UntilBounds(ks, next, a);
      OutcomeUntil(ks, js, n, a);
      AlikeFrom(ks, n, js, n, a - n, next);
      UntilMoved(ks, js, next, a);
    }
  }

  lemma OutcomeUntil(ks: seq<LineKind>, js: seq<LineKind>, n: nat, a: nat)
    requires n < a < |ks| && Counts(ks[a]) && Alike(ks, n, js, n, a - n) && n < |js|
    requires NextLine(AtLine(ks, n)) <= a
    ensures AtLine(js, n) == AtLine(ks, n)
  {
    hide AtLine, Alike, Counts, MovedFrame;
    AtLineMoved(ks, n, js, n, a - n);
    if Counts(ks[n]) {
      SkipsToNested(ks, n, a);
      AtLineMakesProgress(ks, n);
      if AtLine(ks, n).Take? {
        NotMoved(AtLine(ks, n).frame, AtLine(js, n).frame, n);
      }
    }
  }

  lemma AlikeBounds(ks: seq<LineKind>, i: nat, js: seq<LineKind>, j: nat, m: nat)
    requires Alike(ks, i, js, j, m)
    ensures i + m <= |ks| && j + m <= |js|
  {
  }

  lemma NotMoved(f: Frame, f': Frame, n: nat)
    requires MovedFrame(f, f', n, n)
    ensures f' == f
  {
  }

  lemma {:induction false} FramesSkip(ks: seq<LineKind>, n: nat, m: nat)
    requires n <= m <= |ks| && forall i :: n <= i < m ==> ks[i].start.None?
    ensures Frames(ks, n) == Frames(ks, m)
    decreases m - n
  {
    hide Frames;
    if n < m {
      FramesStep(ks, n);
      FramesSkip(ks, n + 1, m);
    }
  }

  lemma FrameTaken(ks: seq<LineKind>, i: nat)
    requires i < |Frames(ks, 0)|
    ensures var fs := Frames(ks, 0); var f := fs[i];
      && f.start < f.end < |ks| && Frames(ks, f.start) == fs[i..] && Frames(ks, f.end + 1) == fs[i + 1..]
      && AtLine(ks, f.start) == Take(f)
  {
    hide AtLine, Frames, FrameIn, FramesUntil;
    var fs := Frames(ks, 0);
    var f := fs[i];
    FrameBounds(ks, f);
    FrameReached(ks, 0, i);
    FramesFromUntil(ks, 0, f.start);
    var from := Frames(ks, f.start);
    assert from == fs[i..];
    FramesStep(ks, f.start);
    AtLineMakesProgress(ks, f.start);
    assert from != [] && from[0] == f;
    if AtLine(ks, f.start).Skip? {
      assert false;
    }
    assert fs[i + 1..] == from[1..];
  }

  // ----- Documents -----

  /** Every start marker is SB's own. */
  ghost predicate SbDocument(lines: seq<string>) {
    forall i :: 0 <= i < |lines| ==> KindOf(MatchStart(lines[i])) != Some(Git)
  }

  lemma KindAt(lines: seq<string>, i: nat)
    requires i < |lines|
    ensures DocKinds(lines)[i] == Classify(lines[i], FenceMask(lines)[i]) && FenceMask(lines)[i] == Fenced(lines, i)
  {
  }

  lemma SbDocumentKinds(lines: seq<string>)
    requires SbDocument(lines)
    ensures SbOnly(DocKinds(lines))
  {
  }

  /** From here on the two documents are fenced alike, or no fence matters. */
  ghost predicate FencedAlike(lines: seq<string>, i: nat, lines': seq<string>, j: nat)
    requires i <= |lines| && j <= |lines'|
  {
    FenceBefore(lines, i) == FenceBefore(lines', j) || (SbDocument(lines) && SbDocument(lines'))
  }

  lemma AlikeByFence(lines: seq<string>, i: nat, lines': seq<string>, j: nat)
    requires i <= |lines| && j <= |lines'| && FenceBefore(lines, i) == FenceBefore(lines', j)
    ensures FencedAlike(lines, i, lines', j)
  {
  }

  lemma SameAt(lines: seq<string>, i: nat, lines': seq<string>, j: nat, m: nat, k: nat)
    requires i + m <= |lines| && j + m <= |lines'| && lines[i..i + m] == lines'[j..j + m] && k < m
    ensures lines[i + k] == lines'[j + k]
  {
    assert lines[i..i + m][k] == lines'[j..j + m][k];
  }

  /** The fence moves on with the lines. */
  lemma {:induction false} SameFence(lines: seq<string>, i: nat, lines': seq<string>, j: nat, m: nat, k: nat)
    requires i + m <= |lines| && j + m <= |lines'| && lines[i..i + m] == lines'[j..j + m] && k <= m
    requires FenceBefore(lines, i) == FenceBefore(lines', j)
    ensures FenceBefore(lines, i + k) == FenceBefore(lines', j + k)
    decreases k
  {
    hide FenceStep;
    if k > 0 {
      SameFence(lines, i, lines', j, m, k - 1);
      SameAt(lines, i, lines', j, m, k - 1);
      assert i + k - 1 == i + (k - 1) && j + k - 1 == j + (k - 1);
    }
  }

  lemma AlikeLines(lines: seq<string>, i: nat, lines': seq<string>, j: nat, m: nat)
    requires i + m <= |lines| && j + m <= |lines'|
    requires lines[i..i + m] == lines'[j..j + m] && FencedAlike(lines, i, lines', j)
    ensures Alike(DocKinds(lines), i, DocKinds(lines'), j, m)
  {
    hide DocKinds, SameMarkers, SbOnly, FenceBefore, SbDocument, FenceMask;
    var respect := FenceBefore(lines, i) == FenceBefore(lines', j);
    forall k | i <= k < i + m
      ensures SameMarkers(DocKinds(lines)[k], DocKinds(lines')[k - i + j], respect)
    {
      SameAt(lines, i, lines', j, m, k - i);
      if respect {
        SameFence(lines, i, lines', j, m, k - i);
      }
      SameLineKinds(lines, k, lines', k - i + j, respect);
    }
    if !respect {
      SbDocumentKinds(lines);
      SbDocumentKinds(lines');
    }
  }

  lemma SameLineKinds(lines: seq<string>, k: nat, lines': seq<string>, k': nat, respect: bool)
    requires k < |lines| && k' < |lines'| && lines[k] == lines'[k']
    requires respect ==> FenceBefore(lines, k) == FenceBefore(lines', k')
    ensures SameMarkers(DocKinds(lines)[k], DocKinds(lines')[k'], respect)
  {
    hide FenceBefore, MatchMarker, IsSeparator;
    KindAt(lines, k);
    KindAt(lines', k');
  }

  /** What is left of a document once a hunk's lines have made room for `with`. A hunk that
      runs to the end of the text without a newline leaves an empty last line. */
  function ReplaceFrame(lines: seq<string>, f: Frame, with: seq<string>): seq<string>
    requires f.start <= f.end < |lines|
  {
    lines[..f.start] + with + if f.end + 1 == |lines| then [""] else lines[f.end + 1..]
  }

  /** No line behind the hunk is fenced where it was not, or the other way round; or the document
      has no git start, so that no fence matters. */
  ghost predicate FenceKept(lines: seq<string>, f: Frame, with: seq<string>)
    requires f.start <= f.end < |lines|
  {
    f.end + 1 == |lines| || FencedAlike(lines, f.end + 1, ReplaceFrame(lines, f, with), f.start + |with|)
  }

  lemma NoFramesInLastLine(lines: seq<string>, n: nat)
    requires n + 1 == |lines| && lines[n] == ""
    ensures Frames(DocKinds(lines), n) == []
  {
  }

  lemma FramesBehind(lines: seq<string>, end: nat, lines': seq<string>, at: nat)
    requires end < |lines| && at < |lines'|
    requires lines'[at..] == if end + 1 == |lines| then [""] else lines[end + 1..]
    requires end + 1 == |lines| || FencedAlike(lines, end + 1, lines', at)
    ensures MovedFrames(Frames(DocKinds(lines), end + 1), Frames(DocKinds(lines'), at), end + 1, at)
  {
    hide MatchMarker, SbFrame, FenceMask, FrameIn, Look, DocKinds, FencedAlike, Alike;
    if end + 1 == |lines| {
      assert lines'[at] == lines'[at..][0] == "";
      NoFramesInLastLine(lines', at);
    } else {
      var m := |lines| - (end + 1);
      assert lines[end + 1..end + 1 + m] == lines'[at..at + m];
      AlikeLines(lines, end + 1, lines', at, m);
      FramesMoved(DocKinds(lines), end + 1, DocKinds(lines'), at);
    }
  }

  lemma AlikeFront(lines: seq<string>, lines': seq<string>, a: nat)
    requires a <= |lines| && a <= |lines'| && lines[..a] == lines'[..a]
    ensures Alike(DocKinds(lines), 0, DocKinds(lines'), 0, a)
  {
    hide DocKinds, Alike;
    assert lines[0..0 + a] == lines[..a] && lines'[0..0 + a] == lines'[..a];
    AlikeLines(lines, 0, lines', 0, a);
  }

  lemma FramesInFront(lines: seq<string>, i: nat, lines': seq<string>)
    requires i < |Frames(DocKinds(lines), 0)|
    requires var a := Frames(DocKinds(lines), 0)[i].start; a <= |lines| && a <= |lines'| && lines[..a] == lines'[..a]
    ensures Frames(DocKinds(lines'), 0)
         == Frames(DocKinds(lines), 0)[..i] + Frames(DocKinds(lines'), Frames(DocKinds(lines), 0)[i].start)
  {
    hide MatchMarker, AtLine, FenceMask, FrameIn, DocKinds, Alike, FramesUntil, Counts;
    var a := Frames(DocKinds(lines), 0)[i].start;
    AlikeFront(lines, lines', a);
    FrameBounds(DocKinds(lines), Frames(DocKinds(lines), 0)[i]);
    FrameReached(DocKinds(lines), 0, i);
    UntilMoved(DocKinds(lines), DocKinds(lines'), 0, a);
    FramesFromUntil(DocKinds(lines'), 0, a);
  }

  /** `fs'` is `fs` without its `i`-th frame, the later ones moved. */
  ghost predicate WithoutFrame(fs: seq<Frame>, i: nat, fs': seq<Frame>, from: nat, to: nat)
    requires i < |fs|
  {
    && |fs'| == |fs| - 1
    && (forall k :: 0 <= k < i ==> fs'[k] == fs[k])
    && (forall k :: i <= k < |fs'| ==> MovedFrame(fs[k + 1], fs'[k], from, to))
  }

  /** Whatever is found in front of a hunk is found without it, and then what is found behind. */
  lemma ReplacedFrames(lines: seq<string>, i: nat, with: seq<string>)
    requires i < |Frames(DocKinds(lines), 0)|
    requires forall k :: 0 <= k < |with| ==> MatchStart(with[k]).None?
    ensures var fs := Frames(DocKinds(lines), 0); var f := fs[i];
      && f.start < f.end < |lines| && Frames(DocKinds(lines), f.end + 1) == fs[i + 1..]
      && var lines', at := ReplaceFrame(lines, f, with), f.start + |with|;
         at < |lines'| && Frames(DocKinds(lines'), 0) == fs[..i] + Frames(DocKinds(lines'), at)
  {
    hide MatchMarker, AtLine, FenceMask, FrameIn, Look, DocKinds, Frames;
    var fs := Frames(DocKinds(lines), 0);
    var f := fs[i];
    FrameBounds(DocKinds(lines), f);
    FrameTaken(DocKinds(lines), i);
    var lines' := ReplaceFrame(lines, f, with);
    FramesInFront(lines, i, lines');
    NoStartsIn(lines', f.start, with);
    FramesSkip(DocKinds(lines'), f.start, f.start + |with|);
  }

  lemma ReplaceFrameKeepsOthers(lines: seq<string>, i: nat, with: seq<string>)
    requires i < |Frames(DocKinds(lines), 0)|
    requires forall k :: 0 <= k < |with| ==> MatchStart(with[k]).None?
    requires var f := Frames(DocKinds(lines), 0)[i]; f.start < f.end < |lines| && FenceKept(lines, f, with)
    ensures var fs := Frames(DocKinds(lines), 0);
      var lines' := ReplaceFrame(lines, fs[i], with);
      WithoutFrame(fs, i, Frames(DocKinds(lines'), 0), fs[i].end + 1, fs[i].start + |with|)
  {
    hide MatchMarker, FenceMask, FrameIn, Look, DocKinds, Frames, MovedFrames, WithoutFrame, FencedAlike;
    var fs := Frames(DocKinds(lines), 0);
    var f := fs[i];
    var lines', at := ReplaceFrame(lines, f, with), f.start + |with|;
    ReplacedFrames(lines, i, with);
    FramesBehind(lines, f.end, lines', at);
    WithoutOne(fs, i, Frames(DocKinds(lines'), at), f.end + 1, at);
  }

  lemma WithoutOne(fs: seq<Frame>, i: nat, behind: seq<Frame>, from: nat, to: nat)
    requires i < |fs| && MovedFrames(fs[i + 1..], behind, from, to)
    ensures WithoutFrame(fs, i, fs[..i] + behind, from, to)
  {
  }

  lemma NoStartsIn(lines: seq<string>, n: nat, with: seq<string>)
    requires n + |with| <= |lines| && lines[n..n + |with|] == with
    requires forall k :: 0 <= k < |with| ==> MatchStart(with[k]).None?
    ensures forall k :: n <= k < n + |with| ==> DocKinds(lines)[k].start.None?
  {
    hide MatchMarker, FenceMask;
    forall k | n <= k < n + |with|
      ensures DocKinds(lines)[k].start.None?
    {
      KindAt(lines, k);
      assert lines[k] == with[k - n];
    }
  }

  // ----- Offsets and texts -----

  ghost predicate MovedSection(s: Section, s': Section, d: int) {
    s'.from == s.from + d && s'.to == s.to + d && s'.hash == s.hash && s'.title == s.title && s'.text == s.text
  }

  /** The same hunk, `d` characters further on. */
  ghost predicate MovedHunk(h: Hunk, h': Hunk, d: int) {
    && h'.from == h.from + d && h'.to == h.to + d && h'.kind == h.kind
    && MovedSection(h.first, h'.first, d) && MovedSection(h.second, h'.second, d)
    && h.base.Some? == h'.base.Some?
    && (h.base.Some? ==> MovedSection(h.base.value, h'.base.value, d))
  }

  /** Lines `x..y` of one document are the lines from `x'` on of the other. */
  ghost predicate SharedLines(lines: seq<string>, x: nat, y: nat, lines': seq<string>, x': nat) {
    x <= y <= |lines| && x' + (y - x) <= |lines'| && lines[x..y] == lines'[x'..x' + (y - x)]
  }

  lemma SharedLineFrom(lines: seq<string>, x: nat, y: nat, lines': seq<string>, x': nat, k: nat, k': nat)
    requires SharedLines(lines, x, y, lines', x') && x <= k <= y && k' + x == k + x'
    ensures LineFrom(lines', k') == LineFrom(lines, k) + (LineFrom(lines', x') - LineFrom(lines, x))
  {
    CutAt(lines, x, k);
    CutAt(lines', x', k');
    SliceSlice(lines, x, y, 0, k - x);
    SliceSlice(lines', x', x' + (y - x), 0, k - x);
    UnlinesConcat(lines[..x], lines[x..k]);
    UnlinesConcat(lines'[..x'], lines'[x'..k']);
  }

  /** A section's text is its lines, each with its newline. */
  lemma SectionText(lines: seq<string>, before: nat, after: nat, m: Marker)
    requires before < after < |lines|
    ensures var s := ReadSection(lines, before, after, m);
      && s.from == LineFrom(lines, before + 1) && s.to == LineFrom(lines, after)
      && s.text == Unlines(lines[before + 1..after]) && s.hash == m.hash && s.title == m.title
  {
    NextLineFrom(lines, before);
    LinesSlice(lines, before + 1, after);
  }

  lemma SharedSection(lines: seq<string>, x: nat, y: nat, lines': seq<string>, x': nat,
                      before: nat, after: nat, before': nat, after': nat, m: Marker)
    requires SharedLines(lines, x, y, lines', x') && x <= before < after < y
    requires before' + x == before + x' && after' + x == after + x'
    ensures after < |lines| && after' < |lines'|
    ensures MovedSection(ReadSection(lines, before, after, m), ReadSection(lines', before', after', m),
                         LineFrom(lines', x') - LineFrom(lines, x))
  {
    hide LineFrom, Unlines, ReadSection;
    SectionText(lines, before, after, m);
    SectionText(lines', before', after', m);
    SharedLineFrom(lines, x, y, lines', x', before + 1, before' + 1);
    SharedLineFrom(lines, x, y, lines', x', after, after');
    SliceSlice(lines, x, y, before + 1 - x, after - x);
    SliceSlice(lines', x', x' + (y - x), before' + 1 - x', after' - x');
  }

  /** Only the last line of a text ends where the text ends. */
  lemma EndsBeforeText(lines: seq<string>, i: nat)
    requires i < |lines|
    ensures LineTo(lines, i) < |JoinLines(lines)| <==> i + 1 < |lines|
    ensures i + 1 == |lines| ==> LineTo(lines, i) == |JoinLines(lines)|
  {
    assert lines == lines[..i] + lines[i..];
    UnlinesJoin(lines[..i], lines[i..]);
  }

  lemma SharedLine(lines: seq<string>, x: nat, y: nat, lines': seq<string>, x': nat, k: nat, k': nat)
    requires SharedLines(lines, x, y, lines', x') && x <= k < y && k' + x == k + x'
    ensures k < |lines| && k' < |lines'| && lines'[k'] == lines[k]
  {
  }

  lemma SharedMarkers(lines: seq<string>, x: nat, y: nat, lines': seq<string>, x': nat, f: Frame, f': Frame)
    requires SharedLines(lines, x, y, lines', x') && MarkersIn(f, lines) && MovedFrame(f, f', x, x')
    requires x <= f.start && f.end < y
    ensures MarkersIn(f', lines')
    ensures lines'[f'.start] == lines[f.start] && lines'[f'.end] == lines[f.end]
    ensures f.base.Some? ==> lines'[f'.base.value] == lines[f.base.value]
  {
    hide MatchMarker, SharedLines;
    SharedLine(lines, x, y, lines', x', f.start, f'.start);
    SharedLine(lines, x, y, lines', x', f.sep, f'.sep);
    SharedLine(lines, x, y, lines', x', f.end, f'.end);
    if f.base.Some? {
      SharedLine(lines, x, y, lines', x', f.base.value, f'.base.value);
    }
  }

  /** A hunk whose lines two documents share is the same hunk in both. */
  lemma SharedHunk(lines: seq<string>, x: nat, y: nat, lines': seq<string>, x': nat, f: Frame, f': Frame)
    requires SharedLines(lines, x, y, lines', x') && MarkersIn(f, lines) && MovedFrame(f, f', x, x')
    requires x <= f.start && f.end < y
    requires f.end + 1 == |lines| <==> f'.end + 1 == |lines'|
    ensures MarkersIn(f', lines')
    ensures MovedHunk(HunkOf(lines, f), HunkOf(lines', f'), LineFrom(lines', x') - LineFrom(lines, x))
  {
    hide MatchMarker, LineFrom, ReadSection, SharedLines, JoinLines, MovedSection;
    SharedMarkers(lines, x, y, lines', x', f, f');
    SharedLineFrom(lines, x, y, lines', x', f.start, f'.start);
    SharedLineFrom(lines, x, y, lines', x', f.end, f'.end);
    EndsBeforeText(lines, f.end);
    EndsBeforeText(lines', f'.end);
    SharedSection(lines, x, y, lines', x', f.sep, f.end, f'.sep, f'.end, MatchEnd(lines[f.end]).value);
    if f.base.Some? {
      SharedSection(lines, x, y, lines', x', f.start, f.base.value, f'.start, f'.base.value,
                    MatchStart(lines[f.start]).value);
      SharedSection(lines, x, y, lines', x', f.base.value, f.sep, f'.base.value, f'.sep,
                    MatchBase(lines[f.base.value]).value);
    } else {
      SharedSection(lines, x, y, lines', x', f.start, f.sep, f'.start, f'.sep, MatchStart(lines[f.start]).value);
    }
  }

  // ----- One hunk resolved -----

  /** The lines that `resolveHunk` puts in a hunk's place. */
  function ResolutionLines(lines: seq<string>, f: Frame, action: Action): Option<seq<string>>
    requires MarkersIn(f, lines)
  {
    var first := lines[f.start + 1..if f.base.Some? then f.base.value else f.sep];
    var second := lines[f.sep + 1..f.end];
    match action
    case TakeFirst => Some(first)
    case TakeSecond => Some(second)
    case TakeBoth => Some(first + second)
    case TakeBase => if f.base.None? then None else Some(lines[f.base.value + 1..f.sep])
  }

  lemma ResolutionText(lines: seq<string>, f: Frame, action: Action)
    requires MarkersIn(f, lines)
    ensures ResolutionLines(lines, f, action).Some? == ResolveHunk(HunkOf(lines, f), action).Some?
    ensures ResolutionLines(lines, f, action).Some? ==>
      var h := HunkOf(lines, f);
      ResolveHunk(h, action) == Some(Change(h.from, h.to, Unlines(ResolutionLines(lines, f, action).value)))
  {
    hide MatchMarker, ReadSection, Unlines, LineFrom;
    SectionText(lines, f.sep, f.end, MatchEnd(lines[f.end]).value);
    var after := if f.base.Some? then f.base.value else f.sep;
    SectionText(lines, f.start, after, MatchStart(lines[f.start]).value);
    if f.base.Some? {
      SectionText(lines, f.base.value, f.sep, MatchBase(lines[f.base.value]).value);
    }
    UnlinesConcat(lines[f.start + 1..after], lines[f.sep + 1..f.end]);
  }

  /** Where a hunk's text lies, in lines. */
  lemma HunkSpan(lines: seq<string>, f: Frame)
    requires MarkersIn(f, lines)
    ensures var h, t := HunkOf(lines, f), JoinLines(lines);
      && h.from <= h.to <= |t|
      && t[..h.from] == Unlines(lines[..f.start])
      && t[h.to..] == JoinLines(if f.end + 1 == |lines| then [""] else lines[f.end + 1..])
      && h.from == LineFrom(lines, f.start)
      && (f.end + 1 < |lines| ==> h.to == LineFrom(lines, f.end + 1))
  {
    hide MatchMarker, ReadSection, Unlines;
    EndsBeforeText(lines, f.end);
    NextLineFrom(lines, f.end);
    TextFromLine(lines, f.start);
    LinesSlice(lines, f.start, f.end);
    if f.end + 1 < |lines| {
      TextFromLine(lines, f.end + 1);
    } else {
      assert JoinLines([""]) == "";
    }
  }

  /** Replacing a hunk's text replaces its lines. */
  lemma ReplaceText(lines: seq<string>, f: Frame, with: seq<string>)
    requires MarkersIn(f, lines)
    ensures var h, t := HunkOf(lines, f), JoinLines(lines);
      h.to <= |t| && h.from <= h.to &&
      JoinLines(ReplaceFrame(lines, f, with)) == t[..h.from] + Unlines(with) + t[h.to..]
  {
    hide MatchMarker, HunkOf, JoinLines, Unlines, LineFrom;
    HunkSpan(lines, f);
    var tail := if f.end + 1 == |lines| then [""] else lines[f.end + 1..];
    UnlinesJoin(lines[..f.start] + with, tail);
    UnlinesConcat(lines[..f.start], with);
  }

  function FindInText(t: string): seq<Hunk> {
    FindHunks(SplitLines(t))
  }

  ghost predicate SbText(t: string) {
    SbDocument(SplitLines(t))
  }

  /** The text after a single edit. */
  function Edited(t: string, c: Change): string
    requires c.from <= c.to <= |t|
  {
    t[..c.from] + c.ins + t[c.to..]
  }

  /** `hs'` is `hs` without its `i`-th hunk, the later ones moved by `d`. */
  ghost predicate WithoutHunk(hs: seq<Hunk>, i: nat, hs': seq<Hunk>, d: int)
    requires i < |hs|
  {
    && |hs'| == |hs| - 1
    && (forall k :: 0 <= k < i ==> hs'[k] == hs[k])
    && (forall k :: i <= k < |hs'| ==> MovedHunk(hs[k + 1], hs'[k], d))
  }

  lemma FramesFit(lines: seq<string>)
    ensures var fs := Frames(DocKinds(lines), 0);
      (forall k :: 0 <= k < |fs| ==> MarkersIn(fs[k], lines)) &&
      FindHunks(lines) == HunksOf(lines, fs)
  {
  }

  /** No line of the hunk opens or closes a fence. */
  ghost predicate FenceFree(lines: seq<string>, f: Frame) {
    f.start <= f.end < |lines| &&
    forall k :: f.start <= k <= f.end ==> FenceStep(FenceBefore(lines, k), lines[k]) == FenceBefore(lines, k)
  }

  lemma {:induction false} FenceFreeAt(lines: seq<string>, f: Frame, k: nat)
    requires FenceFree(lines, f) && f.start <= k <= f.end + 1
    ensures FenceBefore(lines, k) == FenceBefore(lines, f.start)
    decreases k
  {
    hide FenceStep;
    if f.start < k {
      FenceFreeAt(lines, f, k - 1);
    }
  }

  lemma {:induction false} FenceUnmoved(lines: seq<string>, n: nat, with: seq<string>, k: nat)
    requires n + |with| <= |lines| && lines[n..n + |with|] == with && k <= |with|
    requires forall j :: 0 <= j < |with| ==> FenceStep(FenceBefore(lines, n), with[j]) == FenceBefore(lines, n)
    ensures FenceBefore(lines, n + k) == FenceBefore(lines, n)
    decreases k
  {
    hide FenceStep;
    if k > 0 {
      FenceUnmoved(lines, n, with, k - 1);
      assert lines[n + (k - 1)] == with[k - 1];
    }
  }

  /** The lines of a hunk that opens and closes no fence open and close none elsewhere. */
  lemma FenceFreeIsKept(lines: seq<string>, f: Frame, with: seq<string>)
    requires FenceFree(lines, f) && forall j :: 0 <= j < |with| ==> with[j] in lines[f.start..f.end + 1]
    ensures f.start + |with| <= |ReplaceFrame(lines, f, with)|
    ensures FenceBefore(ReplaceFrame(lines, f, with), f.start + |with|) == FenceBefore(lines, f.end + 1)
  {
    hide FenceStep, FenceBefore;
    var lines' := ReplaceFrame(lines, f, with);
    assert lines'[0..0 + f.start] == lines[0..0 + f.start];
    StartOfText(lines, lines');
    SameFence(lines, 0, lines', 0, f.start, f.start);
    FenceFreeAt(lines, f, f.end + 1);
    forall j | 0 <= j < |with|
      ensures FenceStep(FenceBefore(lines', f.start), with[j]) == FenceBefore(lines', f.start)
    {
      var d :| 0 <= d < f.end + 1 - f.start && lines[f.start..f.end + 1][d] == with[j];
      FenceFreeAt(lines, f, f.start + d);
      assert lines[f.start + d] == with[j];
    }
    assert lines'[f.start..f.start + |with|] == with;
    FenceUnmoved(lines', f.start, with, |with|);
  }

  lemma StartOfText(lines: seq<string>, lines': seq<string>)
    ensures FenceBefore(lines, 0) == FenceBefore(lines', 0) == NoFence
  {
  }

  /** The hunks whose resolution is harmless: no fence matters, or none is touched. */
  ghost predicate Undisturbed(lines: seq<string>, f: Frame) {
    SbDocument(lines) || FenceFree(lines, f)
  }

  /** What may replace such a hunk holds no start marker and leaves the fences as they are. */
  lemma FrameResolves(lines: seq<string>, i: nat, action: Action)
    requires i < |Frames(DocKinds(lines), 0)| && Undisturbed(lines, Frames(DocKinds(lines), 0)[i])
    ensures var f := Frames(DocKinds(lines), 0)[i];
      && MarkersIn(f, lines)
      && (SbDocument(lines) ==> ResolutionLines(lines, f, action).Some?)
      && (ResolutionLines(lines, f, action).Some? ==>
            var with := ResolutionLines(lines, f, action).value;
            (forall k :: 0 <= k < |with| ==> MatchStart(with[k]).None?) && FenceKept(lines, f, with))
  {
    hide MatchMarker, FenceMask, Frames, DocKinds, ResolutionLines, FenceFree, SbDocument, FenceKept;
    var f := Frames(DocKinds(lines), 0)[i];
    FramesFit(lines);
    MarkerLines(lines, f);
    NoStartsInside(lines, i);
    if ResolutionLines(lines, f, action).Some? {
      var with := ResolutionLines(lines, f, action).value;
      ResolutionInside(lines, f, action);
      forall k | 0 <= k < |with|
        ensures MatchStart(with[k]).None? && with[k] in lines[f.start..f.end + 1]
      {
        assert IsInside(lines, f, with[k]);
        var d :| f.start < d < f.end && lines[d] == with[k];
        assert lines[f.start..f.end + 1][d - f.start] == with[k];
      }
      KeptByResolution(lines, f, with);
    }
    if SbDocument(lines) {
      SbHasBase(lines, i);
      ResolvesWithBase(lines, f, action);
    }
  }

  lemma KeptByResolution(lines: seq<string>, f: Frame, with: seq<string>)
    requires f.start <= f.end < |lines| && Undisturbed(lines, f)
    requires forall k :: 0 <= k < |with| ==> MatchStart(with[k]).None? && with[k] in lines[f.start..f.end + 1]
    ensures FenceKept(lines, f, with)
  {
    hide MatchMarker, FenceFree, FenceBefore;
    if SbDocument(lines) {
      StillSbDocument(lines, f, with);
    } else {
      FenceFreeIsKept(lines, f, with);
    }
  }

  lemma StillSbDocument(lines: seq<string>, f: Frame, with: seq<string>)
    requires f.start <= f.end < |lines| && SbDocument(lines)
    requires forall k :: 0 <= k < |with| ==> MatchStart(with[k]).None?
    ensures SbDocument(ReplaceFrame(lines, f, with))
  {
    var lines' := ReplaceFrame(lines, f, with);
    NoStartInEmpty();
    hide MatchMarker;
    forall k | 0 <= k < |lines'|
      ensures KindOf(MatchStart(lines'[k])) != Some(Git)
    {
      if k < f.start {
        assert lines'[k] == lines[k];
      } else if k < f.start + |with| {
        assert lines'[k] == with[k - f.start];
      } else if f.end + 1 == |lines| {
        assert lines'[k] == "";
      } else {
        assert lines'[k] == lines[k - (f.start + |with|) + f.end + 1];
      }
    }
  }

  lemma NoStartInEmpty()
    ensures MatchStart("").None?
  {
  }

  lemma ResolutionInside(lines: seq<string>, f: Frame, action: Action)
    requires MarkersIn(f, lines) && ResolutionLines(lines, f, action).Some?
    ensures var with := ResolutionLines(lines, f, action).value;
      forall k :: 0 <= k < |with| ==> IsInside(lines, f, with[k])
  {
    hide MatchMarker, IsInside;
    var with := ResolutionLines(lines, f, action).value;
    var after := if f.base.Some? then f.base.value else f.sep;
    forall k | 0 <= k < |with|
      ensures IsInside(lines, f, with[k])
    {
      var d := match action
        case TakeFirst => f.start + 1 + k
        case TakeSecond => f.sep + 1 + k
        case TakeBoth => if k < after - f.start - 1 then f.start + 1 + k else f.sep + 1 + (k - (after - f.start - 1))
        case TakeBase => f.base.value + 1 + k;
      assert lines[d] == with[k];
      InsideAt(lines, f, d);
    }
  }

  ghost predicate IsInside(lines: seq<string>, f: Frame, line: string)
    requires f.end <= |lines|
  {
    exists d :: f.start < d < f.end && lines[d] == line
  }

  lemma InsideAt(lines: seq<string>, f: Frame, d: nat)
    requires f.start < d < f.end < |lines|
    ensures IsInside(lines, f, lines[d])
  {
  }

  lemma SbHasBase(lines: seq<string>, i: nat)
    requires i < |Frames(DocKinds(lines), 0)| && SbDocument(lines)
    ensures Frames(DocKinds(lines), 0)[i].base.Some?
  {
    hide Frames, SbDocument, DocKinds;
    SbDocumentKinds(lines);
    assert FrameIn(Frames(DocKinds(lines), 0)[i], DocKinds(lines));
  }

  lemma ResolvesWithBase(lines: seq<string>, f: Frame, action: Action)
    requires MarkersIn(f, lines) && f.base.Some?
    ensures ResolutionLines(lines, f, action).Some?
  {
  }

  /** The start markers that a hunk may hold are git's and fenced; here, none is. */
  lemma NoStartsInside(lines: seq<string>, i: nat)
    requires i < |Frames(DocKinds(lines), 0)| && Undisturbed(lines, Frames(DocKinds(lines), 0)[i])
    ensures var f := Frames(DocKinds(lines), 0)[i];
      f.start < f.end < |lines| && forall k :: f.start < k <= f.end ==> MatchStart(lines[k]).None?
  {
    hide MatchMarker, FenceMask, Frames, DocKinds, SbDocument, FenceFree;
    var ks := DocKinds(lines);
    var f := Frames(ks, 0)[i];
    assert FrameIn(f, ks);
    forall k | f.start < k <= f.end
      ensures MatchStart(lines[k]).None?
    {
      NoStartInside(lines, f, k);
    }
  }

  lemma NoStartInside(lines: seq<string>, f: Frame, k: nat)
    requires FrameIn(f, DocKinds(lines)) && Undisturbed(lines, f) && f.start < k <= f.end
    ensures MatchStart(lines[k]).None?
  {
    hide MatchMarker, FenceMask, DocKinds, FenceBefore, ClosesFence, OpenFence, TrimmedLine;
    KindAt(lines, f.start);
    KindAt(lines, k);
    if f.kind.Git? && !SbDocument(lines) {
      FenceFreeAt(lines, f, k);
    }
  }

  /** From the frames to the hunks. */
  lemma HunksWithoutFrame(lines: seq<string>, i: nat, with: seq<string>)
    requires i < |Frames(DocKinds(lines), 0)|
    requires forall k :: 0 <= k < |with| ==> MatchStart(with[k]).None?
    requires var f := Frames(DocKinds(lines), 0)[i]; f.start < f.end < |lines| && FenceKept(lines, f, with)
    ensures var f := Frames(DocKinds(lines), 0)[i];
      && i < |FindHunks(lines)|
      && var lines' := ReplaceFrame(lines, f, with);
         var d := LineFrom(lines', f.start + |with|) - LineFrom(lines, f.end + 1);
         WithoutHunk(FindHunks(lines), i, FindHunks(lines'), d)
  {
    hide MatchMarker, FrameIn, HunkOf, MarkersIn, LineFrom, DocKinds, MovedFrame, MovedHunk, FindHunks, SbDocument,
      ReplaceFrame, Frames, HunksOf, HunkKept, WithoutHunk, FenceKept;
    ReplaceFrameKeepsOthers(lines, i, with);
    FramesFit(lines);
    var f := Frames(DocKinds(lines), 0)[i];
    var lines' := ReplaceFrame(lines, f, with);
    FramesFit(lines');
    ReplacedShape(lines, f, with);
    var x := f.start + |with|;
    var hs, hs' := FindHunks(lines), FindHunks(lines');
    assert |hs'| == |hs| - 1;
    var d := LineFrom(lines', x) - LineFrom(lines, f.end + 1);
    forall k | 0 <= k < |hs'|
      ensures HunkKept(hs, i, hs', k, d)
    {
      OtherHunk(lines, i, lines', x, k);
    }
    AllKept(hs, i, hs', d);
  }

  /** The `k`-th hunk that is left is the old one in front, or the one behind, moved. */
  ghost predicate HunkKept(hs: seq<Hunk>, i: nat, hs': seq<Hunk>, k: nat, d: int)
    requires k < |hs'| && |hs| == |hs'| + 1
  {
    if k < i then hs'[k] == hs[k] else MovedHunk(hs[k + 1], hs'[k], d)
  }

  lemma AllKept(hs: seq<Hunk>, i: nat, hs': seq<Hunk>, d: int)
    requires i < |hs| == |hs'| + 1 && forall k :: 0 <= k < |hs'| ==> HunkKept(hs, i, hs', k, d)
    ensures WithoutHunk(hs, i, hs', d)
  {
    hide MovedHunk;
    forall k | 0 <= k < i
      ensures hs'[k] == hs[k]
    {
      assert HunkKept(hs, i, hs', k, d);
    }
    forall k | i <= k < |hs'|
      ensures MovedHunk(hs[k + 1], hs'[k], d)
    {
      assert HunkKept(hs, i, hs', k, d);
    }
  }

  lemma ReplacedShape(lines: seq<string>, f: Frame, with: seq<string>)
    requires f.start <= f.end < |lines|
    ensures var lines', x := ReplaceFrame(lines, f, with), f.start + |with|;
      && x < |lines'| && lines'[..f.start] == lines[..f.start]
      && lines'[x..] == if f.end + 1 == |lines| then [""] else lines[f.end + 1..]
  {
  }

  lemma OtherHunk(lines: seq<string>, i: nat, lines': seq<string>, x: nat, k: nat)
    requires i < |Frames(DocKinds(lines), 0)|
    requires var f := Frames(DocKinds(lines), 0)[i];
      && f.start < f.end < |lines| && f.start <= x < |lines'| && lines'[..f.start] == lines[..f.start]
      && lines'[x..] == (if f.end + 1 == |lines| then [""] else lines[f.end + 1..])
      && WithoutFrame(Frames(DocKinds(lines), 0), i, Frames(DocKinds(lines'), 0), f.end + 1, x)
    requires k < |Frames(DocKinds(lines'), 0)|
    ensures var f, hs, hs' := Frames(DocKinds(lines), 0)[i], FindHunks(lines), FindHunks(lines');
      |hs| == |hs'| + 1 == |Frames(DocKinds(lines), 0)| && k < |hs'| && i < |hs| &&
      HunkKept(hs, i, hs', k, LineFrom(lines', x) - LineFrom(lines, f.end + 1))
  {
    hide MatchMarker, FrameIn, HunkOf, MarkersIn, LineFrom, DocKinds, MovedFrame, MovedHunk, FindHunks, HunksOf, Frames;
    FramesFit(lines);
    FramesFit(lines');
    var fs, fs' := Frames(DocKinds(lines), 0), Frames(DocKinds(lines'), 0);
    var f := fs[i];
    if k < i {
      assert fs[k].end < fs[i].start;
      KeptInFront(lines, lines', fs[k], f.start);
    } else {
      BehindFrame(lines, fs, i, k + 1);
      KeptBehind(lines, f.end + 1, lines', x, fs[k + 1], fs'[k]);
    }
  }

  lemma BehindFrame(lines: seq<string>, fs: seq<Frame>, i: nat, k: nat)
    requires i < k < |fs| && fs[i].end < fs[k].start && MarkersIn(fs[k], lines)
    ensures fs[i].end + 1 < |lines|
  {
  }

  lemma KeptInFront(lines: seq<string>, lines': seq<string>, g: Frame, a: nat)
    requires MarkersIn(g, lines) && MarkersIn(g, lines') && g.end < a < |lines| && a < |lines'|
    requires lines[..a] == lines'[..a]
    ensures HunkOf(lines', g) == HunkOf(lines, g)
  {
    hide MatchMarker, ReadSection, LineFrom, JoinLines;
    assert lines[0..a] == lines[..a] && lines'[0..0 + (a - 0)] == lines'[..a];
    SharedHunk(lines, 0, a, lines', 0, g, g);
    assert LineFrom(lines, 0) == LineFrom(lines', 0) by {
      assert lines[..0] == lines'[..0];
      SharedLineFrom(lines, 0, 0, lines', 0, 0, 0);
      StartAtZero(lines);
      StartAtZero(lines');
    }
  }

  lemma StartAtZero(lines: seq<string>)
    ensures LineFrom(lines, 0) == 0
  {
  }

  lemma KeptBehind(lines: seq<string>, x: nat, lines': seq<string>, x': nat, g: Frame, g': Frame)
    requires MarkersIn(g, lines) && MarkersIn(g', lines') && MovedFrame(g, g', x, x')
    requires x <= g.start && x < |lines| && x' < |lines'| && lines[x..] == lines'[x'..]
    ensures MovedHunk(HunkOf(lines, g), HunkOf(lines', g'), LineFrom(lines', x') - LineFrom(lines, x))
  {
    hide MatchMarker, LineFrom, HunkOf, MovedHunk;
    assert |lines[x..]| == |lines'[x'..]|;
    assert lines[x..|lines|] == lines[x..] && lines'[x'..x' + (|lines| - x)] == lines'[x'..];
    SharedHunk(lines, x, |lines|, lines', x', g, g');
  }

  lemma ReplacedLines(lines: seq<string>, f: Frame, with: seq<string>)
    requires f.start <= f.end < |lines|
    requires forall k :: 0 <= k < |lines| ==> '\n' !in lines[k]
    requires forall k :: 0 <= k < |with| ==> '\n' !in with[k]
    ensures var lines' := ReplaceFrame(lines, f, with);
      |lines'| > 0 && forall k :: 0 <= k < |lines'| ==> '\n' !in lines'[k]
  {
  }

  lemma ResolutionLinesWhole(lines: seq<string>, f: Frame, action: Action)
    requires MarkersIn(f, lines) && ResolutionLines(lines, f, action).Some?
    requires forall k :: 0 <= k < |lines| ==> '\n' !in lines[k]
    ensures var with := ResolutionLines(lines, f, action).value;
      forall k :: 0 <= k < |with| ==> '\n' !in with[k]
  {
  }

  lemma GrowthOfReplacement(lines: seq<string>, i: nat, with: seq<string>)
    requires i < |Frames(DocKinds(lines), 0)|
    ensures var f := Frames(DocKinds(lines), 0)[i];
      && MarkersIn(f, lines) && i < |FindHunks(lines)|
      && var h, lines' := HunkOf(lines, f), ReplaceFrame(lines, f, with);
         if f.end + 1 == |lines| then i + 1 == |FindHunks(lines)|
         else LineFrom(lines', f.start + |with|) - LineFrom(lines, f.end + 1) == |Unlines(with)| - (h.to - h.from)
  {
    hide MatchMarker, HunkOf, FrameIn, MarkersIn, Unlines, FindHunks, HunksOf, LineFrom, ReplaceFrame, DocKinds;
    FramesFit(lines);
    var fs := Frames(DocKinds(lines), 0);
    var f := fs[i];
    MarkerLines(lines, f);
    if f.end + 1 == |lines| {
      if i + 1 < |fs| {
        MarkerLines(lines, fs[i + 1]);
        assert false;
      }
    } else {
      HunkSpan(lines, f);
      ReplacedOffset(lines, f, with);
    }
  }

  lemma ReplacedOffset(lines: seq<string>, f: Frame, with: seq<string>)
    requires f.start <= f.end < |lines|
    ensures f.start + |with| <= |ReplaceFrame(lines, f, with)|
    ensures LineFrom(ReplaceFrame(lines, f, with), f.start + |with|) == LineFrom(lines, f.start) + |Unlines(with)|
  {
    hide Unlines;
    assert ReplaceFrame(lines, f, with)[..f.start + |with|] == lines[..f.start] + with;
    UnlinesConcat(lines[..f.start], with);
  }

  lemma MarkerLines(lines: seq<string>, f: Frame)
    requires MarkersIn(f, lines)
    ensures f.start < f.end < |lines|
  {
  }

  /** No hunk opens or closes a fence. */
  ghost predicate AllFenceFree(lines: seq<string>) {
    var fs := Frames(DocKinds(lines), 0);
    forall k :: 0 <= k < |fs| ==> FenceFree(lines, fs[k])
  }

  lemma FenceFreeMoved(lines: seq<string>, x: nat, lines': seq<string>, x': nat, m: nat, g: Frame, g': Frame)
    requires x + m <= |lines| && x' + m <= |lines'| && lines[x..x + m] == lines'[x'..x' + m]
    requires FenceBefore(lines, x) == FenceBefore(lines', x')
    requires FenceFree(lines, g) && x <= g.start && g.end < x + m && MovedFrame(g, g', x, x')
    ensures FenceFree(lines', g')
  {
    hide FenceStep, FenceBefore;
    forall k | g'.start <= k <= g'.end
      ensures FenceStep(FenceBefore(lines', k), lines'[k]) == FenceBefore(lines', k)
    {
      var d := k - x';
      SameFence(lines, x, lines', x', m, d);
      SameAt(lines, x, lines', x', m, d);
      assert g.start <= x + d <= g.end;
    }
  }

  /** Then neither does any hunk that is left. */
  lemma OthersFenceFree(lines: seq<string>, i: nat, with: seq<string>)
    requires AllFenceFree(lines) && i < |Frames(DocKinds(lines), 0)|
    requires var f := Frames(DocKinds(lines), 0)[i];
      && f.start < f.end < |lines| && (forall j :: 0 <= j < |with| ==> with[j] in lines[f.start..f.end + 1])
      && WithoutFrame(Frames(DocKinds(lines), 0), i, Frames(DocKinds(ReplaceFrame(lines, f, with)), 0),
                      f.end + 1, f.start + |with|)
    ensures AllFenceFree(ReplaceFrame(lines, Frames(DocKinds(lines), 0)[i], with))
  {
    hide DocKinds, Frames, FenceFree, FenceBefore, ReplaceFrame, WithoutFrame, SafeFrames;
    var fs := Frames(DocKinds(lines), 0);
    var f := fs[i];
    var lines', at := ReplaceFrame(lines, f, with), f.start + |with|;
    AllSafe(lines);
    FenceFreeIsKept(lines, f, with);
    ReplacedShape(lines, f, with);
    AllOthersFenceFree(lines, fs, i, lines', Frames(DocKinds(lines'), 0), at);
  }

  ghost predicate SafeFrames(lines: seq<string>, fs: seq<Frame>) {
    && (forall j :: 0 <= j < |fs| ==> FenceFree(lines, fs[j]) && MarkersIn(fs[j], lines))
    && (forall j, j' :: 0 <= j < j' < |fs| ==> fs[j].end < fs[j'].start)
  }

  lemma AllSafe(lines: seq<string>)
    requires AllFenceFree(lines)
    ensures SafeFrames(lines, Frames(DocKinds(lines), 0))
  {
    hide FenceFree, MarkersIn, FrameIn;
    FramesFit(lines);
  }

  lemma AllOthersFenceFree(lines: seq<string>, fs: seq<Frame>, i: nat, lines': seq<string>, fs': seq<Frame>, at: nat)
    requires i < |fs| && WithoutFrame(fs, i, fs', fs[i].end + 1, at) && SafeFrames(lines, fs)
    requires var f := fs[i];
      && f.start <= f.end < |lines| && f.start <= |lines'| && lines'[..f.start] == lines[..f.start]
      && at <= |lines'| && lines'[at..] == (if f.end + 1 == |lines| then [""] else lines[f.end + 1..])
      && FenceBefore(lines', at) == FenceBefore(lines, f.end + 1)
    ensures forall k :: 0 <= k < |fs'| ==> FenceFree(lines', fs'[k])
  {
    hide FenceFree, FenceBefore, MovedFrame, MarkersIn, WithoutFrame;
    forall k | 0 <= k < |fs'|
      ensures FenceFree(lines', fs'[k])
    {
      WithoutAt(fs, i, fs', fs[i].end + 1, at, k);
      OtherFenceFree(lines, fs[i], lines', at, fs[if k < i then k else k + 1], fs'[k]);
    }
  }

  lemma WithoutAt(fs: seq<Frame>, i: nat, fs': seq<Frame>, from: nat, to: nat, k: nat)
    requires i < |fs| && WithoutFrame(fs, i, fs', from, to) && k < |fs'|
    requires forall j, j' :: 0 <= j < j' < |fs| ==> fs[j].end < fs[j'].start
    ensures |fs| == |fs'| + 1
    ensures if k < i then fs'[k] == fs[k] && fs[k].end < fs[i].start
            else MovedFrame(fs[k + 1], fs'[k], from, to) && fs[i].end < fs[k + 1].start
  {
  }

  lemma OtherFenceFree(lines: seq<string>, f: Frame, lines': seq<string>, at: nat, g: Frame, g': Frame)
    requires f.start <= f.end < |lines| && f.start <= |lines'| && lines'[..f.start] == lines[..f.start]
    requires at <= |lines'| && lines'[at..] == if f.end + 1 == |lines| then [""] else lines[f.end + 1..]
    requires FenceBefore(lines', at) == FenceBefore(lines, f.end + 1)
    requires FenceFree(lines, g) && MarkersIn(g, lines)
    requires (g' == g && g.end < f.start) || (MovedFrame(g, g', f.end + 1, at) && f.end < g.start)
    ensures FenceFree(lines', g')
  {
    hide FenceFree, FenceBefore, MovedFrame, MarkersIn;
    MarkerLines(lines, g);
    if g' == g && g.end < f.start {
      FenceFreeInFront(lines, lines', f.start, g);
    } else {
      FenceFreeBehind(lines, f.end + 1, lines', at, g, g');
    }
  }

  lemma FenceFreeInFront(lines: seq<string>, lines': seq<string>, a: nat, g: Frame)
    requires a <= |lines| && a <= |lines'| && lines[..a] == lines'[..a] && FenceFree(lines, g) && g.end < a
    ensures FenceFree(lines', g)
  {
    hide FenceFree, FenceBefore;
    assert lines[0..0 + a] == lines[..a] && lines'[0..0 + a] == lines'[..a];
    StartOfText(lines, lines');
    MovedNowhere(g);
    FenceFreeMoved(lines, 0, lines', 0, a, g, g);
  }

  lemma FenceFreeBehind(lines: seq<string>, x: nat, lines': seq<string>, x': nat, g: Frame, g': Frame)
    requires x <= |lines| && x' <= |lines'| && lines'[x'..] == lines[x..]
    requires FenceBefore(lines, x) == FenceBefore(lines', x')
    requires FenceFree(lines, g) && x <= g.start && g.end < |lines| && MovedFrame(g, g', x, x')
    ensures FenceFree(lines', g')
  {
    hide FenceFree, FenceBefore, MovedFrame;
    var m := |lines| - x;
    assert lines[x..x + m] == lines[x..] && lines'[x'..x' + m] == lines'[x'..];
    FenceFreeMoved(lines, x, lines', x', m, g, g');
  }

  lemma MovedNowhere(f: Frame)
    ensures MovedFrame(f, f, 0, 0)
  {
  }

  /** The texts whose hunks may be resolved one after the other. */
  ghost predicate Calm(t: string) {
    SbText(t) || AllFenceFree(SplitLines(t))
  }

  lemma StaysCalm(lines: seq<string>, i: nat, action: Action)
    requires i < |Frames(DocKinds(lines), 0)|
    requires var f := Frames(DocKinds(lines), 0)[i];
      && Undisturbed(lines, f) && MarkersIn(f, lines) && ResolutionLines(lines, f, action).Some?
    ensures var f := Frames(DocKinds(lines), 0)[i];
      var lines' := ReplaceFrame(lines, f, ResolutionLines(lines, f, action).value);
      && (SbDocument(lines) ==> SbDocument(lines'))
      && (AllFenceFree(lines) ==> AllFenceFree(lines'))
  {
    hide MatchMarker, DocKinds, Frames, FenceFree, SbDocument, FenceKept, ResolutionLines, AllFenceFree, WithoutFrame,
      FrameIn;
    var f := Frames(DocKinds(lines), 0)[i];
    FrameResolves(lines, i, action);
    var with := ResolutionLines(lines, f, action).value;
    MarkerLines(lines, f);
    if SbDocument(lines) {
      StillSbDocument(lines, f, with);
    }
    if AllFenceFree(lines) {
      ReplaceFrameKeepsOthers(lines, i, with);
      ResolutionInside(lines, f, action);
      forall j | 0 <= j < |with|
        ensures with[j] in lines[f.start..f.end + 1]
      {
        assert IsInside(lines, f, with[j]);
        var d :| f.start < d < f.end && lines[d] == with[j];
        assert lines[f.start..f.end + 1][d - f.start] == with[j];
      }
      OthersFenceFree(lines, i, with);
    }
  }

  /** The main result: resolving one hunk, whichever way, leaves a text in which exactly the
      other hunks are found, those behind it moved by the change in length; unless git-form hunks
      may stand behind it and one of its lines opens or closes a fence. */
  lemma ResolveKeepsOthers(t: string, i: nat, action: Action)
    requires i < |FindInText(t)|
    ensures i < |Frames(DocKinds(SplitLines(t)), 0)|
    ensures SbText(t) ==> ResolveHunk(FindInText(t)[i], action).Some?
    ensures var f, r := Frames(DocKinds(SplitLines(t)), 0)[i], ResolveHunk(FindInText(t)[i], action);
      Undisturbed(SplitLines(t), f) && r.Some? ==>
        && r.value.from <= r.value.to <= |t|
        && (Calm(t) ==> Calm(Edited(t, r.value)))
        && WithoutHunk(FindInText(t), i, FindInText(Edited(t, r.value)), Growth(r.value))
  {
    hide MatchMarker, HunkOf, MarkersIn, FrameIn, LineFrom, Unlines, DocKinds, JoinLines, FindHunks, SplitLines,
      MovedHunk, Frames, SbDocument, ResolutionLines, ReplaceFrame, ResolveHunk, Undisturbed, FenceKept, AllFenceFree;
    var lines := SplitLines(t);
    FramesFit(lines);
    var f := Frames(DocKinds(lines), 0)[i];
    if SbText(t) {
      UndisturbedInSb(lines, f);
    }
    if Undisturbed(lines, f) {
      FrameResolves(lines, i, action);
      ResolutionText(lines, f, action);
      if ResolveHunk(FindInText(t)[i], action).Some? {
        ResolvedText(t, i, action);
      }
    }
  }

  lemma UndisturbedInSb(lines: seq<string>, f: Frame)
    requires SbDocument(lines)
    ensures Undisturbed(lines, f)
  {
  }

  lemma ResolvedText(t: string, i: nat, action: Action)
    requires i < |FindInText(t)| && i < |Frames(DocKinds(SplitLines(t)), 0)|
    requires Undisturbed(SplitLines(t), Frames(DocKinds(SplitLines(t)), 0)[i])
    requires ResolveHunk(FindInText(t)[i], action).Some?
    ensures var c := ResolveHunk(FindInText(t)[i], action).value;
      && c.from <= c.to <= |t|
      && (Calm(t) ==> Calm(Edited(t, c)))
      && WithoutHunk(FindInText(t), i, FindInText(Edited(t, c)), Growth(c))
  {
    hide MatchMarker, HunkOf, MarkersIn, FrameIn, LineFrom, Unlines, DocKinds, JoinLines, FindHunks, SplitLines,
      MovedHunk, Frames, SbDocument, ResolutionLines, ReplaceFrame, ResolveHunk, Undisturbed, FenceKept, AllFenceFree;
    var lines := SplitLines(t);
    JoinOfSplit(t);
    FramesFit(lines);
    var f := Frames(DocKinds(lines), 0)[i];
    FrameResolves(lines, i, action);
    MarkerLines(lines, f);
    ResolutionText(lines, f, action);
    var with := ResolutionLines(lines, f, action).value;
    ReplaceText(lines, f, with);
    HunksWithoutFrame(lines, i, with);
    StaysCalm(lines, i, action);
    var lines' := ReplaceFrame(lines, f, with);
    ResolutionLinesWhole(lines, f, action);
    ReplacedLines(lines, f, with);
    SplitOfJoin(lines');
    GrowthOfReplacement(lines, i, with);
  }

  // ----- All hunks resolved, in whatever order -----

  lemma {:induction false} LineFromMonotone(lines: seq<string>, i: nat, j: nat)
    requires i <= j <= |lines|
    ensures LineFrom(lines, i) <= LineFrom(lines, j)
  {
    assert lines[..j] == lines[..i] + lines[i..j];
    UnlinesConcat(lines[..i], lines[i..j]);
  }

  /** Hunks come in order and share no text. */
  lemma HunksInOrder(t: string)
    ensures var hs := FindInText(t);
      && (forall k :: 0 <= k < |hs| ==> hs[k].from < hs[k].to <= |t|)
      && (forall j, k :: 0 <= j < k < |hs| ==> hs[j].to <= hs[k].from)
  {
    hide MatchMarker, HunkOf, FrameIn, MarkersIn, SplitLines, DocKinds, HunksOf, LineFrom, JoinLines, FindHunks;
    var lines := SplitLines(t);
    JoinOfSplit(t);
    FramesFit(lines);
    var fs, hs := Frames(DocKinds(lines), 0), FindInText(t);
    assert forall k :: 0 <= k < |hs| ==> hs[k] == HunkOf(lines, fs[k]);
    forall k | 0 <= k < |hs|
      ensures hs[k].from < hs[k].to <= |t|
    {
      HunkExtent(lines, fs[k]);
    }
    forall j, k | 0 <= j < k < |hs|
      ensures hs[j].to <= hs[k].from
    {
      HunkApart(lines, fs[j], fs[k]);
    }
  }

  lemma HunkExtent(lines: seq<string>, f: Frame)
    requires MarkersIn(f, lines)
    ensures HunkOf(lines, f).from < HunkOf(lines, f).to <= |JoinLines(lines)|
  {
    hide MatchMarker, ReadSection, LineFrom, JoinLines;
    EndsBeforeText(lines, f.end);
    NextLineFrom(lines, f.start);
    LineFromMonotone(lines, f.start + 1, f.end);
  }

  lemma HunkApart(lines: seq<string>, f: Frame, g: Frame)
    requires MarkersIn(f, lines) && MarkersIn(g, lines) && f.end < g.start
    ensures HunkOf(lines, f).to <= HunkOf(lines, g).from
  {
    hide MatchMarker, ReadSection, LineFrom, JoinLines;
    NextLineFrom(lines, f.end);
    LineFromMonotone(lines, f.end + 1, g.start);
  }

  /** Every hunk's edit, all at once. */
  ghost predicate IsPlan(hs: seq<Hunk>, actions: seq<Action>, plan: seq<Change>) {
    && |plan| == |actions| == |hs|
    && forall k :: 0 <= k < |hs| ==> ResolveHunk(hs[k], actions[k]) == Some(plan[k])
  }

  /** The hunks picked one after the other, each time from the hunks then found. */
  function ResolveInOrder(t: string, actions: seq<Action>, picks: seq<nat>): Option<string>
    decreases |picks|
  {
    if picks == [] then Some(t)
    else
      var hs, i := FindInText(t), picks[0];
      if i >= |hs| || i >= |actions| then None
      else
        match ResolveHunk(hs[i], actions[i])
        case None => None
        case Some(c) =>
          if !(c.from <= c.to <= |t|) then None
          else ResolveInOrder(Edited(t, c), actions[..i] + actions[i + 1..], picks[1..])
  }

  ghost predicate PicksAll(picks: seq<nat>, n: nat) {
    |picks| == n && (n > 0 ==> picks[0] < n && PicksAll(picks[1..], n - 1))
  }

  lemma {:induction false} PlanOrdered(hs: seq<Hunk>, actions: seq<Action>, plan: seq<Change>, i: nat, pos: nat, n: nat)
    requires IsPlan(hs, actions, plan) && i <= |hs| && pos <= n
    requires forall k :: 0 <= k < |hs| ==> hs[k].from <= hs[k].to <= n
    requires forall j, k :: 0 <= j < k < |hs| ==> hs[j].to <= hs[k].from
    requires i < |hs| ==> pos <= hs[i].from
    ensures Ordered(plan[i..], pos, n)
    decreases |hs| - i
  {
    if i < |hs| {
      assert ResolveHunk(hs[i], actions[i]) == Some(plan[i]);
      PlanOrdered(hs, actions, plan, i + 1, hs[i].to, n);
      assert plan[i..][1..] == plan[i + 1..];
    }
  }

  /** Making one of several edits first and the others, moved, afterwards. */
  lemma OneEditFirst(t: string, a: seq<Change>, c: Change, b: seq<Change>, b': seq<Change>)
    requires Ordered(a, 0, c.from) && c.from <= c.to <= |t| && Ordered(b, c.to, |t|)
    requires |b'| == |b|
    requires forall k :: 0 <= k < |b| ==>
      b'[k].from == b[k].from + Growth(c) && b'[k].to == b[k].to + Growth(c) && b'[k].ins == b[k].ins
    ensures Ordered(a + ([c] + b), 0, |t|) && Ordered(a + b', 0, |Edited(t, c)|)
    ensures Apply(Edited(t, c), a + b') == Apply(t, a + ([c] + b))
  {
    hide ApplyFrom, Ordered, Growth;
    var t', all := Edited(t, c), [c] + b;
    EditedBehind(t, c, b, b');
    assert t'[..c.from] == t[..c.from];
    FirstEdit(t, c, b);
    ApplySplit(t', 0, a, c.from, b');
    ApplySplit(t, 0, a, c.from, all);
  }

  lemma FirstEdit(t: string, c: Change, b: seq<Change>)
    requires c.from <= c.to <= |t| && Ordered(b, c.to, |t|)
    ensures Ordered([c] + b, c.from, |t|)
    ensures ApplyFrom(t, c.from, [c] + b) == c.ins + ApplyFrom(t, c.to, b)
  {
    hide ApplyFrom, Ordered;
    assert ([c] + b)[1..] == b;
    ApplyStep(t, c.from, [c] + b);
    NoText(t, c.from, c.ins, ApplyFrom(t, c.to, b));
  }

  lemma EditedBehind(t: string, c: Change, b: seq<Change>, b': seq<Change>)
    requires c.from <= c.to <= |t| && Ordered(b, c.to, |t|) && |b'| == |b|
    requires forall k :: 0 <= k < |b| ==>
      b'[k].from == b[k].from + Growth(c) && b'[k].to == b[k].to + Growth(c) && b'[k].ins == b[k].ins
    ensures c.from <= |Edited(t, c)| && Ordered(b', c.from, |Edited(t, c)|)
    ensures ApplyFrom(Edited(t, c), c.from, b') == c.ins + ApplyFrom(t, c.to, b)
  {
    var t', q := Edited(t, c), c.from + |c.ins|;
    assert t'[q..] == t[c.to..];
    ApplyFromMoved(t, c.to, b, t', q, b');
    SkipTo(t', c.from, q, b');
    assert t'[c.from..q] == c.ins;
  }

  lemma MovedResolution(h: Hunk, h': Hunk, d: int, action: Action)
    requires MovedHunk(h, h', d)
    ensures ResolveHunk(h, action).Some? == ResolveHunk(h', action).Some?
    ensures ResolveHunk(h, action).Some? ==>
      var c, c' := ResolveHunk(h, action).value, ResolveHunk(h', action).value;
      c'.from == c.from + d && c'.to == c.to + d && c'.ins == c.ins
  {
  }

  /** The plan for the hunks that are left after the `i`-th has been resolved. */
  lemma PlanWithout(hs: seq<Hunk>, actions: seq<Action>, plan: seq<Change>, i: nat, hs': seq<Hunk>)
    returns (behind: seq<Change>)
    requires IsPlan(hs, actions, plan) && i < |hs| && WithoutHunk(hs, i, hs', Growth(plan[i]))
    ensures IsPlan(hs', actions[..i] + actions[i + 1..], plan[..i] + behind)
    ensures |behind| == |plan| - (i + 1)
    ensures forall k :: 0 <= k < |behind| ==>
      var c, c' := plan[i + 1..][k], behind[k];
      c'.from == c.from + Growth(plan[i]) && c'.to == c.to + Growth(plan[i]) && c'.ins == c.ins
  {
    hide MovedHunk, ResolveHunk;
    var actions' := actions[..i] + actions[i + 1..];
    forall k | i <= k < |hs'|
      ensures ResolveHunk(hs'[k], actions'[k]).Some? && ResolveHunk(hs[k + 1], actions[k + 1]) == Some(plan[k + 1])
      ensures var c, c' := plan[k + 1], ResolveHunk(hs'[k], actions'[k]).value;
        c'.from == c.from + Growth(plan[i]) && c'.to == c.to + Growth(plan[i]) && c'.ins == c.ins
    {
      MovedResolution(hs[k + 1], hs'[k], Growth(plan[i]), actions[k + 1]);
    }
    behind := seq(|hs'| - i, k requires 0 <= k < |hs'| - i => ResolveHunk(hs'[i + k], actions'[i + k]).value);
    var plan' := plan[..i] + behind;
    forall k | 0 <= k < |hs'|
      ensures ResolveHunk(hs'[k], actions'[k]) == Some(plan'[k])
    {
      if k >= i {
        assert plan'[k] == behind[k - i];
      }
    }
  }

  /** Resolving all hunks, one after the other in any order, makes exactly the planned edits
      and leaves no hunk; so the order does not matter. */
  lemma {:induction false} AnyOrderSameText(t: string, actions: seq<Action>, plan: seq<Change>, picks: seq<nat>)
    requires Calm(t) && IsPlan(FindInText(t), actions, plan) && PicksAll(picks, |actions|)
    ensures Ordered(plan, 0, |t|)
    ensures ResolveInOrder(t, actions, picks) == Some(Apply(t, plan))
    ensures FindInText(Apply(t, plan)) == []
    decreases |picks|
  {
    hide FindInText, ResolveHunk, WithoutHunk, Ordered, ApplyFrom, Growth, Calm, IsPlan, ResolveInOrder;
    PlanFits(t, actions, plan);
    if picks == [] {
      NothingPlanned(t, actions, plan);
    } else {
      var i := picks[0];
      PlanAt(FindInText(t), actions, plan, i);
      var c := plan[i];
      ResolveCalm(t, i, actions[i]);
      ResolveFirst(t, actions, picks);
      var behind := PlanWithout(FindInText(t), actions, plan, i, FindInText(Edited(t, c)));
      AnyOrderSameText(Edited(t, c), actions[..i] + actions[i + 1..], plan[..i] + behind, picks[1..]);
      PlanParts(t, actions, plan, i);
      OneEditFirst(t, plan[..i], c, plan[i + 1..], behind);
      assert plan == plan[..i] + ([c] + plan[i + 1..]);
    }
  }

  lemma PlanAt(hs: seq<Hunk>, actions: seq<Action>, plan: seq<Change>, i: nat)
    requires IsPlan(hs, actions, plan) && i < |actions|
    ensures |plan| == |actions| == |hs| && ResolveHunk(hs[i], actions[i]) == Some(plan[i])
  {
  }

  lemma ResolveFirst(t: string, actions: seq<Action>, picks: seq<nat>)
    requires picks != [] && picks[0] < |FindInText(t)| && picks[0] < |actions|
    requires var r := ResolveHunk(FindInText(t)[picks[0]], actions[picks[0]]);
      r.Some? && r.value.from <= r.value.to <= |t|
    ensures var i := picks[0]; var c := ResolveHunk(FindInText(t)[i], actions[i]).value;
      ResolveInOrder(t, actions, picks) == ResolveInOrder(Edited(t, c), actions[..i] + actions[i + 1..], picks[1..])
  {
  }

  /** In a calm text every resolution is harmless, and leaves the text calm. */
  lemma ResolveCalm(t: string, i: nat, action: Action)
    requires Calm(t) && i < |FindInText(t)| && ResolveHunk(FindInText(t)[i], action).Some?
    ensures var c := ResolveHunk(FindInText(t)[i], action).value;
      && c.from <= c.to <= |t| && Calm(Edited(t, c))
      && WithoutHunk(FindInText(t), i, FindInText(Edited(t, c)), Growth(c))
  {
    hide SplitLines, FindHunks, ResolveHunk, WithoutHunk, Calm, Undisturbed, Frames, DocKinds;
    ResolveKeepsOthers(t, i, action);
    CalmIsUndisturbed(t, i);
  }

  lemma CalmIsUndisturbed(t: string, i: nat)
    requires Calm(t) && i < |Frames(DocKinds(SplitLines(t)), 0)|
    ensures Undisturbed(SplitLines(t), Frames(DocKinds(SplitLines(t)), 0)[i])
  {
  }

  lemma NothingPlanned(t: string, actions: seq<Action>, plan: seq<Change>)
    requires IsPlan(FindInText(t), actions, plan) && actions == []
    ensures ResolveInOrder(t, actions, []) == Some(t) && FindInText(t) == []
    ensures plan == [] && Ordered(plan, 0, |t|) && Apply(t, plan) == t
  {
  }

  lemma PlanFits(t: string, actions: seq<Action>, plan: seq<Change>)
    requires IsPlan(FindInText(t), actions, plan)
    ensures Ordered(plan, 0, |t|)
  {
    hide SplitLines, FindHunks, ResolveHunk;
    HunksInOrder(t);
    PlanOrderedAll(FindInText(t), actions, plan, |t|);
  }

  lemma PlanOrderedAll(hs: seq<Hunk>, actions: seq<Action>, plan: seq<Change>, n: nat)
    requires IsPlan(hs, actions, plan)
    requires forall k :: 0 <= k < |hs| ==> hs[k].from <= hs[k].to <= n
    requires forall j, k :: 0 <= j < k < |hs| ==> hs[j].to <= hs[k].from
    ensures Ordered(plan, 0, n)
  {
    PlanOrdered(hs, actions, plan, 0, 0, n);
    assert plan[0..] == plan;
  }

  lemma PlanParts(t: string, actions: seq<Action>, plan: seq<Change>, i: nat)
    requires IsPlan(FindInText(t), actions, plan) && i < |plan|
    ensures plan[i].from <= plan[i].to <= |t|
    ensures Ordered(plan[..i], 0, plan[i].from) && Ordered(plan[i + 1..], plan[i].to, |t|)
  {
    hide SplitLines, FindHunks;
    var hs := FindInText(t);
    HunksInOrder(t);
    PlanPartsOf(hs, actions, plan, i, |t|);
  }

  lemma PlanPartsOf(hs: seq<Hunk>, actions: seq<Action>, plan: seq<Change>, i: nat, n: nat)
    requires IsPlan(hs, actions, plan) && i < |plan|
    requires forall k :: 0 <= k < |hs| ==> hs[k].from <= hs[k].to <= n
    requires forall j, k :: 0 <= j < k < |hs| ==> hs[j].to <= hs[k].from
    ensures plan[i].from <= plan[i].to <= n
    ensures Ordered(plan[..i], 0, plan[i].from) && Ordered(plan[i + 1..], plan[i].to, n)
  {
    assert ResolveHunk(hs[i], actions[i]) == Some(plan[i]);
    assert plan[i].from == hs[i].from && plan[i].to == hs[i].to;
    PlanOrdered(hs, actions, plan, i + 1, hs[i].to, n);
    PlanOrderedAll(hs[..i], actions[..i], plan[..i], hs[i].from);
  }
}
