/** What an accepted hunk is made of, and that printed hunks are found again:
    `findConflictHunks` in `client/codemirror/conflict_markers.ts`. */
module ConflictPrinting {
  import opened Changes
  import opened TextLines
  import opened ConflictMarkers
  import opened ConflictResolution
  import opened Options

  // ----- A hunk is its marker lines and its sections -----

  lemma UnlinesCut(lines: seq<string>, i: nat, j: nat, k: nat)
    requires i <= j <= k <= |lines|
    ensures Unlines(lines[i..k]) == Unlines(lines[i..j]) + Unlines(lines[j..k])
  {
    assert lines[i..k] == lines[i..j] + lines[j..k];
    UnlinesConcat(lines[i..j], lines[j..k]);
  }

  /** A line and the lines behind it up to `k`. */
  lemma UnlinesStep(lines: seq<string>, i: nat, k: nat)
    requires i < k <= |lines|
    ensures Unlines(lines[i..k]) == (lines[i] + "\n") + Unlines(lines[i + 1..k])
  {
  }

  lemma LastLineText(lines: seq<string>, i: nat)
    requires i < |lines|
    ensures LineFrom(lines, i) <= LineTo(lines, i) <= |JoinLines(lines)|
    ensures JoinLines(lines)[LineFrom(lines, i)..LineTo(lines, i)] == lines[i]
    ensures i + 1 < |lines| ==> var to := LineTo(lines, i);
      to + 1 <= |JoinLines(lines)| && JoinLines(lines)[to..to + 1] == "\n"
  {
    TextFromLine(lines, i);
    var t, tail := JoinLines(lines), JoinLines(lines[i..]);
    var from := LineFrom(lines, i);
    assert t[from..] == tail;
    assert tail[..|lines[i]|] == lines[i];
    assert t[from..from + |lines[i]|] == tail[..|lines[i]|];
    if i + 1 < |lines| {
      assert tail[|lines[i]|] == '\n';
      assert t[from + |lines[i]|] == tail[|lines[i]|];
    }
  }

  function SectionLine(line: string, text: string): string {
    (line + "\n") + text
  }

  /** The text of a hunk, put together from what the hunk says. */
  function HunkText(lines: seq<string>, f: Frame, h: Hunk): string
    requires MarkersIn(f, lines)
  {
    SectionLine(lines[f.start], h.first.text) +
    (if f.base.Some? && h.base.Some? then SectionLine(lines[f.base.value], h.base.value.text) else "") +
    SectionLine(lines[f.sep], h.second.text) +
    (lines[f.end] + if f.end + 1 < |lines| then "\n" else "")
  }

  lemma SectionsTile(lines: seq<string>, f: Frame)
    requires MarkersIn(f, lines)
    ensures var h := HunkOf(lines, f);
      Unlines(lines[f.start..f.end]) == SectionLine(lines[f.start], h.first.text) +
        (if f.base.Some? then SectionLine(lines[f.base.value], h.base.value.text) else "") +
        SectionLine(lines[f.sep], h.second.text)
  {
    hide MatchMarker, ReadSection, Unlines;
    var after := if f.base.Some? then f.base.value else f.sep;
    SectionText(lines, f.start, after, MatchStart(lines[f.start]).value);
    SectionText(lines, f.sep, f.end, MatchEnd(lines[f.end]).value);
    UnlinesCut(lines, f.start, f.sep, f.end);
    UnlinesStep(lines, f.sep, f.end);
    UnlinesCut(lines, f.start, after, f.sep);
    UnlinesStep(lines, f.start, after);
    if f.base.Some? {
      SectionText(lines, f.base.value, f.sep, MatchBase(lines[f.base.value]).value);
      UnlinesStep(lines, f.base.value, f.sep);
    } else {
      assert lines[after..f.sep] == [];
      assert Unlines([]) == "";
    }
  }

  /** An accepted hunk: what it says is all of its text, in order; an SB hunk holds no
      further start marker. */
  lemma AcceptedHunk(lines: seq<string>, i: nat)
    requires |lines| > 0 && i < |FindHunks(lines)|
    ensures i < |Frames(DocKinds(lines), 0)|
    ensures var f, h := Frames(DocKinds(lines), 0)[i], FindHunks(lines)[i];
      && MarkersIn(f, lines) && h == HunkOf(lines, f)
      && h.from < h.to <= |JoinLines(lines)|
      && JoinLines(lines)[h.from..h.to] == HunkText(lines, f, h)
      && (h.kind == Sb ==> h.base.Some? && forall k :: f.start < k <= f.end ==> MatchStart(lines[k]).None?)
  {
    hide MatchMarker, FindHunks, HunksOf, Frames, LineFrom, JoinLines, ReadSection, FenceMask;
    FramesFit(lines);
    var f := Frames(DocKinds(lines), 0)[i];
    HunkTextIsText(lines, f);
    if f.kind == Sb {
      assert FrameIn(f, DocKinds(lines));
      forall k | f.start < k <= f.end
        ensures MatchStart(lines[k]).None?
      {
        KindAt(lines, k);
      }
    }
  }

  lemma HunkTextIsText(lines: seq<string>, f: Frame)
    requires MarkersIn(f, lines)
    ensures var h, t := HunkOf(lines, f), JoinLines(lines);
      h.from < h.to <= |t| && t[h.from..h.to] == HunkText(lines, f, h)
  {
    hide MatchMarker, LineFrom, JoinLines, ReadSection, SectionLine, Unlines;
    var h, t := HunkOf(lines, f), JoinLines(lines);
    HunkExtent(lines, f);
    EndsBeforeText(lines, f.end);
    LinesSlice(lines, f.start, f.end);
    LastLineText(lines, f.end);
    SectionsTile(lines, f);
    var m, e := LineFrom(lines, f.end), LineTo(lines, f.end);
    assert t[h.from..h.to] == t[h.from..m] + t[m..h.to];
    assert f.end + 1 < |lines| ==> t[m..h.to] == t[m..e] + t[e..e + 1];
  }

  // ----- Printing a hunk and scanning it again -----

  datatype Conflict = Conflict(firstHash: string, first: seq<string>,
                               baseHash: string, base: seq<string>,
                               secondHash: string, second: seq<string>)

  function Printed(c: Conflict): seq<string> {
    [SB_START + c.firstHash] + c.first + [SB_BASE + c.baseHash] + c.base +
    [SEPARATOR] + c.second + [SB_END + c.secondHash]
  }

  predicate NoCR(s: string) {
    s != "" ==> s[|s| - 1] != '\r'
  }

  /** No section holds a start marker, nor the line that would end it early. */
  ghost predicate Printable(c: Conflict) {
    && NoCR(c.firstHash) && NoCR(c.baseHash) && NoCR(c.secondHash)
    && (forall k :: 0 <= k < |c.first| ==> MatchStart(c.first[k]).None? && KindOf(MatchBase(c.first[k])) != Some(Sb))
    && (forall k :: 0 <= k < |c.base| ==> MatchStart(c.base[k]).None? && !IsSeparator(c.base[k]))
    && (forall k :: 0 <= k < |c.second| ==> MatchStart(c.second[k]).None? && KindOf(MatchEnd(c.second[k])) != Some(Sb))
  }

  lemma PrefixedLine(prefix: string, hash: string, git: string)
    requires prefix != "" && prefix[|prefix| - 1] != '\r' && NoCR(hash)
    ensures MatchMarker(prefix + hash, prefix, git) == Some(Marker(Sb, hash, None))
  {
  }

  lemma NotAStart(line: string)
    requires line != "" && line[0] != '<' && line != "\r"
    ensures MatchStart(line).None?
  {
  }

  lemma {:induction false} ScanHits(ks: seq<LineKind>, i: nat, m: nat, respect: bool, want: Want)
    requires i <= m < |ks| && !Look(ks[m], m, respect, want).Missing?
    requires forall k :: i <= k < m ==> Look(ks[k], k, respect, want).Missing?
    ensures Scan(ks, i, respect, want) == Look(ks[m], m, respect, want)
    decreases m - i
  {
    if i < m {
      ScanHits(ks, i + 1, m, respect, want);
    }
  }

  /** The line classes of a printed hunk, from line `a` on. */
  ghost predicate GrammarAt(ks: seq<LineKind>, f: Frame) {
    && f.kind == Sb && f.base.Some? && f.start < f.base.value < f.sep < f.end < |ks|
    && ks[f.start].start == Some(Sb)
    && (forall k :: f.start < k <= f.end ==> ks[k].start.None?)
    && (forall k :: f.start < k < f.base.value ==> ks[k].base != Some(Sb)) && ks[f.base.value].base == Some(Sb)
    && (forall k :: f.base.value < k < f.sep ==> !ks[k].separator) && ks[f.sep].separator
    && (forall k :: f.sep < k < f.end ==> ks[k].end != Some(Sb)) && ks[f.end].end == Some(Sb)
  }

  lemma GrammarIsTaken(ks: seq<LineKind>, f: Frame)
    requires GrammarAt(ks, f)
    ensures AtLine(ks, f.start) == Take(f)
  {
    ScanHits(ks, f.start + 1, f.base.value, false, Want(Some(Sb), false));
    ScanHits(ks, f.base.value + 1, f.sep, false, Want(None, true));
    ScanHits(ks, f.sep + 1, f.end, false, WantEnd(Sb));
  }

  function PrintedFrame(at: nat, c: Conflict): Frame {
    var base := at + 1 + |c.first|;
    var sep := base + 1 + |c.base|;
    Frame(Sb, at, Some(base), sep, sep + 1 + |c.second|)
  }

  /** What the lines of a printed hunk are. */
  lemma PrintedLines(lines: seq<string>, at: nat, c: Conflict)
    requires at + |Printed(c)| <= |lines| && lines[at..at + |Printed(c)|] == Printed(c)
    ensures var f := PrintedFrame(at, c);
      && f.end + 1 == at + |Printed(c)|
      && lines[f.start] == SB_START + c.firstHash && lines[f.start + 1..f.base.value] == c.first
      && lines[f.base.value] == SB_BASE + c.baseHash && lines[f.base.value + 1..f.sep] == c.base
      && lines[f.sep] == SEPARATOR && lines[f.sep + 1..f.end] == c.second
      && lines[f.end] == SB_END + c.secondHash
  {
    hide Printed;
    var p, f := Printed(c), PrintedFrame(0, c);
    PrintedParts(c);
    PrintedLineAt(lines, at, p, 0);
    PrintedLineAt(lines, at, p, f.base.value);
    PrintedLineAt(lines, at, p, f.sep);
    PrintedLineAt(lines, at, p, f.end);
    SubsectionOf(lines, at, p, 1, f.base.value);
    SubsectionOf(lines, at, p, f.base.value + 1, f.sep);
    SubsectionOf(lines, at, p, f.sep + 1, f.end);
  }

  lemma PrintedLineAt(lines: seq<string>, at: nat, p: seq<string>, k: nat)
    requires at + |p| <= |lines| && lines[at..at + |p|] == p && k < |p|
    ensures lines[at + k] == p[k]
  {
    assert lines[at..at + |p|][k] == lines[at + k];
  }

  lemma PrintedParts(c: Conflict)
    ensures var p, f := Printed(c), PrintedFrame(0, c);
      && |p| == f.end + 1
      && p[0] == SB_START + c.firstHash && p[1..f.base.value] == c.first
      && p[f.base.value] == SB_BASE + c.baseHash && p[f.base.value + 1..f.sep] == c.base
      && p[f.sep] == SEPARATOR && p[f.sep + 1..f.end] == c.second
      && p[f.end] == SB_END + c.secondHash
  {
  }

  lemma SubsectionOf(lines: seq<string>, at: nat, p: seq<string>, i: nat, j: nat)
    requires at + |p| <= |lines| && lines[at..at + |p|] == p && i <= j <= |p|
    ensures lines[at + i..at + j] == p[i..j]
  {
    SliceSlice(lines, at, at + |p|, i, j);
  }

  lemma MarkerLineKinds(c: Conflict)
    requires Printable(c)
    ensures MatchStart(SB_START + c.firstHash) == Some(Marker(Sb, c.firstHash, None))
    ensures MatchBase(SB_BASE + c.baseHash) == Some(Marker(Sb, c.baseHash, None))
    ensures MatchStart(SB_BASE + c.baseHash).None?
    ensures MatchEnd(SB_END + c.secondHash) == Some(Marker(Sb, c.secondHash, None))
    ensures MatchStart(SB_END + c.secondHash).None?
    ensures IsSeparator(SEPARATOR) && MatchStart(SEPARATOR).None?
  {
    PrefixedLine(SB_START, c.firstHash, GIT_START);
    PrefixedLine(SB_BASE, c.baseHash, GIT_BASE);
    PrefixedLine(SB_END, c.secondHash, GIT_END);
    NotAStart(SB_BASE + c.baseHash);
    NotAStart(SB_END + c.secondHash);
    NotAStart(SEPARATOR);
  }

  /** The lines of a section stand in the document one by one. */
  lemma SectionKinds(lines: seq<string>, from: nat, section: seq<string>)
    requires from + |section| <= |lines| && lines[from..from + |section|] == section
    ensures forall k :: from <= k < from + |section| ==>
      DocKinds(lines)[k] == Classify(section[k - from], FenceMask(lines)[k])
  {
  }

  lemma FirstKinds(lines: seq<string>, from: nat, c: Conflict)
    requires Printable(c) && from + |c.first| <= |lines| && lines[from..from + |c.first|] == c.first
    ensures forall k :: from <= k < from + |c.first| ==>
      DocKinds(lines)[k].start.None? && DocKinds(lines)[k].base != Some(Sb)
  {
    hide MatchStart, MatchBase, MatchEnd, IsSeparator, DocKinds, FenceMask;
    SectionKinds(lines, from, c.first);
  }

  lemma BaseKinds(lines: seq<string>, from: nat, c: Conflict)
    requires Printable(c) && from + |c.base| <= |lines| && lines[from..from + |c.base|] == c.base
    ensures forall k :: from <= k < from + |c.base| ==> DocKinds(lines)[k].start.None? && !DocKinds(lines)[k].separator
  {
    hide MatchStart, MatchBase, MatchEnd, IsSeparator, DocKinds, FenceMask;
    SectionKinds(lines, from, c.base);
  }

  lemma SecondKinds(lines: seq<string>, from: nat, c: Conflict)
    requires Printable(c) && from + |c.second| <= |lines| && lines[from..from + |c.second|] == c.second
    ensures forall k :: from <= k < from + |c.second| ==>
      DocKinds(lines)[k].start.None? && DocKinds(lines)[k].end != Some(Sb)
  {
    hide MatchStart, MatchBase, MatchEnd, IsSeparator, DocKinds, FenceMask;
    SectionKinds(lines, from, c.second);
  }

  lemma PrintedGrammar(lines: seq<string>, at: nat, c: Conflict)
    requires Printable(c)
    requires at + |Printed(c)| <= |lines| && lines[at..at + |Printed(c)|] == Printed(c)
    ensures GrammarAt(DocKinds(lines), PrintedFrame(at, c))
  {
    hide MatchMarker, FenceMask, Printed, MatchStart, MatchBase, MatchEnd, IsSeparator, Printable, DocKinds;
    PrintedLines(lines, at, c);
    var f := PrintedFrame(at, c);
    PrintedMarkers(lines, f, c);
    FirstKinds(lines, f.start + 1, c);
    BaseKinds(lines, f.base.value + 1, c);
    SecondKinds(lines, f.sep + 1, c);
  }

  lemma PrintedMarkers(lines: seq<string>, f: Frame, c: Conflict)
    requires Printable(c) && f.base.Some?
    requires f.start < |lines| && f.base.value < |lines| && f.sep < |lines| && f.end < |lines|
    requires lines[f.start] == SB_START + c.firstHash && lines[f.base.value] == SB_BASE + c.baseHash
    requires lines[f.sep] == SEPARATOR && lines[f.end] == SB_END + c.secondHash
    ensures var ks := DocKinds(lines);
      && ks[f.start].start == Some(Sb)
      && ks[f.base.value].start.None? && ks[f.base.value].base == Some(Sb)
      && ks[f.sep].start.None? && ks[f.sep].separator
      && ks[f.end].start.None? && ks[f.end].end == Some(Sb)
  {
    hide MatchMarker, FenceMask, MatchStart, MatchBase, MatchEnd, IsSeparator, Printable, DocKinds;
    MarkerLineKinds(c);
    KindAt(lines, f.start);
    KindAt(lines, f.base.value);
    KindAt(lines, f.sep);
    KindAt(lines, f.end);
  }

  /** The hunk that a printed conflict must be read as. */
  ghost predicate ReadsAs(h: Hunk, c: Conflict, from: nat) {
    && h.from == from && h.kind == Sb && h.base.Some?
    && h.first.hash == c.firstHash && h.first.text == Unlines(c.first)
    && h.base.value.hash == c.baseHash && h.base.value.text == Unlines(c.base)
    && h.second.hash == c.secondHash && h.second.text == Unlines(c.second)
  }

  lemma PrintedHunk(lines: seq<string>, at: nat, c: Conflict)
    requires Printable(c)
    requires at + |Printed(c)| <= |lines| && lines[at..at + |Printed(c)|] == Printed(c)
    ensures var f := PrintedFrame(at, c);
      MarkersIn(f, lines) && ReadsAs(HunkOf(lines, f), c, LineFrom(lines, at))
  {
    hide MatchMarker, Printed, StripTrailingCR, Unlines, LineFrom, ReadSection, JoinLines;
    PrintedLines(lines, at, c);
    MarkerLineKinds(c);
    hide MatchStart, MatchBase, MatchEnd;
    var f := PrintedFrame(at, c);
    SectionText(lines, f.start, f.base.value, MatchStart(lines[f.start]).value);
    SectionText(lines, f.base.value, f.sep, MatchBase(lines[f.base.value]).value);
    SectionText(lines, f.sep, f.end, MatchEnd(lines[f.end]).value);
  }

  // ----- A printed conflict behind and in front of other text -----

  /** The main loop reaches a start marker put behind these lines. It does not when the last
      start marker that counts is left open; two such in a row cancel out, as the second one is
      skipped with the first. */
  ghost predicate NoneLeftOpen(before: seq<string>) {
    FramesUntil(DocKinds(before + [SB_START]), 0, |before|).Some?
  }

  lemma StartCounts(before: seq<string>)
    ensures Counts(DocKinds(before + [SB_START])[|before|])
  {
    hide MatchMarker, FenceMask;
    PrefixedLine(SB_START, "", GIT_START);
    assert SB_START + "" == SB_START;
    KindAt(before + [SB_START], |before|);
  }

  /** Only the lines in front decide whether a start marker is reached, and what is found up to it. */
  lemma ReachedAlike(before: seq<string>, lines: seq<string>)
    requires |before| < |lines| && lines[..|before|] == before
    ensures NoneLeftOpen(before) ==>
      FramesUntil(DocKinds(lines), 0, |before|) == FramesUntil(DocKinds(before + [SB_START]), 0, |before|)
    ensures Counts(DocKinds(lines)[|before|]) && FramesUntil(DocKinds(lines), 0, |before|).Some? ==>
      NoneLeftOpen(before)
  {
    hide DocKinds, FramesUntil, Counts, Alike;
    var a, alone := |before|, before + [SB_START];
    assert alone[..a] == before;
    StartCounts(before);
    AlikeFront(alone, lines, a);
    AlikeFront(lines, alone, a);
    if NoneLeftOpen(before) {
      UntilMoved(DocKinds(alone), DocKinds(lines), 0, a);
    }
    if Counts(DocKinds(lines)[a]) && FramesUntil(DocKinds(lines), 0, a).Some? {
      UntilMoved(DocKinds(lines), DocKinds(alone), 0, a);
    }
  }

  lemma {:induction false} PlainReached(ks: seq<LineKind>, n: nat, a: nat)
    requires n <= a <= |ks| && forall k :: n <= k < a ==> ks[k].start.None?
    ensures FramesUntil(ks, n, a) == Some([])
    decreases a - n
  {
    hide FramesUntil;
    if n == a {
      NothingUntil(ks, n);
    } else {
      UntilStep(ks, n, a);
      PlainReached(ks, n + 1, a);
      var none: seq<Frame> := [];
      assert none + none == none;
    }
  }

  /** Lines without any start marker leave none open. */
  lemma NoStartNoneOpen(before: seq<string>)
    requires forall k :: 0 <= k < |before| ==> MatchStart(before[k]).None?
    ensures NoneLeftOpen(before)
  {
    hide MatchMarker, DocKinds, FramesUntil;
    var lines := before + [SB_START];
    assert lines[0..0 + |before|] == before;
    NoStartsIn(lines, 0, before);
    PlainReached(DocKinds(lines), 0, |before|);
  }

  ghost predicate FoundAt(lines: seq<string>, a: nat) {
    exists i :: 0 <= i < |Frames(DocKinds(lines), 0)| && Frames(DocKinds(lines), 0)[i].start == a
  }

  /** A conflict printed behind some lines is found, whatever follows, exactly if they leave no
      start marker open. */
  lemma PrintedIsFoundIff(before: seq<string>, c: Conflict, behind: seq<string>)
    requires Printable(c)
    ensures FoundAt(before + Printed(c) + behind, |before|) <==> NoneLeftOpen(before)
  {
    hide DocKinds, FramesUntil, Counts, Printed, Frames, AtLine, FrameIn, ReadsAs, HunkOf, MarkersIn, Unlines;
    var lines, at := before + Printed(c) + behind, |before|;
    PrintedStands(before, c, behind);
    ReachedAlike(before, lines);
    var ks := DocKinds(lines);
    if NoneLeftOpen(before) {
      FramesFromUntil(ks, 0, at);
      FramesStep(ks, at);
      var front := FramesUntil(ks, 0, at).value;
      assert Frames(ks, 0)[|front|].start == at;
    }
    if FoundAt(lines, at) {
      var i :| 0 <= i < |Frames(ks, 0)| && Frames(ks, 0)[i].start == at;
      FrameReached(ks, 0, i);
      FrameBounds(ks, Frames(ks, 0)[i]);
    }
  }

  /** Where the printed lines are, and what the loop makes of them. */
  lemma PrintedStands(before: seq<string>, c: Conflict, behind: seq<string>)
    requires Printable(c)
    ensures var lines, f := before + Printed(c) + behind, PrintedFrame(|before|, c);
      && |before| < |lines| && lines[..|before|] == before && lines[f.end + 1..] == behind
      && f.start == |before| && f.end + 1 == |before + Printed(c)| <= |lines|
      && lines[..f.end + 1] == before + Printed(c)
      && AtLine(DocKinds(lines), |before|) == Take(f)
      && MarkersIn(f, lines) && ReadsAs(HunkOf(lines, f), c, |Unlines(before)|)
      && forall k :: f.start <= k <= f.end ==> DocKinds(lines)[k].start != Some(Git)
  {
    hide MatchMarker, Printed, DocKinds, HunkOf, MarkersIn, AtLine, ReadsAs, Unlines;
    var lines, at := before + Printed(c) + behind, |before|;
    assert lines[at..at + |Printed(c)|] == Printed(c);
    assert lines[..at] == before && lines[..at + |Printed(c)|] == before + Printed(c);
    PrintedGrammar(lines, at, c);
    GrammarIsTaken(DocKinds(lines), PrintedFrame(at, c));
    PrintedHunk(lines, at, c);
    PrintedLines(lines, at, c);
  }

  /** What stands behind is not drawn into a fence that is still open, or has nothing to do with
      fences. */
  ghost predicate FencesApart(before: seq<string>, c: Conflict, behind: seq<string>) {
    || FenceBefore(before + Printed(c), |before + Printed(c)|) == NoFence
    || (SbDocument(before) && SbDocument(behind))
  }

  /** The text in front, a printed conflict and the text behind: the hunks found are those of the
      three, in order. */
  lemma PrintedIsFound(before: seq<string>, c: Conflict, behind: seq<string>)
    requires Printable(c) && NoneLeftOpen(before) && FencesApart(before, c, behind)
    ensures var hs, front, back :=
        FindHunks(before + Printed(c) + behind), FindHunks(before + [""]), FindHunks(behind);
      && |hs| == |front| + 1 + |back|
      && hs[..|front|] == front
      && ReadsAs(hs[|front|], c, |Unlines(before)|)
      && forall k :: 0 <= k < |back| ==> MovedHunk(back[k], hs[|front| + 1 + k], |Unlines(before + Printed(c))|)
  {
    hide MatchMarker, Printed, Unlines, DocKinds, FindHunks, HunkOf, MarkersIn, FrameIn, MovedHunk, ReadsAs, Frames,
      NoneLeftOpen, FencesApart, HunksOf;
    var lines, f, gs := PrintedFrames(before, c, behind);
    FramesFit(lines);
    FramesFit(before + [""]);
    FramesFit(behind);
    HunksFront(before, lines, gs, Frames(DocKinds(lines), 0));
    forall k | 0 <= k < |FindHunks(behind)|
      ensures MovedHunk(FindHunks(behind)[k], FindHunks(lines)[|gs| + 1 + k], LineFrom(lines, f.end + 1))
    {
      var g, g' := Frames(DocKinds(behind), 0)[k], Frames(DocKinds(lines), 0)[|gs| + 1 + k];
      FrameStarts(behind, g);
      KeptBehind(behind, 0, lines, f.end + 1, g, g');
      StartAtZero(behind);
    }
  }

  /** The same for the frames. */
  lemma PrintedFrames(before: seq<string>, c: Conflict, behind: seq<string>)
    returns (lines: seq<string>, f: Frame, gs: seq<Frame>)
    requires Printable(c) && NoneLeftOpen(before) && FencesApart(before, c, behind)
    ensures lines == before + Printed(c) + behind && gs == Frames(DocKinds(before + [""]), 0)
    ensures |before| < |lines| && lines[..|before|] == before && f.end + 1 <= |lines| && lines[f.end + 1..] == behind
    ensures lines[..f.end + 1] == before + Printed(c)
    ensures MarkersIn(f, lines) && ReadsAs(HunkOf(lines, f), c, |Unlines(before)|)
    ensures forall k :: 0 <= k < |gs| ==> gs[k].end < |before|
    ensures var fs, bs := Frames(DocKinds(lines), 0), Frames(DocKinds(behind), 0);
      && |fs| == |gs| + 1 + |bs| && fs[..|gs|] == gs && fs[|gs|] == f
      && forall k :: 0 <= k < |bs| ==>
           MovedFrame(bs[k], fs[|gs| + 1 + k], 0, f.end + 1) && f.end < fs[|gs| + 1 + k].start
  {
    hide MatchMarker, Printed, Unlines, DocKinds, HunkOf, MarkersIn, FrameIn, ReadsAs, Frames, FencesApart, AtLine,
      FramesUntil, MovedFrame;
    lines, f := before + Printed(c) + behind, PrintedFrame(|before|, c);
    PrintedStands(before, c, behind);
    gs := FramesInBefore(before);
    ReachedAlike(before, lines);
    FramesFromUntil(DocKinds(lines), 0, |before|);
    FencedAlikeBehind(before, c, behind);
    FramesAfterPrinted(lines, f, behind);
    ThreeParts(Frames(DocKinds(lines), 0), gs, f, Frames(DocKinds(lines), |before|), Frames(DocKinds(behind), 0));
  }

  lemma ThreeParts(fs: seq<Frame>, gs: seq<Frame>, f: Frame, tail: seq<Frame>, bs: seq<Frame>)
    requires fs == gs + tail && |tail| == 1 + |bs| && tail[0] == f
    requires forall k :: 0 <= k < |bs| ==> MovedFrame(bs[k], tail[1 + k], 0, f.end + 1)
    requires forall i, j :: 0 <= i < j < |fs| ==> fs[i].end < fs[j].start
    ensures |fs| == |gs| + 1 + |bs| && fs[..|gs|] == gs && fs[|gs|] == f
    ensures forall k :: 0 <= k < |gs| ==> gs[k].end < f.start
    ensures forall k :: 0 <= k < |bs| ==>
      MovedFrame(bs[k], fs[|gs| + 1 + k], 0, f.end + 1) && f.end < fs[|gs| + 1 + k].start
  {
    hide MovedFrame;
    forall k | 0 <= k < |bs|
      ensures MovedFrame(bs[k], fs[|gs| + 1 + k], 0, f.end + 1) && f.end < fs[|gs| + 1 + k].start
    {
      assert fs[|gs| + 1 + k] == tail[1 + k];
    }
    forall k | 0 <= k < |gs|
      ensures gs[k].end < f.start
    {
      assert fs[k] == gs[k] && fs[|gs|] == tail[0];
    }
  }

  /** The frames of the text in front, read by itself. */
  lemma FramesInBefore(before: seq<string>) returns (gs: seq<Frame>)
    requires NoneLeftOpen(before)
    ensures FramesUntil(DocKinds(before + [SB_START]), 0, |before|) == Some(gs)
    ensures Frames(DocKinds(before + [""]), 0) == gs
  {
    hide DocKinds, FramesUntil, Frames;
    var lines := before + [""];
    assert lines[..|before|] == before;
    ReachedAlike(before, lines);
    gs := FramesUntil(DocKinds(lines), 0, |before|).value;
    FramesFromUntil(DocKinds(lines), 0, |before|);
    NoFramesInLastLine(lines, |before|);
    assert gs + [] == gs;
  }

  lemma HunksFront(before: seq<string>, lines: seq<string>, gs: seq<Frame>, fs: seq<Frame>)
    requires |before| < |lines| && lines[..|before|] == before && gs <= fs
    requires forall k :: 0 <= k < |gs| ==> MarkersIn(gs[k], before + [""])
    requires forall k :: 0 <= k < |fs| ==> MarkersIn(fs[k], lines)
    requires forall k :: 0 <= k < |gs| ==> gs[k].end < |before|
    ensures HunksOf(lines, fs)[..|gs|] == HunksOf(before + [""], gs)
  {
    hide MarkersIn, HunkOf;
    var alone := before + [""];
    assert alone[..|before|] == before;
    forall k | 0 <= k < |gs|
      ensures HunkOf(lines, fs[k]) == HunkOf(alone, gs[k])
    {
      assert fs[k] == gs[k];
      KeptInFront(alone, lines, gs[k], |before|);
    }
  }

  lemma FencedAlikeBehind(before: seq<string>, c: Conflict, behind: seq<string>)
    requires Printable(c) && FencesApart(before, c, behind)
    ensures var lines, end := before + Printed(c) + behind, |before + Printed(c)|;
      end <= |lines| && FencedAlike(behind, 0, lines, end)
  {
    hide Printed, FenceBefore, MatchMarker, FencedAlike, SbDocument;
    var lines, front := before + Printed(c) + behind, before + Printed(c);
    assert lines[0..0 + |front|] == front == front[0..0 + |front|];
    if FenceBefore(front, |front|) == NoFence {
      StartOfText(lines, front);
      StartOfText(lines, behind);
      SameFence(lines, 0, front, 0, |front|, |front|);
      AlikeByFence(behind, 0, lines, |front|);
    } else {
      SbAround(before, c, behind);
      AlikeBySb(behind, 0, lines, |front|);
    }
  }

  lemma AlikeBySb(lines: seq<string>, i: nat, lines': seq<string>, j: nat)
    requires i <= |lines| && j <= |lines'| && SbDocument(lines) && SbDocument(lines')
    ensures FencedAlike(lines, i, lines', j)
  {
  }

  /** Printing adds no git start. */
  lemma SbAround(before: seq<string>, c: Conflict, behind: seq<string>)
    requires Printable(c) && SbDocument(before) && SbDocument(behind)
    ensures SbDocument(before + Printed(c) + behind)
  {
    hide MatchMarker, Printed, DocKinds, FenceMask, ReadsAs, HunkOf, MarkersIn, AtLine, Unlines;
    var lines, f := before + Printed(c) + behind, PrintedFrame(|before|, c);
    PrintedStands(before, c, behind);
    forall k | 0 <= k < |lines|
      ensures KindOf(MatchStart(lines[k])) != Some(Git)
    {
      if k < f.start {
        assert lines[k] == lines[..|before|][k];
      } else if k <= f.end {
        KindAt(lines, k);
      } else {
        assert lines[k] == lines[f.end + 1..][k - (f.end + 1)];
      }
    }
  }

  lemma FrameStarts(lines: seq<string>, f: Frame)
    requires MarkersIn(f, lines)
    ensures |lines| > 0
  {
  }

  lemma FramesAfterPrinted(lines: seq<string>, f: Frame, behind: seq<string>)
    requires f.start <= f.end < |lines| && lines[f.end + 1..] == behind && FencedAlike(behind, 0, lines, f.end + 1)
    requires AtLine(DocKinds(lines), f.start) == Take(f)
    ensures var fs, gs := Frames(DocKinds(lines), f.start), Frames(DocKinds(behind), 0);
      && |fs| == 1 + |gs| && fs[0] == f
      && forall k :: 0 <= k < |gs| ==> MovedFrame(gs[k], fs[1 + k], 0, f.end + 1)
  {
    hide MatchMarker, DocKinds, FrameIn, Look, SbFrame, AtLine, FencedAlike, Alike;
    var ks, js := DocKinds(behind), DocKinds(lines);
    assert behind[0..0 + |behind|] == behind == lines[f.end + 1..f.end + 1 + |behind|];
    AlikeLines(behind, 0, lines, f.end + 1, |behind|);
    FramesMoved(ks, 0, js, f.end + 1);
  }

  /** The `i`-th hunk is made of the `i`-th frame. */
  lemma FramesFitIn(lines: seq<string>, i: nat)
    requires i < |FindHunks(lines)| || i < |Frames(DocKinds(lines), 0)|
    ensures var fs := Frames(DocKinds(lines), 0);
      i < |fs| == |FindHunks(lines)| && MarkersIn(fs[i], lines) && FindHunks(lines)[i] == HunkOf(lines, fs[i])
  {
    hide MarkersIn, HunkOf, Frames, DocKinds;
    FramesFit(lines);
  }

  lemma KindOfLine(lines: seq<string>, i: nat)
    requires i < |lines|
    ensures DocKinds(lines)[i].start == KindOf(MatchStart(lines[i]))
  {
    hide MatchMarker, FenceMask;
    KindAt(lines, i);
  }

  /** What keeping some lines of a hunk leaves, with the text around it. */
  function KeptLines(before: seq<string>, chosen: seq<string>, behind: seq<string>): seq<string> {
    before + chosen + if behind == [] then [""] else behind
  }

  /** Each action keeps the lines it names, in place of the conflict, and all the text around it. */
  lemma ResolvedPrinted(before: seq<string>, c: Conflict, behind: seq<string>) returns (i: nat)
    requires Printable(c) && NoneLeftOpen(before)
    ensures var lines := before + Printed(c) + behind; var t, hs := JoinLines(lines), FindHunks(lines);
      && i < |hs| && hs[i].from == |Unlines(before)| && hs[i].from <= hs[i].to <= |t|
      && ResolvesTo(t, hs[i], TakeFirst, KeptLines(before, c.first, behind))
      && ResolvesTo(t, hs[i], TakeSecond, KeptLines(before, c.second, behind))
      && ResolvesTo(t, hs[i], TakeBoth, KeptLines(before, c.first + c.second, behind))
      && ResolvesTo(t, hs[i], TakeBase, KeptLines(before, c.base, behind))
  {
    hide MatchMarker, Printed, Unlines, DocKinds, HunkOf, MarkersIn, AtLine, ReadsAs, FramesUntil, Frames, JoinLines,
      NoneLeftOpen, ResolvesTo, KeptLines, ResolveHunk, HunksOf;
    var lines, f := before + Printed(c) + behind, PrintedFrame(|before|, c);
    PrintedStands(before, c, behind);
    i := PrintedAt(before, c, behind);
    FramesFit(lines);
    HunkSpan(lines, f);
    UnlinesConcat(c.first, c.second);
    SectionsRead(HunkOf(lines, f), c, |Unlines(before)|);
    KeepsTheLines(lines, f, before, behind, TakeFirst, c.first);
    KeepsTheLines(lines, f, before, behind, TakeSecond, c.second);
    KeepsTheLines(lines, f, before, behind, TakeBoth, c.first + c.second);
    KeepsTheLines(lines, f, before, behind, TakeBase, c.base);
  }

  /** The resolution is an edit of the hunk's text that leaves exactly these lines. */
  ghost predicate ResolvesTo(t: string, h: Hunk, action: Action, lines: seq<string>) {
    var r := ResolveHunk(h, action);
    |lines| > 0 && r.Some? && r.value.from <= r.value.to <= |t| && Edited(t, r.value) == JoinLines(lines)
  }

  lemma SectionsRead(h: Hunk, c: Conflict, from: nat)
    requires ReadsAs(h, c, from)
    ensures h.from == from
    ensures ResolveHunk(h, TakeFirst) == Some(Change(h.from, h.to, Unlines(c.first)))
    ensures ResolveHunk(h, TakeSecond) == Some(Change(h.from, h.to, Unlines(c.second)))
    ensures ResolveHunk(h, TakeBoth) == Some(Change(h.from, h.to, Unlines(c.first) + Unlines(c.second)))
    ensures ResolveHunk(h, TakeBase) == Some(Change(h.from, h.to, Unlines(c.base)))
  {
  }

  lemma PrintedAt(before: seq<string>, c: Conflict, behind: seq<string>) returns (i: nat)
    requires Printable(c) && NoneLeftOpen(before)
    ensures var fs := Frames(DocKinds(before + Printed(c) + behind), 0);
      i < |fs| && fs[i] == PrintedFrame(|before|, c)
  {
    hide DocKinds, FramesUntil, Counts, Printed, Frames, AtLine, FrameIn, ReadsAs, HunkOf, MarkersIn, Unlines;
    var lines, at := before + Printed(c) + behind, |before|;
    PrintedStands(before, c, behind);
    ReachedAlike(before, lines);
    FramesFromUntil(DocKinds(lines), 0, at);
    FramesStep(DocKinds(lines), at);
    i := |FramesUntil(DocKinds(lines), 0, at).value|;
  }

  lemma KeepsTheLines(lines: seq<string>, f: Frame, before: seq<string>, behind: seq<string>, action: Action,
                      chosen: seq<string>)
    requires f.start == |before| <= f.end < |lines| && MarkersIn(f, lines)
    requires lines[..|before|] == before && lines[f.end + 1..] == behind
    requires var h := HunkOf(lines, f); ResolveHunk(h, action) == Some(Change(h.from, h.to, Unlines(chosen)))
    ensures ResolvesTo(JoinLines(lines), HunkOf(lines, f), action, KeptLines(before, chosen, behind))
  {
    hide MatchMarker, HunkOf, MarkersIn, JoinLines, Unlines, ResolveHunk;
    ReplaceText(lines, f, chosen);
    assert behind == [] <==> f.end + 1 == |lines|;
    assert ReplaceFrame(lines, f, chosen) == KeptLines(before, chosen, behind);
  }

  /** One start marker left open hides the conflict behind it; two do not. */
  lemma StrayStartHides()
    ensures !NoneLeftOpen([SB_START]) && NoneLeftOpen([SB_START, SB_START])
  {
    hide DocKinds, AtLine;
    var two, three := [SB_START] + [SB_START], [SB_START, SB_START] + [SB_START];
    StartsOnly(two);
    UntilStep(DocKinds(two), 0, 1);
    StartsOnly(three);
    UntilStep(DocKinds(three), 0, 2);
  }

  lemma StartsOnly(lines: seq<string>)
    requires |lines| > 1 && forall k :: 0 <= k < |lines| ==> lines[k] == SB_START
    ensures AtLine(DocKinds(lines), 0) == Skip(2)
  {
    hide MatchMarker, FenceMask, DocKinds;
    PrefixedLine(SB_START, "", GIT_START);
    assert SB_START + "" == SB_START;
    KindAt(lines, 0);
    KindAt(lines, 1);
  }
}
