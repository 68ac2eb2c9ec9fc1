/** Baked sections: `client/baked_sections/regions.ts` and `client/baked_sections/bake.ts`. */
module BakedSections {
  import opened TextLines
  import opened Changes

  const OPEN := "<!--#lua"
  const ARROW := "-->"
  const CLOSE := "<!--/lua-->"
  const ESCAPED := "<!-- /lua -->"

  /** `end` is just behind the opening marker, `bodyTo` in front of the closing one. */
  datatype Section = Section(expr: string, start: nat, bodyFrom: nat, bodyTo: nat, end: nat)

  /** A match of the opening marker and of the expression inside it. */
  datatype Match = NoMatch | Match(index: nat, groupFrom: nat, groupTo: nat, end: nat)

  // ----- The opening marker, `<!--#lua\s+([\s\S]*?)-->` -----

  predicate OpenAt(t: string, i: nat) {
    MatchAt(t, OPEN, i) && i + |OPEN| < |t| && IsSpace(t[i + |OPEN|])
  }

  function SkipSpaces(t: string, i: nat): (j: nat)
    ensures i <= j && (i <= |t| ==> j <= |t|)
    decreases |t| - i
  {
    if i < |t| && IsSpace(t[i]) then SkipSpaces(t, i + 1) else i
  }

  /** `OPEN_RE.exec(t)` with `lastIndex` at `from`: the leftmost match; the expression runs to
      the first arrow. */
  function Exec(t: string, from: nat): (m: Match)
    decreases |t| - from
  {
    if from >= |t| then NoMatch
    else
      var arrow := IndexOf(t, ARROW, from + |OPEN| + 1);
      if OpenAt(t, from) && arrow >= 0
      then Match(from, SkipSpaces(t, from + |OPEN|), arrow, arrow + |ARROW|)
      else Exec(t, from + 1)
  }

  lemma SpacesStop(t: string, i: nat, j: nat)
    requires i <= j < |t| && !IsSpace(t[j])
    ensures SkipSpaces(t, i) <= j
    decreases j - i
  {
  }

  ghost predicate MatchFits(t: string, from: nat, m: Match)
    requires m.Match?
  {
    && from <= m.index && m.index + |OPEN| <= m.groupFrom <= m.groupTo
    && m.end == m.groupTo + |ARROW| <= |t|
    && OpenAt(t, m.index) && m.groupTo == IndexOf(t, ARROW, m.index + |OPEN| + 1)
    && m.groupFrom == SkipSpaces(t, m.index + |OPEN|)
    && forall k :: from <= k < m.index ==> !OpenAt(t, k)
  }

  lemma MatchHere(t: string, from: nat)
    requires OpenAt(t, from) && IndexOf(t, ARROW, from + |OPEN| + 1) >= 0
    ensures var arrow := IndexOf(t, ARROW, from + |OPEN| + 1);
      MatchFits(t, from, Match(from, SkipSpaces(t, from + |OPEN|), arrow, arrow + |ARROW|))
  {
    hide OpenAt, SkipSpaces, IndexOf;
    var arrow := IndexOf(t, ARROW, from + |OPEN| + 1);
    assert t[arrow] == t[arrow..arrow + |ARROW|][0] == '-';
    SpacesStop(t, from + |OPEN|, arrow);
  }

  /** The expression of a later match ends in an arrow, so a marker at `from` would have matched. */
  lemma MatchFurther(t: string, from: nat, m: Match)
    requires m.Match? && MatchFits(t, from + 1, m)
    requires !(OpenAt(t, from) && IndexOf(t, ARROW, from + |OPEN| + 1) >= 0)
    ensures MatchFits(t, from, m)
  {
    hide OpenAt, SkipSpaces, IndexOf;
    assert MatchAt(t, ARROW, m.groupTo) && from + |OPEN| + 1 <= m.groupTo;
  }

  lemma {:induction false} ExecSound(t: string, from: nat)
    ensures Exec(t, from).Match? ==> MatchFits(t, from, Exec(t, from))
    decreases |t| - from
  {
    hide OpenAt, SkipSpaces, IndexOf, MatchFits;
    if from < |t| {
      if OpenAt(t, from) && IndexOf(t, ARROW, from + |OPEN| + 1) >= 0 {
        MatchHere(t, from);
      } else {
        ExecSound(t, from + 1);
        if Exec(t, from + 1).Match? {
          MatchFurther(t, from, Exec(t, from + 1));
        }
      }
    }
  }

  // ----- findBakedSections -----

  function Sections(t: string, from: nat): (ss: seq<Section>)
    decreases |t| - from
  {
    var m := Exec(t, from);
    ExecSound(t, from);
    if m.NoMatch? then []
    else
      var close := IndexOf(t, CLOSE, m.end);
      if close < 0 then Sections(t, m.end)
      else
        [Section(Trim(t[m.groupFrom..m.groupTo]), m.index, m.end, close, close + |CLOSE|)]
        + Sections(t, close + |CLOSE|)
  }

  lemma SectionsStep(t: string, from: nat)
    ensures var m := Exec(t, from);
      m.Match? ==> m.groupFrom <= m.groupTo <= |t| && m.end <= |t|
    ensures Sections(t, from) ==
      var m := Exec(t, from);
      if m.NoMatch? then [] else
      var close := IndexOf(t, CLOSE, m.end);
      if close < 0 then Sections(t, m.end) else
      [Section(Trim(t[m.groupFrom..m.groupTo]), m.index, m.end, close, close + |CLOSE|)] + Sections(t, close + |CLOSE|)
  {
    hide Exec, IndexOf, Trim;
    ExecSound(t, from);
  }

  method FindBakedSections(text: string) returns (sections: seq<Section>)
    ensures sections == Sections(text, 0)
  {
    hide Exec, IndexOf, Trim, Sections;
    sections := [];
    var lastIndex := 0;
    while true
      invariant Sections(text, 0) == sections + Sections(text, lastIndex)
      decreases |text| - lastIndex
    {
      ExecSound(text, lastIndex);
      SectionsStep(text, lastIndex);
      var m := Exec(text, lastIndex);
      if m.NoMatch? {
        break;
      }
      var closeIdx := IndexOf(text, CLOSE, m.end);
      if closeIdx == -1 {
        lastIndex := m.end;
        continue;
      }
      var end := closeIdx + |CLOSE|;
      sections := sections + [Section(Trim(text[m.groupFrom..m.groupTo]), m.index, m.end, closeIdx, end)];
      lastIndex := end;
    }
  }

  ghost predicate SectionFits(t: string, from: nat, s: Section) {
    && from <= s.start < s.bodyFrom <= s.bodyTo < s.end <= |t|
    && OpenAt(t, s.start) && s.bodyTo == IndexOf(t, CLOSE, s.bodyFrom) && s.end == s.bodyTo + |CLOSE|
  }

  ghost predicate AllFit(t: string, from: nat, ss: seq<Section>) {
    && (forall i :: 0 <= i < |ss| ==> SectionFits(t, from, ss[i]))
    && (forall i, j :: 0 <= i < j < |ss| ==> ss[i].end <= ss[j].start)
  }

  lemma FitsFromEarlier(t: string, from: nat, from': nat, ss: seq<Section>)
    requires AllFit(t, from', ss) && from <= from'
    ensures AllFit(t, from, ss)
  {
  }

  lemma NoneFit(t: string, from: nat)
    ensures AllFit(t, from, [])
  {
  }

  lemma PrependSection(t: string, from: nat, first: Section, rest: seq<Section>)
    requires SectionFits(t, from, first) && AllFit(t, first.end, rest)
    ensures AllFit(t, from, [first] + rest)
  {
  }

  /** Sections come in order, each with its markers around its body, and share no text. */
  lemma {:induction false} SectionsInOrder(t: string, from: nat)
    ensures AllFit(t, from, Sections(t, from))
    decreases |t| - from
  {
    hide Exec, OpenAt, SkipSpaces, Trim, AllFit;
    var m := Exec(t, from);
    ExecSound(t, from);
    if m.NoMatch? {
      NoneFit(t, from);
    } else {
      var close := IndexOf(t, CLOSE, m.end);
      if close < 0 {
        SectionsInOrder(t, m.end);
        FitsFromEarlier(t, from, m.end, Sections(t, m.end));
      } else {
        var end := close + |CLOSE|;
        SectionsInOrder(t, end);
        var first := Section(Trim(t[m.groupFrom..m.groupTo]), m.index, m.end, close, end);
        PrependSection(t, from, first, Sections(t, end));
      }
    }
  }

  // ----- escapeBakedBody -----

  /** `markdown.replaceAll(CLOSE, ESCAPED)`. */
  function EscapeBakedBody(markdown: string): string
    decreases |markdown|
  {
    var i := IndexOf(markdown, CLOSE, 0);
    if i < 0 then markdown
    else markdown[..i] + ESCAPED + EscapeBakedBody(markdown[i + |CLOSE|..])
  }

  ghost predicate NoClose(s: string) {
    forall k: nat :: k < |s| ==> !MatchAt(s, CLOSE, k)
  }

  lemma DiffersFromClose(s: string, k: nat, d: nat)
    requires d < |CLOSE| && k + d < |s| && s[k + d] != CLOSE[d]
    ensures !MatchAt(s, CLOSE, k)
  {
  }

  /** Escaping forms no new closing marker. */
  lemma {:induction false} EscapeRemovesClose(markdown: string)
    ensures NoClose(EscapeBakedBody(markdown))
    decreases |markdown|
  {
    hide IndexOf, MatchAt;
    var i := IndexOf(markdown, CLOSE, 0);
    if i >= 0 {
      MatchEnds(markdown, CLOSE, i);
      var rest := markdown[i + |CLOSE|..];
      EscapeRemovesClose(rest);
      JoinAroundEscape(markdown[..i], EscapeBakedBody(rest), markdown, i);
    }
  }

  lemma JoinAroundEscape(x: string, y: string, markdown: string, i: nat)
    requires i <= |markdown| && x == markdown[..i] && NoClose(y)
    requires forall k: nat :: k < i ==> !MatchAt(markdown, CLOSE, k)
    ensures NoClose(x + ESCAPED + y)
  {
    var s := x + ESCAPED + y;
    var e := |x| + |ESCAPED|;
    forall k: nat | k < |s|
      ensures !MatchAt(s, CLOSE, k)
    {
      if k + |CLOSE| <= |x| {
        assert s == x + (ESCAPED + y);
        SliceLeft(x, ESCAPED + y, k, k + |CLOSE|);
        SliceSlice(markdown, 0, i, k, k + |CLOSE|);
        assert markdown[0..i] == x;
        assert !MatchAt(markdown, CLOSE, k);
      } else if k < |x| {
        DiffersFromClose(s, k, |x| - k);
      } else if k == |x| {
        DiffersFromClose(s, k, 4);
      } else if k < e {
        DiffersFromClose(s, k, 0);
      } else if k + |CLOSE| <= |s| {
        assert !MatchAt(y, CLOSE, k - e);
      }
    }
  }

  // ----- computeBakeEdits and bakeSectionsInText -----

  datatype Result = Markdown(text: string) | CannotBake

  /** The new body of a section, if its expression can be baked. */
  function NewBody(expr: string, eval: string -> Result): Result {
    match eval(expr)
    case CannotBake => CannotBake
    case Markdown(md) => Markdown("\n" + Trim(EscapeBakedBody(md)) + "\n")
  }

  function EditOf(s: Section, eval: string -> Result): seq<Change> {
    match NewBody(s.expr, eval)
    case CannotBake => []
    case Markdown(body) => [Change(s.bodyFrom, s.bodyTo, body)]
  }

  function Edits(ss: seq<Section>, eval: string -> Result): seq<Change> {
    if ss == [] then [] else EditOf(ss[0], eval) + Edits(ss[1..], eval)
  }

  function Skipped(ss: seq<Section>, eval: string -> Result): seq<string> {
    if ss == [] then []
    else (if eval(ss[0].expr).CannotBake? then [ss[0].expr] else []) + Skipped(ss[1..], eval)
  }

  lemma EditsStep(ss: seq<Section>, i: nat, eval: string -> Result)
    requires i < |ss|
    ensures Edits(ss[i..], eval) == EditOf(ss[i], eval) + Edits(ss[i + 1..], eval)
    ensures Skipped(ss[i..], eval)
         == (if eval(ss[i].expr).CannotBake? then [ss[i].expr] else []) + Skipped(ss[i + 1..], eval)
  {
  }

  lemma {:induction false} EditsOrdered(ss: seq<Section>, eval: string -> Result, pos: nat, n: nat)
    requires forall i :: 0 <= i < |ss| ==> ss[i].start < ss[i].bodyFrom <= ss[i].bodyTo < ss[i].end <= n
    requires forall i, j :: 0 <= i < j < |ss| ==> ss[i].end <= ss[j].start
    requires pos <= n && (ss != [] ==> pos <= ss[0].bodyFrom)
    ensures Ordered(Edits(ss, eval), pos, n)
    decreases |ss|
  {
    if ss != [] {
      var rest := Edits(ss[1..], eval);
      match NewBody(ss[0].expr, eval)
      case CannotBake =>
        EditsOrdered(ss[1..], eval, pos, n);
        assert Edits(ss, eval) == [] + rest == rest;
      case Markdown(body) =>
        EditsOrdered(ss[1..], eval, ss[0].bodyTo, n);
        assert Edits(ss, eval)[1..] == rest;
    }
  }

  lemma NoEdits(ss: seq<Section>, eval: string -> Result)
    requires ss == []
    ensures Edits(ss, eval) == [] && Skipped(ss, eval) == []
  {
  }

  method ComputeBakeEdits(text: string, eval: string -> Result) returns (edits: seq<Change>, skipped: seq<string>)
    ensures edits == Edits(Sections(text, 0), eval)
    ensures skipped == Skipped(Sections(text, 0), eval)
  {
    hide Sections, Trim, EscapeBakedBody, Edits, Skipped;
    var sections := FindBakedSections(text);
    edits, skipped := [], [];
    for i := 0 to |sections|
      invariant Edits(sections, eval) == edits + Edits(sections[i..], eval)
      invariant Skipped(sections, eval) == skipped + Skipped(sections[i..], eval)
    {
      var section := sections[i];
      EditsStep(sections, i, eval);
      var result := eval(section.expr);
      if result.CannotBake? {
        skipped := skipped + [section.expr];
        continue;
      }
      var body := Trim(EscapeBakedBody(result.text));
      edits := edits + [Change(section.bodyFrom, section.bodyTo, "\n" + body + "\n")];
    }
    NoEdits(sections[|sections|..], eval);
    assert edits + [] == edits && skipped + [] == skipped;
  }

  /** The baked text: all bodies replaced at once. */
  function Baked(text: string, eval: string -> Result): string {
    BakeFits(text, 0, eval);
    Apply(text, Edits(Sections(text, 0), eval))
  }

  lemma BakeFits(t: string, from: nat, eval: string -> Result)
    requires from <= |t|
    ensures Ordered(Edits(Sections(t, from), eval), from, |t|)
  {
    hide OpenAt, Sections;
    SectionsInOrder(t, from);
    var ss := Sections(t, from);
    assert forall i :: 0 <= i < |ss| ==> SectionFits(t, from, ss[i]);
    EditsOrdered(ss, eval, from, |t|);
  }

  lemma {:induction false} OrderedSuffix(cs: seq<Change>, i: nat, pos: nat, n: nat)
    requires Ordered(cs, pos, n) && i <= |cs|
    ensures Ordered(cs[i..], pos, n)
    ensures i < |cs| ==> pos <= cs[i].from <= cs[i].to <= n && Ordered(cs[i + 1..], cs[i].to, n)
    decreases i
  {
    if i > 0 {
      OrderedSuffix(cs[1..], i - 1, cs[0].to, n);
      assert cs[1..][i - 1..] == cs[i..];
      if i < |cs| {
        assert cs[1..][i..] == cs[i + 1..];
      }
      OrderedWeaken(cs[i..], cs[0].to, n, pos, n);
    } else {
      assert cs[0..] == cs;
    }
  }

  /** One edit in a text whose later edits have been made. */
  lemma LastEditFirst(text: string, cs: seq<Change>, i: nat)
    requires Ordered(cs, 0, |text|) && i < |cs|
    ensures Ordered(cs[i..], 0, |text|) && Ordered(cs[i + 1..], 0, |text|)
    ensures var out, e := Apply(text, cs[i + 1..]), cs[i];
      e.from <= e.to <= |out| && Apply(text, cs[i..]) == out[..e.from] + e.ins + out[e.to..]
  {
    OrderedSuffix(cs, i, 0, |text|);
    var e, rest := cs[i], cs[i + 1..];
    OrderedWeaken(rest, e.to, |text|, 0, |text|);
    SkipTo(text, 0, e.to, rest);
    var tail := ApplyFrom(text, e.to, rest);
    var out := text[0..e.to] + tail;
    assert out[..e.from] == text[0..e.from];
    assert out[e.to..] == tail;
    assert cs[i..][1..] == rest;
  }

  /** Applying the edits back to front keeps the earlier offsets valid: the result is the
      same as replacing all bodies at once. */
  method BakeSectionsInText(text: string, eval: string -> Result) returns (out: string)
    ensures out == Baked(text, eval)
  {
    hide Sections, Edits;
    BakeFits(text, 0, eval);
    var edits, _ := ComputeBakeEdits(text, eval);
    out := text;
    var i := |edits|;
    assert edits[i..] == [];
    OrderedBounds(edits, 0, |text|);
    while i > 0
      invariant 0 <= i <= |edits|
      invariant Ordered(edits[i..], 0, |text|) && out == Apply(text, edits[i..])
    {
      i := i - 1;
      LastEditFirst(text, edits, i);
      var e := edits[i];
      out := out[..e.from] + e.ins + out[e.to..];
    }
    assert edits[0..] == edits;
  }

  // ----- Texts that agree on a stretch -----

  /** `len` characters from `p` on in one text are those from `q` on in the other. */
  ghost predicate Shared(t: string, p: nat, u: string, q: nat, len: nat) {
    p + len <= |t| && q + len <= |u| && t[p..p + len] == u[q..q + len]
  }

  lemma SharedChar(t: string, p: nat, u: string, q: nat, len: nat, k: nat)
    requires Shared(t, p, u, q, len) && k < len
    ensures p + k < |t| && q + k < |u| && t[p + k] == u[q + k]
  {
  }

  lemma SharedPart(t: string, p: nat, u: string, q: nat, len: nat, k: nat, m: nat)
    requires Shared(t, p, u, q, len) && k <= m <= len
    ensures Shared(t, p + k, u, q + k, m - k)
  {
    SliceSlice(t, p, p + len, k, m);
    SliceSlice(u, q, q + len, k, m);
  }

  lemma SharedMatch(t: string, p: nat, u: string, q: nat, len: nat, pat: string, k: nat)
    requires Shared(t, p, u, q, len) && k + |pat| <= len
    ensures MatchAt(t, pat, p + k) == MatchAt(u, pat, q + k)
  {
    SharedPart(t, p, u, q, len, k, k + |pat|);
  }

  lemma SharedOpen(t: string, p: nat, u: string, q: nat, len: nat, k: nat)
    requires Shared(t, p, u, q, len) && k + |OPEN| < len
    ensures OpenAt(t, p + k) == OpenAt(u, q + k)
  {
    SharedMatch(t, p, u, q, len, OPEN, k);
    SharedChar(t, p, u, q, len, k + |OPEN|);
  }

  lemma {:induction false} SharedSpaces(t: string, p: nat, u: string, q: nat, len: nat, k: nat)
    requires Shared(t, p, u, q, len) && k <= len && SkipSpaces(t, p + k) < p + len
    ensures SkipSpaces(u, q + k) == SkipSpaces(t, p + k) - p + q
    decreases len - k
  {
    hide IsSpace;
    SharedChar(t, p, u, q, len, k);
    if IsSpace(t[p + k]) {
      SharedSpaces(t, p, u, q, len, k + 1);
    }
  }

  lemma IndexIs(t: string, pat: string, start: nat, r: nat)
    requires start <= r && MatchAt(t, pat, r) && forall k :: start <= k < r ==> !MatchAt(t, pat, k)
    ensures IndexOf(t, pat, start) == r
  {
  }

  lemma SharedIndex(t: string, p: nat, u: string, q: nat, len: nat, pat: string, k: nat)
    requires Shared(t, p, u, q, len) && p + k <= IndexOf(t, pat, p + k) && IndexOf(t, pat, p + k) + |pat| <= p + len
    ensures IndexOf(u, pat, q + k) == IndexOf(t, pat, p + k) - p + q
  {
    var r := IndexOf(t, pat, p + k) - p;
    SharedMatch(t, p, u, q, len, pat, r);
    forall j: nat | q + k <= j < q + r
      ensures !MatchAt(u, pat, j)
    {
      SharedMatch(t, p, u, q, len, pat, j - q);
      assert !MatchAt(t, pat, p + (j - q));
    }
    IndexIs(u, pat, q + k, q + r);
  }

  lemma {:induction false} ExecIs(u: string, from: nat, i: nat)
    requires from <= i && OpenAt(u, i) && IndexOf(u, ARROW, i + |OPEN| + 1) >= 0
    requires forall k :: from <= k < i ==> !OpenAt(u, k)
    ensures var arrow := IndexOf(u, ARROW, i + |OPEN| + 1);
      Exec(u, from) == Match(i, SkipSpaces(u, i + |OPEN|), arrow, arrow + |ARROW|)
    decreases i - from
  {
    hide SkipSpaces;
    if from < i {
      assert from < |u| && !OpenAt(u, from);
      ExecIs(u, from + 1, i);
    }
  }

  /** The same opening marker is found in a text that shares all of it. */
  lemma ExecMoved(t: string, p: nat, u: string, q: nat, len: nat)
    requires Shared(t, p, u, q, len) && Exec(t, p).Match? && Exec(t, p).end <= p + len
    ensures var m, m' := Exec(t, p), Exec(u, q);
      && m'.Match? && p <= m.index && m.index < m.groupFrom <= m.groupTo <= m.end
      && m'.index == m.index - p + q && m'.groupFrom == m.groupFrom - p + q
      && m'.groupTo == m.groupTo - p + q && m'.end == m.end - p + q
      && m'.groupTo <= |u| && m.groupTo <= |t|
      && u[m'.groupFrom..m'.groupTo] == t[m.groupFrom..m.groupTo]
  {
    hide Exec, OpenAt, SkipSpaces, IndexOf, Shared;
    ExecSound(t, p);
    var m := Exec(t, p);
    var i := m.index - p;
    SharedOpen(t, p, u, q, len, i);
    forall k: nat | q <= k < q + i
      ensures !OpenAt(u, k)
    {
      SharedOpen(t, p, u, q, len, k - q);
      assert !OpenAt(t, p + (k - q));
    }
    SharedIndex(t, p, u, q, len, ARROW, i + |OPEN| + 1);
    SharedSpaces(t, p, u, q, len, i + |OPEN|);
    ExecIs(u, q, q + i);
    SharedPart(t, p, u, q, len, m.groupFrom - p, m.groupTo - p);
  }

  lemma NoMatchMoved(t: string, p: nat, u: string, q: nat)
    requires p <= |t| && q <= |u| && t[p..] == u[q..] && Exec(t, p).NoMatch?
    ensures Exec(u, q).NoMatch?
  {
    hide Exec, OpenAt, SkipSpaces;
    if Exec(u, q).Match? {
      ExecSound(u, q);
      var len := |u| - q;
      assert |t[p..]| == |u[q..]|;
      assert u[q..q + len] == u[q..] && t[p..p + len] == t[p..];
      ExecMoved(u, q, t, p, len);
      assert false;
    }
  }

  lemma {:induction false} NoCloseNoSections(t: string, p: nat)
    requires forall k :: p <= k ==> !MatchAt(t, CLOSE, k)
    ensures Sections(t, p) == []
    decreases |t| - p
  {
    hide Exec, OpenAt, SkipSpaces;
    ExecSound(t, p);
    var m := Exec(t, p);
    if m.Match? {
      NoCloseNoSections(t, m.end);
    }
  }

  /** A tail without sections has none in another text either. */
  lemma NoSectionsMoved(t: string, p: nat, u: string, q: nat)
    requires p <= |t| && q <= |u| && t[p..] == u[q..] && Sections(t, p) == []
    ensures Sections(u, q) == []
  {
    hide Exec, OpenAt, SkipSpaces, MatchAt;
    ExecSound(t, p);
    var m, len := Exec(t, p), |t| - p;
    if m.NoMatch? {
      NoMatchMoved(t, p, u, q);
    } else {
      assert |t[p..]| == |u[q..]|;
      assert u[q..q + len] == u[q..] && t[p..p + len] == t[p..];
      assert IndexOf(t, CLOSE, m.end) == -1;
      ExecMoved(t, p, u, q, len);
      forall k | m.end - p + q <= k
        ensures !MatchAt(u, CLOSE, k)
      {
        CloseMoved(t, p, u, q, len, k);
      }
      NoCloseNoSections(u, m.end - p + q);
    }
  }

  lemma CloseMoved(t: string, p: nat, u: string, q: nat, len: nat, k: nat)
    requires Shared(t, p, u, q, len) && q + len == |u| && q <= k && !MatchAt(t, CLOSE, k - q + p)
    ensures !MatchAt(u, CLOSE, k)
  {
    if k + |CLOSE| <= |u| {
      SharedMatch(t, p, u, q, len, CLOSE, k - q);
    }
  }

  // ----- A new body is read back as it was written -----

  lemma NoCloseSlice(s: string, a: nat, b: nat)
    requires NoClose(s) && a <= b <= |s|
    ensures NoClose(s[a..b])
  {
    var u := s[a..b];
    forall k: nat | k < |u|
      ensures !MatchAt(u, CLOSE, k)
    {
      if k + |CLOSE| <= |u| {
        SliceSlice(s, a, b, k, k + |CLOSE|);
        assert !MatchAt(s, CLOSE, a + k);
      }
    }
  }

  lemma {:induction false} NoCloseTrimStart(s: string)
    requires NoClose(s)
    ensures NoClose(TrimStart(s))
    decreases |s|
  {
    hide IsSpace, NoClose;
    if s != "" && IsSpace(s[0]) {
      NoCloseSlice(s, 1, |s|);
      assert s[1..|s|] == s[1..];
      NoCloseTrimStart(s[1..]);
    }
  }

  lemma {:induction false} NoCloseTrimEnd(s: string)
    requires NoClose(s)
    ensures NoClose(TrimEnd(s))
    decreases |s|
  {
    hide IsSpace, NoClose;
    if s != "" && IsSpace(s[|s| - 1]) {
      NoCloseSlice(s, 0, |s| - 1);
      assert s[0..|s| - 1] == s[..|s| - 1];
      NoCloseTrimEnd(s[..|s| - 1]);
    }
  }

  /** The first closing marker behind a body is the one that follows it. */
  ghost predicate ClosesItself(body: string) {
    forall k: nat :: k < |body| ==> !MatchAt(body + CLOSE, CLOSE, k)
  }

  lemma FramedBody(b: string)
    requires NoClose(b)
    ensures ClosesItself("\n" + b + "\n")
  {
    var body := "\n" + b + "\n";
    var s := body + CLOSE;
    forall k: nat | k < |body|
      ensures !MatchAt(s, CLOSE, k)
    {
      var last := |body| - 1;
      assert s[last] == '\n' && s[0] == '\n';
      if k + |CLOSE| > last {
        assert CLOSE[last - k] in CLOSE;
        DiffersFromClose(s, k, last - k);
      } else if k == 0 {
        assert CLOSE[0] in CLOSE;
        DiffersFromClose(s, k, 0);
      } else {
        assert s == "\n" + (b + ("\n" + CLOSE));
        SliceLeft(b, "\n" + CLOSE, k - 1, k - 1 + |CLOSE|);
        assert !MatchAt(b, CLOSE, k - 1);
      }
    }
  }

  /** What stands in a section's body after baking. */
  function BodyAfter(t: string, s: Section, eval: string -> Result): string
    requires s.bodyFrom <= s.bodyTo <= |t|
  {
    match NewBody(s.expr, eval)
    case CannotBake => t[s.bodyFrom..s.bodyTo]
    case Markdown(body) => body
  }

  lemma BodyClosesItself(t: string, from: nat, s: Section, eval: string -> Result)
    requires SectionFits(t, from, s)
    ensures ClosesItself(BodyAfter(t, s, eval))
  {
    hide OpenAt, TrimStart, TrimEnd, EscapeBakedBody, NoClose;
    match eval(s.expr)
    case Markdown(md) =>
      EscapeRemovesClose(md);
      NoCloseTrimStart(EscapeBakedBody(md));
      NoCloseTrimEnd(TrimStart(EscapeBakedBody(md)));
      FramedBody(Trim(EscapeBakedBody(md)));
    case CannotBake =>
      OldBodyClosesItself(t, s.bodyFrom, s.bodyTo);
  }

  lemma OldBodyClosesItself(t: string, from: nat, to: nat)
    requires from <= to < |t| && to == IndexOf(t, CLOSE, from)
    ensures ClosesItself(t[from..to])
  {
    var body, end := t[from..to], to + |CLOSE|;
    assert t[from..end] == body + CLOSE;
    forall k: nat | k < |body|
      ensures !MatchAt(body + CLOSE, CLOSE, k)
    {
      if k + |CLOSE| <= end - from {
        SliceSlice(t, from, end, k, k + |CLOSE|);
        assert !MatchAt(t, CLOSE, from + k);
      }
    }
  }

  // ----- Baking, section by section -----

  /** The text from `p` on after baking. */
  function BakedFrom(t: string, p: nat, eval: string -> Result): string
    requires p <= |t|
  {
    BakeFits(t, p, eval);
    ApplyFrom(t, p, Edits(Sections(t, p), eval))
  }

  /** The first section's share in the baked text. */
  lemma BakedHead(t: string, p: nat, s: Section, eval: string -> Result)
    requires SectionFits(t, p, s) && Sections(t, p) == [s] + Sections(t, s.end)
    ensures BakedFrom(t, p, eval)
         == t[p..s.bodyFrom] + (BodyAfter(t, s, eval) + (CLOSE + BakedFrom(t, s.end, eval)))
  {
    hide OpenAt, Sections, EscapeBakedBody, Trim, IndexOf, ApplyFrom, Ordered, BodyAfter, EditOf;
    var rest := Edits(Sections(t, s.end), eval);
    BakeFits(t, s.end, eval);
    assert ([s] + Sections(t, s.end))[1..] == Sections(t, s.end);
    assert Edits(Sections(t, p), eval) == EditOf(s, eval) + rest;
    assert t[s.bodyTo..s.end] == CLOSE;
    EditedHead(t, p, s, rest, eval);
    assert t[s.bodyTo..s.end] + ApplyFrom(t, s.end, rest) == CLOSE + BakedFrom(t, s.end, eval);
  }

  /** A section's edit in front of later ones. */
  lemma EditedHead(t: string, p: nat, s: Section, rest: seq<Change>, eval: string -> Result)
    requires p <= s.bodyFrom <= s.bodyTo <= s.end <= |t| && Ordered(rest, s.end, |t|)
    ensures Ordered(EditOf(s, eval) + rest, p, |t|)
    ensures ApplyFrom(t, p, EditOf(s, eval) + rest) ==
            t[p..s.bodyFrom] + (BodyAfter(t, s, eval) + (t[s.bodyTo..s.end] + ApplyFrom(t, s.end, rest)))
  {
    hide NewBody, ApplyFrom, Ordered;
    var edit, tail := EditOf(s, eval), ApplyFrom(t, s.end, rest);
    if NewBody(s.expr, eval).CannotBake? {
      SkipTo(t, p, s.end, rest);
      assert edit + rest == rest;
      assert t[p..s.end] == t[p..s.bodyFrom] + (t[s.bodyFrom..s.bodyTo] + t[s.bodyTo..s.end]);
    } else {
      SkipTo(t, s.bodyTo, s.end, rest);
      assert (edit + rest)[1..] == rest;
      ApplyStep(t, p, edit + rest);
      Associate(t[p..s.bodyFrom], BodyAfter(t, s, eval), t[s.bodyTo..s.end] + tail);
    }
  }

  /** The first section, found again in the baked text. */
  lemma HeadFoundAgain(t: string, p: nat, s: Section, u: string, q: nat, eval: string -> Result) returns (s': Section)
    requires SectionFits(t, p, s) && Sections(t, p) == [s] + Sections(t, s.end)
    requires Exec(t, p).Match? && Exec(t, p).end == s.bodyFrom && Exec(t, p).groupFrom <= Exec(t, p).groupTo <= |t|
    requires s.expr == Trim(t[Exec(t, p).groupFrom..Exec(t, p).groupTo])
    requires q <= |u| && u[q..] == BakedFrom(t, p, eval)
    ensures Sections(u, q) == [s'] + Sections(u, s'.end)
    ensures SectionFits(u, q, s') && s'.expr == s.expr
    ensures u[q..s'.bodyFrom] == t[p..s.bodyFrom]
    ensures u[s'.bodyFrom..s'.bodyTo] == BodyAfter(t, s, eval)
    ensures u[s'.end..] == BakedFrom(t, s.end, eval)
  {
    hide OpenAt, Sections, EscapeBakedBody, Trim, Exec, BakedFrom, BodyAfter;
    BakedHead(t, p, s, eval);
    BodyClosesItself(t, p, s, eval);
    var head, body, tail := t[p..s.bodyFrom], BodyAfter(t, s, eval), BakedFrom(t, s.end, eval);
    s' := SectionAt(t, p, u, q, s.bodyFrom - p, body, tail);
  }

  lemma CutTail(u: string, q: nat, head: string, body: string, tail: string)
    requires q <= |u| && u[q..] == head + (body + (CLOSE + tail))
    ensures var b := q + |head|; var c := b + |body|; var e := c + |CLOSE|;
      && e <= |u| && u[q..b] == head && u[b..c] == body && u[c..e] == CLOSE && u[b..e] == body + CLOSE && u[e..] == tail
  {
  }

  lemma CloseFound(u: string, b: nat, body: string)
    requires b + |body| + |CLOSE| <= |u| && u[b..b + |body| + |CLOSE|] == body + CLOSE && ClosesItself(body)
    ensures IndexOf(u, CLOSE, b) == b + |body|
  {
    var e := b + |body| + |CLOSE|;
    forall k: nat | b <= k < b + |body|
      ensures !MatchAt(u, CLOSE, k)
    {
      SliceSlice(u, b, e, k - b, k - b + |CLOSE|);
      assert !MatchAt(body + CLOSE, CLOSE, k - b);
    }
    SliceSlice(u, b, e, |body|, |body| + |CLOSE|);
    assert (body + CLOSE)[|body|..|body| + |CLOSE|] == CLOSE;
    IndexIs(u, CLOSE, b, b + |body|);
  }

  lemma SectionAt(t: string, p: nat, u: string, q: nat, len: nat, body: string, tail: string) returns (s: Section)
    requires p + len <= |t| && q <= |u| && u[q..] == t[p..p + len] + (body + (CLOSE + tail)) && ClosesItself(body)
    requires Exec(t, p).Match? && Exec(t, p).end == p + len && Exec(t, p).groupFrom <= Exec(t, p).groupTo <= |t|
    ensures Sections(u, q) == [s] + Sections(u, s.end) && SectionFits(u, q, s)
    ensures s.expr == Trim(t[Exec(t, p).groupFrom..Exec(t, p).groupTo])
    ensures u[q..s.bodyFrom] == t[p..p + len] && u[s.bodyFrom..s.bodyTo] == body && u[s.end..] == tail
  {
    hide OpenAt, Trim, Exec, IndexOf, SkipSpaces;
    CutTail(u, q, t[p..p + len], body, tail);
    ExecMoved(t, p, u, q, len);
    ExecSound(u, q);
    var m := Exec(u, q);
    CloseFound(u, m.end, body);
    var close := m.end + |body|;
    s := Section(Trim(u[m.groupFrom..m.groupTo]), m.index, m.end, close, close + |CLOSE|);
  }

  /** Section by section: the same expression, the body it is due, and unchanged text in
      front of it. */
  ghost predicate BakedAgrees(t: string, p: nat, ts: seq<Section>, u: string, q: nat, us: seq<Section>,
                              eval: string -> Result)
    decreases |ts|
  {
    && p <= |t| && q <= |u| && |us| == |ts|
    && if ts == [] then u[q..] == t[p..]
       else
         && p <= ts[0].bodyFrom <= ts[0].bodyTo < ts[0].end <= |t|
         && q <= us[0].bodyFrom <= us[0].bodyTo < us[0].end <= |u|
         && us[0].expr == ts[0].expr
         && u[q..us[0].bodyFrom] == t[p..ts[0].bodyFrom]
         && u[us[0].bodyFrom..us[0].bodyTo] == BodyAfter(t, ts[0], eval)
         && u[us[0].bodyTo..us[0].end] == t[ts[0].bodyTo..ts[0].end] == CLOSE
         && BakedAgrees(t, ts[0].end, ts[1..], u, us[0].end, us[1..], eval)
  }

  lemma {:induction false} RebakeFrom(t: string, p: nat, u: string, q: nat, eval: string -> Result)
    requires p <= |t| && q <= |u| && u[q..] == BakedFrom(t, p, eval)
    ensures BakedAgrees(t, p, Sections(t, p), u, q, Sections(u, q), eval)
    decreases |t| - p
  {
    hide OpenAt, Trim, Exec, SkipSpaces, EscapeBakedBody, BodyAfter, IndexOf, MatchAt;
    ExecSound(t, p);
    var m := Exec(t, p);
    var close := if m.Match? then IndexOf(t, CLOSE, m.end) else -1;
    if close < 0 {
      NothingToBake(t, p, eval);
      NoSectionsMoved(t, p, u, q);
    } else {
      var end := close + |CLOSE|;
      var s := Section(Trim(t[m.groupFrom..m.groupTo]), m.index, m.end, close, end);
      assert Sections(t, p) == [s] + Sections(t, end);
      MatchEnds(t, CLOSE, close);
      SectionBounds(t, p, s);
      var s' := HeadFoundAgain(t, p, s, u, q, eval);
      SectionBounds(u, q, s');
      RebakeFrom(t, end, u, s'.end, eval);
    }
  }

  lemma SectionBounds(t: string, from: nat, s: Section)
    requires from <= s.start < s.bodyFrom <= s.bodyTo < s.end <= |t|
    requires s.bodyTo == IndexOf(t, CLOSE, s.bodyFrom) && s.end == s.bodyTo + |CLOSE|
    ensures t[s.bodyTo..s.end] == CLOSE
  {
  }

  lemma NothingToBake(t: string, p: nat, eval: string -> Result)
    requires p <= |t|
    requires Exec(t, p).Match? ==> IndexOf(t, CLOSE, Exec(t, p).end) < 0
    ensures Sections(t, p) == [] && BakedFrom(t, p, eval) == t[p..]
  {
    hide OpenAt, Trim, Exec, SkipSpaces, MatchAt;
    ExecSound(t, p);
    var m := Exec(t, p);
    if m.Match? {
      assert IndexOf(t, CLOSE, m.end) == -1;
      NoCloseNoSections(t, m.end);
    }
  }

  /** Baking the baked text changes nothing. */
  lemma {:induction false} AgreesIsStable(t: string, p: nat, ts: seq<Section>, u: string, q: nat, us: seq<Section>,
                                          eval: string -> Result)
    requires BakedAgrees(t, p, ts, u, q, us, eval)
    ensures Ordered(Edits(us, eval), q, |u|) && ApplyFrom(u, q, Edits(us, eval)) == u[q..]
    ensures Skipped(us, eval) == Skipped(ts, eval)
    decreases |ts|
  {
    hide NewBody, Skipped, BodyAfter, EditOf, ApplyFrom, Ordered;
    if ts == [] {
      NothingLeft(u, q, eval);
    } else {
      var s, s' := ts[0], us[0];
      AgreesIsStable(t, s.end, ts[1..], u, s'.end, us[1..], eval);
      EditsStep(us, 0, eval);
      EditsStep(ts, 0, eval);
      assert us[0..] == us && ts[0..] == ts;
      StableHead(t, s, u, q, s', Edits(us[1..], eval), eval);
    }
  }

  lemma NothingLeft(u: string, q: nat, eval: string -> Result)
    requires q <= |u|
    ensures Ordered(Edits([], eval), q, |u|) && ApplyFrom(u, q, Edits([], eval)) == u[q..]
  {
  }

  lemma StableHead(t: string, s: Section, u: string, q: nat, s': Section, rest: seq<Change>, eval: string -> Result)
    requires s.bodyFrom <= s.bodyTo <= |t| && s'.expr == s.expr && q <= s'.bodyFrom <= s'.bodyTo <= s'.end <= |u|
    requires u[s'.bodyFrom..s'.bodyTo] == BodyAfter(t, s, eval)
    requires Ordered(rest, s'.end, |u|) && ApplyFrom(u, s'.end, rest) == u[s'.end..]
    ensures Ordered(EditOf(s', eval) + rest, q, |u|)
    ensures ApplyFrom(u, q, EditOf(s', eval) + rest) == u[q..]
  {
    hide NewBody, ApplyFrom, Ordered, BodyAfter, EditOf;
    SameBody(t, s, u, s', eval);
    EditedHead(u, q, s', rest, eval);
  }

  /** The body due to a section that has it already. */
  lemma SameBody(t: string, s: Section, u: string, s': Section, eval: string -> Result)
    requires s.bodyFrom <= s.bodyTo <= |t| && s'.expr == s.expr && s'.bodyFrom <= s'.bodyTo <= |u|
    requires u[s'.bodyFrom..s'.bodyTo] == BodyAfter(t, s, eval)
    ensures BodyAfter(u, s', eval) == u[s'.bodyFrom..s'.bodyTo]
  {
  }

  /** The main result, for every evaluator: the baked text has the same sections, in order,
      with the same expressions; each body is the one due to its expression, or the old one
      where that cannot be baked; all other text is as it was. */
  lemma BakingKeepsTheRest(text: string, eval: string -> Result)
    ensures var baked := Baked(text, eval);
      BakedAgrees(text, 0, Sections(text, 0), baked, 0, Sections(baked, 0), eval)
  {
    hide Sections, Edits, BakedAgrees;
    var baked := Baked(text, eval);
    assert baked[0..] == baked;
    RebakeFrom(text, 0, baked, 0, eval);
  }

  /** Baking twice is baking once, and skips the same expressions. */
  lemma BakingTwiceIsBakingOnce(text: string, eval: string -> Result)
    ensures Baked(Baked(text, eval), eval) == Baked(text, eval)
    ensures Skipped(Sections(Baked(text, eval), 0), eval) == Skipped(Sections(text, 0), eval)
  {
    hide Sections, Edits, BakedAgrees, Skipped;
    BakingKeepsTheRest(text, eval);
    var baked := Baked(text, eval);
    AgreesIsStable(text, 0, Sections(text, 0), baked, 0, Sections(baked, 0), eval);
    assert baked[0..] == baked;
  }
}
