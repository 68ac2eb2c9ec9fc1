/** What is found and what is written, in terms of the text itself:
    `client/baked_sections/regions.ts` and `client/baked_sections/bake.ts`. */
module BakedBodies {
  import opened BakedSections
  import opened TextLines

  // ----- Escaping replaces every closing marker, and nothing else -----

  function Joined(pieces: seq<string>, mark: string): string
    requires |pieces| > 0
  {
    if |pieces| == 1 then pieces[0] else pieces[0] + (mark + Joined(pieces[1..], mark))
  }

  ghost predicate NoneCloses(pieces: seq<string>) {
    forall i :: 0 <= i < |pieces| ==> NoClose(pieces[i])
  }

  /** The marker begins with its only `<`, so none begins in front of one and ends inside it. */
  lemma NotBeforeClose(x: string, y: string, k: nat)
    requires NoClose(x) && k < |x|
    ensures !MatchAt(x + (CLOSE + y), CLOSE, k)
  {
    var s := x + (CLOSE + y);
    if k + |CLOSE| <= |x| {
      SliceLeft(x, CLOSE + y, k, k + |CLOSE|);
      assert !MatchAt(x, CLOSE, k);
    } else {
      DiffersFromClose(s, k, |x| - k);
    }
  }

  lemma FirstClose(x: string, y: string)
    requires NoClose(x)
    ensures IndexOf(x + (CLOSE + y), CLOSE, 0) == |x|
  {
    hide NoClose, MatchAt;
    var s := x + (CLOSE + y);
    forall k: nat | k < |x|
      ensures !MatchAt(s, CLOSE, k)
    {
      NotBeforeClose(x, y, k);
    }
    CloseBehind(x, y);
    IndexIs(s, CLOSE, 0, |x|);
  }

  lemma CloseBehind(x: string, y: string)
    ensures MatchAt(x + (CLOSE + y), CLOSE, |x|)
  {
  }

  lemma NothingToEscape(markdown: string)
    requires NoClose(markdown)
    ensures EscapeBakedBody(markdown) == markdown
  {
  }

  lemma {:induction false} EscapeIsReplaceAll(pieces: seq<string>)
    requires |pieces| > 0 && NoneCloses(pieces)
    ensures EscapeBakedBody(Joined(pieces, "<!--/lua-->")) == Joined(pieces, "<!-- /lua -->")
    decreases |pieces|
  {
    hide IndexOf, NoClose;
    if |pieces| == 1 {
      NothingToEscape(pieces[0]);
    } else {
      var x, y := pieces[0], Joined(pieces[1..], CLOSE);
      EscapeIsReplaceAll(pieces[1..]);
      FirstClose(x, y);
      var s := x + (CLOSE + y);
      assert s[..|x|] == x && s[|x| + |CLOSE|..] == y;
      Associate(x, ESCAPED, EscapeBakedBody(y));
    }
  }

  /** Every text is cut at its closing markers in this way. */
  lemma {:induction false} CutAtCloses(markdown: string) returns (pieces: seq<string>)
    ensures |pieces| > 0 && NoneCloses(pieces) && Joined(pieces, "<!--/lua-->") == markdown
    decreases |markdown|
  {
    hide MatchAt;
    var i := IndexOf(markdown, CLOSE, 0);
    if i < 0 {
      pieces := [markdown];
    } else {
      MatchEnds(markdown, CLOSE, i);
      var rest := CutAtCloses(markdown[i + |CLOSE|..]);
      FrontHasNoClose(markdown, i);
      pieces := [markdown[..i]] + rest;
      assert pieces[1..] == rest;
      SpellsClose(markdown, i);
    }
  }

  lemma FrontHasNoClose(markdown: string, i: nat)
    requires i <= |markdown| && forall k :: 0 <= k < i ==> !MatchAt(markdown, CLOSE, k)
    ensures NoClose(markdown[..i])
  {
    forall k: nat | k < i
      ensures !MatchAt(markdown[..i], CLOSE, k)
    {
      if k + |CLOSE| <= i {
        assert !MatchAt(markdown, CLOSE, k);
        assert markdown[..i][k..k + |CLOSE|] == markdown[k..k + |CLOSE|];
      }
    }
  }

  lemma SpellsClose(t: string, i: nat)
    requires MatchAt(t, CLOSE, i) && i + |CLOSE| <= |t|
    ensures t == t[..i] + (CLOSE + t[i + |CLOSE|..])
  {
  }

  // ----- Which sections are found -----

  /** A marker at `k` whose expression ends in front of `arrow`. */
  ghost predicate Opens(t: string, k: nat, arrow: nat) {
    OpenAt(t, k) && k + |OPEN| + 1 <= arrow && MatchAt(t, ARROW, arrow)
  }

  /** Some marker is matched wherever there is one with an arrow behind it. */
  lemma {:induction false} ExecComplete(t: string, from: nat, k: nat, arrow: nat)
    requires from <= k && Opens(t, k, arrow)
    ensures Exec(t, from).Match?
    decreases k - from
  {
    hide SkipSpaces, MatchAt;
    assert k < |t| && IndexOf(t, ARROW, k + |OPEN| + 1) >= 0;
    if from < k {
      ExecComplete(t, from + 1, k, arrow);
    }
  }

  ghost predicate Covered(ss: seq<Section>, k: nat) {
    exists i :: 0 <= i < |ss| && ss[i].start <= k < ss[i].end
  }

  lemma CoveredBehind(first: Section, rest: seq<Section>, k: nat)
    requires first.start <= k < first.end || Covered(rest, k)
    ensures Covered([first] + rest, k)
  {
    var all := [first] + rest;
    if first.start <= k < first.end {
      assert all[0].start <= k < all[0].end;
    } else {
      var i :| 0 <= i < |rest| && rest[i].start <= k < rest[i].end;
      assert all[i + 1].start <= k < all[i + 1].end;
    }
  }

  /** No section is missed: an opening marker with an arrow, and a closing marker behind that,
      lies in a section that is found. */
  lemma {:induction false} SectionsComplete(t: string, from: nat, k: nat, arrow: nat, close: nat)
    requires from <= k && Opens(t, k, arrow) && arrow + |ARROW| <= close && MatchAt(t, CLOSE, close)
    ensures Covered(Sections(t, from), k)
    decreases |t| - from
  {
    hide Exec, SkipSpaces, Trim, MatchAt, Sections, Covered;
    ExecComplete(t, from, k, arrow);
    ExecSound(t, from);
    var m := Exec(t, from);
    assert m.index <= k && m.groupTo <= arrow;
    var c := IndexOf(t, CLOSE, m.end);
    assert c >= 0;
    SectionsStep(t, from);
    var first := Section(Trim(t[m.groupFrom..m.groupTo]), m.index, m.end, c, c + |CLOSE|);
    if k >= first.end {
      SectionsComplete(t, first.end, k, arrow, close);
    }
    CoveredBehind(first, Sections(t, first.end), k);
  }

  // ----- What a section holds -----

  lemma {:induction false} TrimAfterSpaces(t: string, i: nat, to: nat)
    requires i <= to <= |t| && SkipSpaces(t, i) <= to
    ensures TrimStart(t[SkipSpaces(t, i)..to]) == TrimStart(t[i..to])
    decreases |t| - i
  {
    hide IsSpace;
    if i < to && IsSpace(t[i]) {
      TrimAfterSpaces(t, i + 1, to);
      assert t[i..to][1..] == t[i + 1..to];
    }
  }

  /** The expression is the trimmed text between the marker and the first arrow; the body runs
      from there to the first closing marker. */
  ghost predicate ReadsAs(t: string, s: Section) {
    && s.start + |OPEN| + |ARROW| < s.bodyFrom <= s.bodyTo < s.end <= |t|
    && t[s.start..s.start + |OPEN|] == "<!--#lua" && IsSpace(t[s.start + |OPEN|])
    && t[s.bodyFrom - |ARROW|..s.bodyFrom] == "-->"
    && (forall k :: s.start + |OPEN| < k < s.bodyFrom - |ARROW| ==> !MatchAt(t, "-->", k))
    && s.expr == Trim(t[s.start + |OPEN|..s.bodyFrom - |ARROW|])
    && t[s.bodyTo..s.end] == "<!--/lua-->"
    && (forall k :: s.bodyFrom <= k < s.bodyTo ==> !MatchAt(t, "<!--/lua-->", k))
  }

  lemma FoundReadsAs(t: string, from: nat)
    requires Exec(t, from).Match? && IndexOf(t, CLOSE, Exec(t, from).end) >= 0
    ensures var m, close := Exec(t, from), IndexOf(t, CLOSE, Exec(t, from).end);
      && m.groupFrom <= m.groupTo <= |t|
      && ReadsAs(t, Section(Trim(t[m.groupFrom..m.groupTo]), m.index, m.end, close, close + |CLOSE|))
  {
    hide Exec, SkipSpaces, TrimStart, TrimEnd, IsSpace, IndexOf;
    ExecSound(t, from);
    var m := Exec(t, from);
    TrimAfterSpaces(t, m.index + |OPEN|, m.groupTo);
  }

  lemma {:induction false} SectionsRead(t: string, from: nat)
    ensures forall s :: s in Sections(t, from) ==> ReadsAs(t, s)
    decreases |t| - from
  {
    hide Exec, SkipSpaces, Trim, ReadsAs, IndexOf, Sections;
    SectionsStep(t, from);
    ExecSound(t, from);
    var m := Exec(t, from);
    if m.Match? {
      var close := IndexOf(t, CLOSE, m.end);
      if close < 0 {
        SectionsRead(t, m.end);
      } else {
        FoundReadsAs(t, from);
        SectionsRead(t, close + |CLOSE|);
      }
    }
  }

  // ----- What baking writes -----

  /** The section `s` of `t` and the section `s'` of the baked text `u`: the expression stays, and
      the body is the trimmed result, all closing markers in it spelled with spaces. */
  ghost predicate IsBaked(t: string, s: Section, u: string, s': Section, eval: string -> Result) {
    && s.bodyFrom <= s.bodyTo <= |t| && s'.bodyFrom <= s'.bodyTo <= |u|
    && s'.expr == s.expr
    && match eval(s.expr)
       case CannotBake => u[s'.bodyFrom..s'.bodyTo] == t[s.bodyFrom..s.bodyTo]
       case Markdown(md) => HoldsMarkdown(u[s'.bodyFrom..s'.bodyTo], md)
  }

  ghost predicate HoldsMarkdown(body: string, markdown: string) {
    forall pieces :: |pieces| > 0 && NoneCloses(pieces) && Joined(pieces, "<!--/lua-->") == markdown
      ==> body == "\n" + Trim(Joined(pieces, "<!-- /lua -->")) + "\n"
  }

  lemma BodyHolds(markdown: string)
    ensures HoldsMarkdown("\n" + Trim(EscapeBakedBody(markdown)) + "\n", markdown)
  {
    hide Trim, EscapeBakedBody, NoneCloses, Joined;
    forall pieces | |pieces| > 0 && NoneCloses(pieces) && Joined(pieces, "<!--/lua-->") == markdown
      ensures EscapeBakedBody(markdown) == Joined(pieces, "<!-- /lua -->")
    {
      EscapeIsReplaceAll(pieces);
    }
  }

  lemma BodyIsBaked(t: string, s: Section, u: string, s': Section, eval: string -> Result)
    requires s.bodyFrom <= s.bodyTo <= |t| && s'.bodyFrom <= s'.bodyTo <= |u| && s'.expr == s.expr
    requires u[s'.bodyFrom..s'.bodyTo] == BodyAfter(t, s, eval)
    ensures IsBaked(t, s, u, s', eval)
  {
    hide Trim, EscapeBakedBody, HoldsMarkdown;
    if eval(s.expr).Markdown? {
      BodyHolds(eval(s.expr).text);
    }
  }

  lemma {:induction false} AgreesAt(t: string, p: nat, ts: seq<Section>, u: string, q: nat, us: seq<Section>,
                                    eval: string -> Result, i: nat)
    requires BakedAgrees(t, p, ts, u, q, us, eval) && i < |ts|
    ensures |us| == |ts| && IsBaked(t, ts[i], u, us[i], eval)
    decreases i
  {
    hide BodyAfter, IsBaked;
    if i == 0 {
      BodyIsBaked(t, ts[0], u, us[0], eval);
    } else {
      AgreesAt(t, ts[0].end, ts[1..], u, us[0].end, us[1..], eval, i - 1);
    }
  }

  /** Each section of the baked text holds what its expression gives, for every evaluator. */
  lemma SectionsAreBaked(text: string, eval: string -> Result)
    ensures var ss, baked := Sections(text, 0), Baked(text, eval);
      var us := Sections(baked, 0);
      |us| == |ss| && forall i :: 0 <= i < |ss| ==> IsBaked(text, ss[i], baked, us[i], eval)
  {
    hide Sections, Baked, IsBaked, BakedAgrees;
    BakingKeepsTheRest(text, eval);
    var ss, baked := Sections(text, 0), Baked(text, eval);
    var us := Sections(baked, 0);
    SameNumber(text, 0, ss, baked, 0, us, eval);
    forall i | 0 <= i < |ss|
      ensures IsBaked(text, ss[i], baked, us[i], eval)
    {
      AgreesAt(text, 0, ss, baked, 0, us, eval, i);
    }
  }

  lemma SameNumber(t: string, p: nat, ts: seq<Section>, u: string, q: nat, us: seq<Section>, eval: string -> Result)
    requires BakedAgrees(t, p, ts, u, q, us, eval)
    ensures |us| == |ts|
  {
  }

  /** Markdown without a closing marker is written as it is, but for the white space around it. */
  lemma PlainMarkdown(t: string, s: Section, u: string, s': Section, eval: string -> Result, markdown: string)
    requires IsBaked(t, s, u, s', eval) && eval(s.expr) == Markdown(markdown) && NoClose(markdown)
    ensures u[s'.bodyFrom..s'.bodyTo] == "\n" + Trim(markdown) + "\n"
  {
    hide Trim, NoClose;
    var pieces := [markdown];
    assert NoneCloses(pieces) && Joined(pieces, "<!--/lua-->") == markdown == Joined(pieces, "<!-- /lua -->");
  }

  // ----- What is reported as skipped -----

  /** `at` numbers the sections from `i` on that cannot be baked, and `names` are their expressions. */
  ghost predicate Reports(names: seq<string>, ss: seq<Section>, i: nat, at: seq<nat>, eval: string -> Result) {
    && |at| == |names|
    && (forall j :: 0 <= j < |at| ==>
          i <= at[j] < |ss| && eval(ss[at[j]].expr).CannotBake? && names[j] == ss[at[j]].expr)
    && (forall j, k :: 0 <= j < k < |at| ==> at[j] < at[k])
    && (forall k :: i <= k < |ss| && eval(ss[k].expr).CannotBake? ==> k in at)
  }

  lemma ReportsOneMore(names: seq<string>, ss: seq<Section>, i: nat, at: seq<nat>, eval: string -> Result)
    requires i < |ss| && Reports(names, ss, i + 1, at, eval)
    ensures eval(ss[i].expr).CannotBake? ==> Reports([ss[i].expr] + names, ss, i, [i] + at, eval)
    ensures !eval(ss[i].expr).CannotBake? ==> Reports(names, ss, i, at, eval)
  {
  }

  lemma {:induction false} SkippedFrom(ss: seq<Section>, i: nat, eval: string -> Result) returns (at: seq<nat>)
    requires i <= |ss|
    ensures Reports(Skipped(ss[i..], eval), ss, i, at, eval)
    decreases |ss| - i
  {
    hide Reports, Skipped, Edits, EditOf;
    if i == |ss| {
      at := [];
      NoneReported(ss, i, eval);
    } else {
      var rest := SkippedFrom(ss, i + 1, eval);
      EditsStep(ss, i, eval);
      ReportsOneMore(Skipped(ss[i + 1..], eval), ss, i, rest, eval);
      at := if eval(ss[i].expr).CannotBake? then [i] + rest else rest;
      assert [] + Skipped(ss[i + 1..], eval) == Skipped(ss[i + 1..], eval);
    }
  }

  lemma NoneReported(ss: seq<Section>, i: nat, eval: string -> Result)
    requires i == |ss|
    ensures Reports(Skipped(ss[i..], eval), ss, i, [], eval)
  {
  }

  /** Exactly the expressions that cannot be baked are reported, in the order of their sections. */
  lemma SkippedAreReported(ss: seq<Section>, eval: string -> Result) returns (at: seq<nat>)
    ensures Reports(Skipped(ss, eval), ss, 0, at, eval)
  {
    hide Reports, Skipped;
    at := SkippedFrom(ss, 0, eval);
    assert ss[0..] == ss;
  }
}
