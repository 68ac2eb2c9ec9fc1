/** Text edits as the editor holds them: `client/codemirror/cm_util.ts` and the
    part of CodeMirror's ChangeSet that the repository relies on.

    A change replaces `text[from..to]` by `ins`; a change set is a list of changes that
    all refer to the same, unedited text. */
module Changes {
  import opened TextLines

  datatype Change = Change(from: nat, to: nat, ins: string)

  /** The changes lie in `[pos, n]` and come in order; neighbours may touch. */
  ghost predicate Ordered(cs: seq<Change>, pos: nat, n: nat) {
    if cs == [] then pos <= n
    else pos <= cs[0].from <= cs[0].to <= n && Ordered(cs[1..], cs[0].to, n)
  }

  predicate Noop(c: Change) {
    c.from == c.to && c.ins == ""
  }

  /** What a ChangeSet reports through `iterChanges`: no empty change, and at least one
      kept character between neighbours. */
  ghost predicate Normal(cs: seq<Change>, n: nat) {
    && (forall i :: 0 <= i < |cs| ==> cs[i].from <= cs[i].to <= n && !Noop(cs[i]))
    && (forall i, j :: 0 <= i < j < |cs| ==> cs[i].to < cs[j].from)
  }

  /** The part of the edited text that replaces `text[pos..]`: all changes at once. */
  function ApplyFrom(text: string, pos: nat, cs: seq<Change>): string
    requires Ordered(cs, pos, |text|)
    decreases |cs|
  {
    if cs == [] then text[pos..]
    else text[pos..cs[0].from] + cs[0].ins + ApplyFrom(text, cs[0].to, cs[1..])
  }

  function Apply(text: string, cs: seq<Change>): string
    requires Ordered(cs, 0, |text|)
  {
    ApplyFrom(text, 0, cs)
  }

  /** One step of the edit. */
  lemma ApplyStep(t: string, pos: nat, cs: seq<Change>)
    requires cs != [] && pos <= cs[0].from <= cs[0].to <= |t| && Ordered(cs[1..], cs[0].to, |t|)
    ensures Ordered(cs, pos, |t|)
    ensures ApplyFrom(t, pos, cs) == t[pos..cs[0].from] + cs[0].ins + ApplyFrom(t, cs[0].to, cs[1..])
  {
  }

  lemma NoText(t: string, p: nat, x: string, y: string)
    requires p <= |t|
    ensures t[p..p] + x + y == x + y
  {
    assert t[p..p] + x == x;
  }

  lemma {:induction false} NormalIsOrdered(cs: seq<Change>, pos: nat, n: nat)
    requires Normal(cs, n) && pos <= n
    requires cs != [] ==> pos <= cs[0].from
    ensures Ordered(cs, pos, n)
    decreases |cs|
  {
    if cs != [] {
      NormalIsOrdered(cs[1..], cs[0].to, n);
    }
  }

  lemma {:induction false} OrderedWeaken(cs: seq<Change>, pos: nat, n: nat, pos': nat, n': nat)
    requires Ordered(cs, pos, n) && pos' <= pos && n <= n'
    ensures Ordered(cs, pos', n')
    decreases |cs|
  {
    if cs != [] {
      OrderedWeaken(cs[1..], cs[0].to, n, cs[0].to, n');
    }
  }

  lemma {:induction false} OrderedJoin(a: seq<Change>, b: seq<Change>, pos: nat, m: nat, n: nat)
    requires Ordered(a, pos, m) && Ordered(b, m, n)
    ensures pos <= m <= n && Ordered(a + b, pos, n)
    decreases |a|
  {
    if a == [] {
      OrderedBounds(b, m, n);
      OrderedWeaken(b, m, n, pos, n);
      assert a + b == b;
    } else {
      OrderedJoin(a[1..], b, a[0].to, m, n);
      assert (a + b)[1..] == a[1..] + b;
    }
  }

  lemma {:induction false} OrderedBounds(cs: seq<Change>, pos: nat, n: nat)
    requires Ordered(cs, pos, n)
    ensures pos <= n
    decreases |cs|
  {
    if cs != [] {
      OrderedBounds(cs[1..], cs[0].to, n);
    }
  }

  /** Editing can be cut at any position no change straddles. */
  lemma {:induction false} ApplySplit(text: string, pos: nat, a: seq<Change>, m: nat, b: seq<Change>)
    requires m <= |text| && Ordered(a, pos, m) && Ordered(b, m, |text|)
    ensures Ordered(a + b, pos, |text|)
    ensures ApplyFrom(text, pos, a + b) == ApplyFrom(text[..m], pos, a) + ApplyFrom(text, m, b)
    decreases |a|
  {
    hide ApplyFrom, Ordered;
    OrderedJoin(a, b, pos, m, |text|);
    if a == [] {
      assert a + b == b;
      SkipTo(text, pos, m, b);
      NoChangesLeft(text[..m], pos);
      assert text[..m][pos..] == text[pos..m];
    } else {
      FirstOrdered(a, pos, m);
      FirstOrdered(a + b, pos, |text|);
      assert (a + b)[1..] == a[1..] + b;
      ApplySplit(text, a[0].to, a[1..], m, b);
      ApplyStep(text[..m], pos, a);
      ApplyStep(text, pos, a + b);
      assert text[pos..a[0].from] == text[..m][pos..a[0].from];
      var head := text[pos..a[0].from] + a[0].ins;
      Associate(head, ApplyFrom(text[..m], a[0].to, a[1..]), ApplyFrom(text, m, b));
    }
  }

  lemma NoChangesLeft(text: string, pos: nat)
    requires Ordered([], pos, |text|)
    ensures pos <= |text| && ApplyFrom(text, pos, []) == text[pos..]
  {
  }

  lemma FirstOrdered(cs: seq<Change>, pos: nat, n: nat)
    requires cs != [] && Ordered(cs, pos, n)
    ensures pos <= cs[0].from <= cs[0].to <= n && Ordered(cs[1..], cs[0].to, n)
  {
  }

  /** Text before the first change is copied. */
  lemma SkipTo(text: string, pos: nat, m: nat, cs: seq<Change>)
    requires pos <= m <= |text| && Ordered(cs, m, |text|)
    ensures Ordered(cs, pos, |text|)
    ensures ApplyFrom(text, pos, cs) == text[pos..m] + ApplyFrom(text, m, cs)
  {
    hide ApplyFrom, Ordered;
    OrderedWeaken(cs, m, |text|, pos, |text|);
    if cs == [] {
      NoChangesLeft(text, pos);
      NoChangesLeft(text, m);
      assert text[pos..] == text[pos..m] + text[m..];
    } else {
      FirstOrdered(cs, m, |text|);
      ApplyStep(text, pos, cs);
      ApplyStep(text, m, cs);
      var tail := ApplyFrom(text, cs[0].to, cs[1..]);
      assert text[pos..cs[0].from] == text[pos..m] + text[m..cs[0].from];
      Associate(text[pos..m], text[m..cs[0].from], cs[0].ins);
      Associate(text[pos..m], text[m..cs[0].from] + cs[0].ins, tail);
    }
  }

  /** Only the text from `pos` on matters. */
  lemma {:induction false} ApplyFromMoved(t: string, p: nat, cs: seq<Change>, u: string, q: nat, ds: seq<Change>)
    requires Ordered(cs, p, |t|) && q <= |u| && u[q..] == t[p..]
    requires |ds| == |cs|
    requires forall i :: 0 <= i < |cs| ==>
      ds[i].from + p == cs[i].from + q && ds[i].to + p == cs[i].to + q && ds[i].ins == cs[i].ins
    ensures Ordered(ds, q, |u|)
    ensures ApplyFrom(u, q, ds) == ApplyFrom(t, p, cs)
    decreases |cs|
  {
    OrderedBounds(cs, p, |t|);
    if cs == [] {
      SameTail(t, p, u, q, 0);
    } else {
      OrderedBounds(cs[1..], cs[0].to, |t|);
      SameTail(t, p, u, q, cs[0].from - p);
      SameTail(t, p, u, q, cs[0].to - p);
      ApplyFromMoved(t, cs[0].to, cs[1..], u, ds[0].to, ds[1..]);
    }
  }

  // ----- ChangeSet.of: touching changes become one, empty ones vanish -----

  function Normalize(cs: seq<Change>): seq<Change> {
    if cs == [] then []
    else
      var rest := Normalize(cs[1..]);
      if Noop(cs[0]) then rest
      else if rest != [] && cs[0].to == rest[0].from then
        [Change(cs[0].from, rest[0].to, cs[0].ins + rest[0].ins)] + rest[1..]
      else [cs[0]] + rest
  }

  lemma {:induction false} NormalizeIsNormal(cs: seq<Change>, pos: nat, n: nat)
    requires Ordered(cs, pos, n)
    ensures Normal(Normalize(cs), n)
    ensures Normalize(cs) != [] ==> pos <= Normalize(cs)[0].from
    ensures Ordered(Normalize(cs), pos, n)
    decreases |cs|
  {
    OrderedBounds(cs, pos, n);
    if cs != [] {
      NormalizeIsNormal(cs[1..], cs[0].to, n);
      var rest := Normalize(cs[1..]);
      if !Noop(cs[0]) {
        if rest != [] && cs[0].to == rest[0].from {
          PrependNormal(Change(cs[0].from, rest[0].to, cs[0].ins + rest[0].ins), rest[1..], n);
        } else {
          PrependNormal(cs[0], rest, n);
        }
      }
    }
    NormalIsOrdered(Normalize(cs), pos, n);
  }

  lemma PrependNormal(c: Change, rest: seq<Change>, n: nat)
    requires Normal(rest, n) && c.from <= c.to <= n && !Noop(c)
    requires rest != [] ==> c.to < rest[0].from
    ensures Normal([c] + rest, n)
  {
    var cs := [c] + rest;
    forall j | 0 < j < |cs|
      ensures cs[0].to < cs[j].from
    {
      assert cs[j] == rest[j - 1];
    }
  }

  /** Joining touching changes does not change the edit. */
  lemma {:induction false} NormalizeKeepsEdit(text: string, pos: nat, cs: seq<Change>)
    requires Ordered(cs, pos, |text|)
    ensures Ordered(Normalize(cs), pos, |text|)
    ensures ApplyFrom(text, pos, Normalize(cs)) == ApplyFrom(text, pos, cs)
    decreases |cs|
  {
    hide ApplyFrom, Ordered, Normal;
    if cs != [] {
      var c, rest := cs[0], Normalize(cs[1..]);
      OrderedHead(cs, pos, |text|);
      NormalizeKeepsEdit(text, c.to, cs[1..]);
      ApplyStep(text, pos, cs);
      if Noop(c) {
        SkipTo(text, pos, c.to, rest);
      } else if rest != [] && c.to == rest[0].from {
        JoinKeepsEdit(text, pos, c, rest);
      } else {
        assert Normalize(cs)[1..] == rest;
        ApplyStep(text, pos, Normalize(cs));
      }
    }
  }

  lemma OrderedHead(cs: seq<Change>, pos: nat, n: nat)
    requires Ordered(cs, pos, n) && cs != []
    ensures pos <= cs[0].from <= cs[0].to <= n && Ordered(cs[1..], cs[0].to, n)
  {
  }

  lemma JoinKeepsEdit(text: string, pos: nat, c: Change, rest: seq<Change>)
    requires pos <= c.from <= c.to <= |text| && Ordered(rest, c.to, |text|)
    requires rest != [] && c.to == rest[0].from
    ensures
      var joined := [Change(c.from, rest[0].to, c.ins + rest[0].ins)] + rest[1..];
      Ordered(joined, pos, |text|) &&
      ApplyFrom(text, pos, joined) == text[pos..c.from] + c.ins + ApplyFrom(text, c.to, rest)
  {
    var joined := [Change(c.from, rest[0].to, c.ins + rest[0].ins)] + rest[1..];
    hide ApplyFrom, Ordered;
    assert joined[1..] == rest[1..];
    OrderedHead(rest, c.to, |text|);
    var tail := ApplyFrom(text, rest[0].to, rest[1..]);
    ApplyStep(text, c.to, rest);
    NoText(text, c.to, rest[0].ins, tail);
    ApplyStep(text, pos, joined);
    Associate(text[pos..c.from], c.ins, rest[0].ins);
    Associate(text[pos..c.from] + c.ins, rest[0].ins, tail);
  }

  // ----- diffAndPrepareChanges: a diff script as change specs -----

  datatype PartKind = Insert | Equal | Delete
  datatype Part = Part(kind: PartKind, text: string)

  /** The text a script starts from, and the one it leads to. */
  function OldText(script: seq<Part>): string {
    if script == [] then ""
    else OldText(script[..|script| - 1]) + if script[|script| - 1].kind.Insert? then "" else script[|script| - 1].text
  }

  function NewText(script: seq<Part>): string {
    if script == [] then ""
    else NewText(script[..|script| - 1]) + if script[|script| - 1].kind.Delete? then "" else script[|script| - 1].text
  }

  /** The diff library's contract. */
  ghost predicate IsDiff(script: seq<Part>, before: string, after: string) {
    OldText(script) == before && NewText(script) == after
  }

  lemma {:induction false} OldTextPrefix(script: seq<Part>, k: nat)
    requires k <= |script|
    ensures OldText(script[..k]) <= OldText(script)
    decreases |script|
  {
    if k == |script| {
      assert script[..k] == script;
    } else {
      var init := script[..|script| - 1];
      assert init[..k] == script[..k];
      OldTextPrefix(init, k);
    }
  }

  /** Text after the last change is copied. */
  lemma ApplyGrow(text: string, cs: seq<Change>, m: nat, n: nat)
    requires m <= n <= |text| && Ordered(cs, 0, m)
    ensures Ordered(cs, 0, n)
    ensures Apply(text[..n], cs) == Apply(text[..m], cs) + text[m..n]
  {
    var t := text[..n];
    OrderedWeaken(cs, 0, m, 0, n);
    ApplySplit(t, 0, cs, m, []);
    assert cs + [] == cs;
    assert t[..m] == text[..m];
  }

  lemma ApplyAppend(text: string, cs: seq<Change>, c: Change)
    requires c.from <= c.to <= |text| && Ordered(cs, 0, c.from)
    ensures Ordered(cs + [c], 0, c.to)
    ensures Apply(text[..c.to], cs + [c]) == Apply(text[..c.from], cs) + c.ins
  {
    var t := text[..c.to];
    assert Ordered([c], c.from, c.to);
    OrderedJoin(cs, [c], 0, c.from, c.to);
    ApplySplit(t, 0, cs, c.from, [c]);
    assert t[..c.from] == text[..c.from];
    assert ApplyFrom(t, c.to, []) == "";
  }

  lemma ScriptStep(diffs: seq<Part>, i: nat)
    requires i < |diffs|
    ensures
      var start := |OldText(diffs[..i])|;
      var part := diffs[i];
      match part.kind
      case Insert =>
        |OldText(diffs[..i + 1])| == start <= |OldText(diffs)| &&
        NewText(diffs[..i + 1]) == NewText(diffs[..i]) + part.text
      case Equal =>
        |OldText(diffs[..i + 1])| == start + |part.text| <= |OldText(diffs)| &&
        OldText(diffs)[start..start + |part.text|] == part.text &&
        NewText(diffs[..i + 1]) == NewText(diffs[..i]) + part.text
      case Delete =>
        |OldText(diffs[..i + 1])| == start + |part.text| <= |OldText(diffs)| &&
        NewText(diffs[..i + 1]) == NewText(diffs[..i])
  {
    var upTo := diffs[..i + 1];
    assert upTo[..|upTo| - 1] == diffs[..i];
    OldTextPrefix(diffs, i + 1);
    if diffs[i].kind.Equal? {
      var old0, old1 := OldText(diffs[..i]), OldText(upTo);
      assert old1 == old0 + diffs[i].text;
      assert OldText(diffs)[|old0|..|old1|] == old1[|old0|..];
    }
  }

  /** The change specs of a script, each where the text it stands on begins. */
  function Specs(script: seq<Part>): seq<Change> {
    if script == [] then []
    else
      var init, part := script[..|script| - 1], script[|script| - 1];
      var start := |OldText(init)|;
      Specs(init) + match part.kind
                    case Insert => [Change(start, start, part.text)]
                    case Equal => []
                    case Delete => [Change(start, start + |part.text|, "")]
  }

  lemma NothingApplied()
    ensures Ordered([], 0, 0) && Apply("", []) == ""
  {
  }

  method DiffAndPrepareChanges(before: string, after: string, diffs: seq<Part>) returns (changes: seq<Change>)
    requires IsDiff(diffs, before, after)
    ensures changes == Specs(diffs)
    ensures Ordered(changes, 0, |before|)
    ensures Apply(before, changes) == after
  {
    hide Apply, Ordered;
    var startIndex := 0;
    changes := [];
    NothingApplied();
    assert before[..0] == "";
    for i := 0 to |diffs|
      invariant startIndex == |OldText(diffs[..i])| <= |before|
      invariant changes == Specs(diffs[..i])
      invariant Ordered(changes, 0, startIndex)
      invariant Apply(before[..startIndex], changes) == NewText(diffs[..i])
    {
      var part := diffs[i];
      ScriptStep(diffs, i);
      assert diffs[..i + 1][..i] == diffs[..i];
      if part.kind.Insert? {
        var c := Change(startIndex, startIndex, part.text);
        ApplyAppend(before, changes, c);
        changes := changes + [c];
      } else if part.kind.Equal? {
        ApplyGrow(before, changes, startIndex, startIndex + |part.text|);
        startIndex := startIndex + |part.text|;
      } else {
        var c := Change(startIndex, startIndex + |part.text|, "");
        ApplyAppend(before, changes, c);
        changes := changes + [c];
        startIndex := startIndex + |part.text|;
      }
    }
    assert diffs[..|diffs|] == diffs;
    assert before[..startIndex] == before;
  }

  /** `ChangeSet.of(diffAndPrepareChanges(before, after), before.length)`. */
  function ChangeSetOf(diffs: seq<Part>): seq<Change> {
    Normalize(Specs(diffs))
  }

  /** It is normal and takes `before` exactly to `after`. */
  method BuildChangeSet(before: string, after: string, diffs: seq<Part>) returns (changes: seq<Change>)
    requires IsDiff(diffs, before, after)
    ensures changes == ChangeSetOf(diffs)
    ensures Normal(changes, |before|) && Ordered(changes, 0, |before|)
    ensures Apply(before, changes) == after
  {
    var specs := DiffAndPrepareChanges(before, after, diffs);
    changes := Normalize(specs);
    NormalizeIsNormal(specs, 0, |before|);
    NormalizeKeepsEdit(before, 0, specs);
  }

  // ----- No more is replaced than the script says -----

  /** The character at `p` is replaced or deleted. */
  ghost predicate Covers(cs: seq<Change>, p: nat) {
    exists i :: 0 <= i < |cs| && cs[i].from <= p < cs[i].to
  }

  /** Something happens at `p`: next to it, or around it. */
  ghost predicate Touches(cs: seq<Change>, p: nat) {
    exists i :: 0 <= i < |cs| && cs[i].from <= p <= cs[i].to && !Noop(cs[i])
  }

  lemma CoversFirst(c: Change, cs: seq<Change>, p: nat)
    ensures Covers([c] + cs, p) <==> c.from <= p < c.to || Covers(cs, p)
    ensures Touches([c] + cs, p) <==> (c.from <= p <= c.to && !Noop(c)) || Touches(cs, p)
  {
    var all := [c] + cs;
    assert forall i :: 0 <= i < |cs| ==> all[i + 1] == cs[i];
    assert all[0] == c;
  }

  /** Joining changes neither widens nor narrows them. */
  lemma {:induction false} NormalizeCoversSame(cs: seq<Change>, pos: nat, n: nat, p: nat)
    requires Ordered(cs, pos, n)
    ensures Covers(Normalize(cs), p) <==> Covers(cs, p)
    ensures Touches(Normalize(cs), p) <==> Touches(cs, p)
    decreases |cs|
  {
    hide Covers, Touches;
    if cs != [] {
      var c, rest := cs[0], Normalize(cs[1..]);
      NormalizeCoversSame(cs[1..], c.to, n, p);
      NormalizeIsNormal(cs[1..], c.to, n);
      assert cs == [c] + cs[1..];
      CoversFirst(c, cs[1..], p);
      CoversFirst(c, rest, p);
      if rest != [] {
        assert rest == [rest[0]] + rest[1..];
        CoversFirst(rest[0], rest[1..], p);
        CoversFirst(Change(c.from, rest[0].to, c.ins + rest[0].ins), rest[1..], p);
      }
    }
  }

  /** The character at `p` of the old text belongs to a deleted part. */
  ghost predicate DeletedAt(script: seq<Part>, p: nat) {
    exists i :: 0 <= i < |script| && IsDeletedBy(script, i, p)
  }

  ghost predicate IsDeletedBy(script: seq<Part>, i: nat, p: nat)
    requires i < |script|
  {
    var start := |OldText(script[..i])|;
    script[i].kind.Delete? && start <= p < start + |script[i].text|
  }

  lemma {:induction false} SpecsCover(script: seq<Part>, p: nat)
    ensures Covers(Specs(script), p) <==> DeletedAt(script, p)
    decreases |script|
  {
    hide Covers, DeletedAt, IsDeletedBy, LastSpecs;
    if script == [] {
      NothingCovered(p);
      NothingDeleted(p);
    } else {
      var n := |script| - 1;
      SpecsCover(script[..n], p);
      DeletedByLast(script, p);
      SpecsStep(script);
      LastCovers(script, p);
      CoversConcat(Specs(script[..n]), LastSpecs(script), p);
    }
  }

  lemma {:induction false} SpecsOrdered(script: seq<Part>)
    ensures Ordered(Specs(script), 0, |OldText(script)|)
    decreases |script|
  {
    if script != [] {
      var init, part := script[..|script| - 1], script[|script| - 1];
      SpecsOrdered(init);
      var start, end := |OldText(init)|, |OldText(script)|;
      if part.kind.Equal? {
        OrderedWeaken(Specs(init), 0, start, 0, end);
        assert Specs(script) == Specs(init) + [] == Specs(init);
      } else {
        var c := Specs(script)[|Specs(init)|];
        assert Specs(script) == Specs(init) + [c] && Ordered([c], start, end);
        OrderedJoin(Specs(init), [c], 0, start, end);
      }
    }
  }

  lemma DeletedByLast(script: seq<Part>, p: nat)
    requires script != []
    ensures DeletedAt(script, p) <==> DeletedAt(script[..|script| - 1], p) || IsDeletedBy(script, |script| - 1, p)
  {
    hide OldText;
    var init := script[..|script| - 1];
    assert forall i :: 0 <= i < |init| ==> init[..i] == script[..i] && init[i] == script[i];
    assert forall i :: 0 <= i < |init| ==> IsDeletedBy(init, i, p) == IsDeletedBy(script, i, p);
  }

  lemma CoversConcat(a: seq<Change>, b: seq<Change>, p: nat)
    ensures Covers(a + b, p) <==> Covers(a, p) || Covers(b, p)
  {
    var all := a + b;
    assert forall i :: 0 <= i < |a| ==> all[i] == a[i];
    assert forall i :: 0 <= i < |b| ==> all[|a| + i] == b[i];
  }

  lemma CoversOne(c: Change, p: nat)
    ensures Covers([c], p) <==> c.from <= p < c.to
  {
    assert [c][0] == c;
  }

  lemma NothingDeleted(p: nat)
    ensures !DeletedAt([], p)
  {
  }

  /** What the last part of a script adds. */
  function LastSpecs(script: seq<Part>): seq<Change>
    requires script != []
  {
    var start, part := |OldText(script[..|script| - 1])|, script[|script| - 1];
    match part.kind
    case Insert => [Change(start, start, part.text)]
    case Equal => []
    case Delete => [Change(start, start + |part.text|, "")]
  }

  lemma SpecsStep(script: seq<Part>)
    requires script != []
    ensures Specs(script) == Specs(script[..|script| - 1]) + LastSpecs(script)
  {
  }

  lemma LastCovers(script: seq<Part>, p: nat)
    requires script != []
    ensures Covers(LastSpecs(script), p) <==> IsDeletedBy(script, |script| - 1, p)
  {
    hide OldText, Covers;
    if script[|script| - 1].kind.Equal? {
      NothingCovered(p);
    } else {
      CoversOne(LastSpecs(script)[0], p);
    }
  }

  lemma NothingCovered(p: nat)
    ensures !Covers([], p)
  {
  }

  /** The change set replaces exactly the characters that the script deletes; all others are kept. */
  lemma OnlyDeletedIsReplaced(before: string, after: string, diffs: seq<Part>, p: nat)
    requires IsDiff(diffs, before, after)
    ensures Covers(ChangeSetOf(diffs), p) <==> DeletedAt(diffs, p)
  {
    hide Covers, Specs, Normalize, DeletedAt;
    SpecsOrdered(diffs);
    NormalizeCoversSame(Specs(diffs), 0, |before|, p);
    SpecsCover(diffs, p);
  }

  // ----- ChangeSet.map on change sets that keep apart -----

  /** No change of one side overlaps or touches a change of the other. */
  ghost predicate Apart(xs: seq<Change>, ys: seq<Change>) {
    forall i, j :: 0 <= i < |xs| && 0 <= j < |ys| ==> xs[i].to < ys[j].from || ys[j].to < xs[i].from
  }

  /** The two sides as one change set on the common text. */
  function Interleave(xs: seq<Change>, ys: seq<Change>): seq<Change>
    decreases |xs| + |ys|
  {
    if xs == [] then ys
    else if ys == [] then xs
    else if xs[0].from < ys[0].from then [xs[0]] + Interleave(xs[1..], ys)
    else [ys[0]] + Interleave(xs, ys[1..])
  }

  function Growth(c: Change): int {
    |c.ins| - (c.to - c.from)
  }

  /** How far the changes in front of position `p` move it. */
  function Offset(cs: seq<Change>, p: nat): int {
    if cs == [] then 0 else (if cs[0].to <= p then Growth(cs[0]) else 0) + Offset(cs[1..], p)
  }

  /** `ds` is `cs` carried over to the text that `through` leads to: every end of a change
      moves by the growth of the changes in front of it. */
  ghost predicate Mapped(cs: seq<Change>, through: seq<Change>, ds: seq<Change>) {
    && |ds| == |cs|
    && forall i :: 0 <= i < |cs| ==>
         && ds[i].from == cs[i].from + Offset(through, cs[i].from)
         && ds[i].to == cs[i].to + Offset(through, cs[i].to)
         && ds[i].ins == cs[i].ins
  }

  lemma {:induction false} OffsetZero(cs: seq<Change>, p: nat, n: nat)
    requires Normal(cs, n)
    requires cs != [] ==> p < cs[0].from
    ensures Offset(cs, p) == 0
    decreases |cs|
  {
    if cs != [] {
      OffsetZero(cs[1..], p, n);
    }
  }

  lemma {:induction false} InterleaveSides(xs: seq<Change>, ys: seq<Change>, n: nat)
    requires Normal(xs, n) && Normal(ys, n) && Apart(xs, ys)
    ensures Normal(Interleave(xs, ys), n)
    ensures forall c :: c in Interleave(xs, ys) <==> c in xs || c in ys
    decreases |xs| + |ys|
  {
    if xs != [] && ys != [] {
      if xs[0].from < ys[0].from {
        InterleaveSides(xs[1..], ys, n);
        assert xs == [xs[0]] + xs[1..];
        HeadsFollow(xs, ys, n);
        PrependNormal(xs[0], Interleave(xs[1..], ys), n);
      } else {
        InterleaveSides(xs, ys[1..], n);
        assert ys == [ys[0]] + ys[1..];
        HeadsFollow(ys, xs, n);
        PrependNormal(ys[0], Interleave(xs, ys[1..]), n);
      }
    }
  }

  /** When the first change is `xs[0]`, everything else lies strictly behind it. */
  lemma HeadsFollow(xs: seq<Change>, ys: seq<Change>, n: nat)
    requires xs != [] && Normal(xs, n) && Normal(ys, n) && (Apart(xs, ys) || Apart(ys, xs))
    requires ys != [] ==> xs[0].from <= ys[0].from
    ensures forall c :: c in xs[1..] || c in ys ==> xs[0].to < c.from
  {
    forall c | c in xs[1..] || c in ys
      ensures xs[0].to < c.from
    {
      if c in ys {
        assert xs[0].to < ys[0].from;
        var j :| 0 <= j < |ys| && ys[j] == c;
        assert j > 0 ==> ys[0].to < ys[j].from;
      } else {
        var j :| 0 <= j < |xs[1..]| && xs[1..][j] == c;
        assert xs[0].to < xs[j + 1].from;
      }
    }
  }

  lemma {:induction false} InterleaveCommutes(xs: seq<Change>, ys: seq<Change>, n: nat)
    requires Normal(xs, n) && Normal(ys, n) && Apart(xs, ys)
    ensures Interleave(xs, ys) == Interleave(ys, xs)
    decreases |xs| + |ys|
  {
    if xs != [] && ys != [] {
      assert xs[0].to < ys[0].from || ys[0].to < xs[0].from;
      if xs[0].from < ys[0].from {
        InterleaveCommutes(xs[1..], ys, n);
      } else {
        InterleaveCommutes(xs, ys[1..], n);
      }
    }
  }

  /** `text[..pos]` has been dealt with. `edited`, the text after one side (`ys`), still
      has to get the other side, `xs`, whose mapped changes are `ds`. */
  ghost predicate HalfWay(text: string, pos: nat, xs: seq<Change>, ys: seq<Change>,
                          edited: string, at: nat, ds: seq<Change>)
  {
    && Normal(xs, |text|) && Normal(ys, |text|) && Apart(xs, ys)
    && Ordered(xs, pos, |text|) && Ordered(ys, pos, |text|)
    && at <= |edited| && edited[at..] == ApplyFrom(text, pos, ys)
    && |ds| == |xs|
    && forall i :: 0 <= i < |xs| ==>
         && ds[i].from == xs[i].from + (at - pos) + Offset(ys, xs[i].from)
         && ds[i].to == xs[i].to + (at - pos) + Offset(ys, xs[i].to)
         && ds[i].ins == xs[i].ins
  }

  lemma {:induction false} MapThroughFrom(text: string, pos: nat, xs: seq<Change>, ys: seq<Change>,
                                          edited: string, at: nat, ds: seq<Change>)
    requires HalfWay(text, pos, xs, ys, edited, at, ds)
    ensures Ordered(ds, at, |edited|) && Ordered(Interleave(xs, ys), pos, |text|)
    ensures ApplyFrom(edited, at, ds) == ApplyFrom(text, pos, Interleave(xs, ys))
    decreases |xs| + |ys|
  {
    hide HalfWay, ApplyFrom, Ordered, Interleave;
    if xs == [] || ys == [] {
      LastSide(text, pos, xs, ys, edited, at, ds);
    } else {
      HeadsFit(text, pos, xs, ys, edited, at, ds);
      if xs[0].from < ys[0].from {
        StepOverX(text, pos, xs, ys, edited, at, ds);
        MapThroughFrom(text, xs[0].to, xs[1..], ys, edited, ds[0].to, ds[1..]);
        NextIsX(text, pos, xs, ys, edited, at, ds);
      } else {
        var lead := text[pos..ys[0].from] + ys[0].ins;
        StepOverY(text, pos, xs, ys, edited, at, ds);
        MapThroughFrom(text, ys[0].to, xs, ys[1..], edited, at + |lead|, ds);
        NextIsY(text, pos, xs, ys, edited, at, ds);
      }
    }
  }

  lemma NextIsX(text: string, pos: nat, xs: seq<Change>, ys: seq<Change>, edited: string, at: nat, ds: seq<Change>)
    requires xs != [] && ys != [] && xs[0].from < ys[0].from && ds != [] && ds[0].ins == xs[0].ins
    requires pos <= xs[0].from <= xs[0].to <= |text| && at <= ds[0].from <= ds[0].to <= |edited|
    requires edited[at..ds[0].from] == text[pos..xs[0].from]
    requires Ordered(ds[1..], ds[0].to, |edited|) && Ordered(Interleave(xs[1..], ys), xs[0].to, |text|)
    requires ApplyFrom(edited, ds[0].to, ds[1..]) == ApplyFrom(text, xs[0].to, Interleave(xs[1..], ys))
    ensures Ordered(ds, at, |edited|) && Ordered(Interleave(xs, ys), pos, |text|)
    ensures ApplyFrom(edited, at, ds) == ApplyFrom(text, pos, Interleave(xs, ys))
  {
    hide ApplyFrom, Ordered;
    assert Interleave(xs, ys)[1..] == Interleave(xs[1..], ys);
    ApplyStep(text, pos, Interleave(xs, ys));
    ApplyStep(edited, at, ds);
  }

  lemma NextIsY(text: string, pos: nat, xs: seq<Change>, ys: seq<Change>, edited: string, at: nat, ds: seq<Change>)
    requires xs != [] && ys != [] && ys[0].from <= xs[0].from && pos <= ys[0].from <= ys[0].to <= |text|
    requires var lead := text[pos..ys[0].from] + ys[0].ins;
      && at + |lead| <= |edited| && edited[at..at + |lead|] == lead
      && Ordered(ds, at + |lead|, |edited|) && Ordered(Interleave(xs, ys[1..]), ys[0].to, |text|)
      && ApplyFrom(edited, at + |lead|, ds) == ApplyFrom(text, ys[0].to, Interleave(xs, ys[1..]))
    ensures Ordered(ds, at, |edited|) && Ordered(Interleave(xs, ys), pos, |text|)
    ensures ApplyFrom(edited, at, ds) == ApplyFrom(text, pos, Interleave(xs, ys))
  {
    hide ApplyFrom, Ordered;
    var lead := text[pos..ys[0].from] + ys[0].ins;
    SkipTo(edited, at, at + |lead|, ds);
    assert Interleave(xs, ys)[1..] == Interleave(xs, ys[1..]);
    ApplyStep(text, pos, Interleave(xs, ys));
  }

  /** One side has no more changes. */
  lemma LastSide(text: string, pos: nat, xs: seq<Change>, ys: seq<Change>, edited: string, at: nat, ds: seq<Change>)
    requires HalfWay(text, pos, xs, ys, edited, at, ds) && (xs == [] || ys == [])
    ensures Ordered(ds, at, |edited|) && Ordered(Interleave(xs, ys), pos, |text|)
    ensures ApplyFrom(edited, at, ds) == ApplyFrom(text, pos, Interleave(xs, ys))
  {
    if xs != [] {
      ApplyFromMoved(text, pos, xs, edited, at, ds);
    }
  }

  lemma HeadsFit(text: string, pos: nat, xs: seq<Change>, ys: seq<Change>, edited: string, at: nat, ds: seq<Change>)
    requires HalfWay(text, pos, xs, ys, edited, at, ds) && xs != [] && ys != []
    ensures |ds| == |xs| && ds[0].ins == xs[0].ins
    ensures pos <= xs[0].from <= xs[0].to <= |text| && pos <= ys[0].from <= ys[0].to <= |text|
  {
  }

  lemma StepOverX(text: string, pos: nat, xs: seq<Change>, ys: seq<Change>,
                  edited: string, at: nat, ds: seq<Change>)
    requires HalfWay(text, pos, xs, ys, edited, at, ds)
    requires xs != [] && ys != [] && xs[0].from < ys[0].from
    ensures at <= ds[0].from <= ds[0].to <= |edited|
    ensures edited[at..ds[0].from] == text[pos..xs[0].from]
    ensures HalfWay(text, xs[0].to, xs[1..], ys, edited, ds[0].to, ds[1..])
  {
    var x := xs[0];
    assert x.to < ys[0].from;
    OffsetZero(ys, x.from, |text|);
    OffsetZero(ys, x.to, |text|);
    NormalIsOrdered(ys, x.to, |text|);
    SkipTo(text, pos, x.to, ys);
    var rest := ApplyFrom(text, x.to, ys);
    assert edited[at..] == text[pos..x.to] + rest;
    assert edited[ds[0].to..] == edited[at..][x.to - pos..] == rest;
    assert edited[at..ds[0].from] == edited[at..][..x.from - pos] == text[pos..x.from];
  }

  lemma StepOverY(text: string, pos: nat, xs: seq<Change>, ys: seq<Change>,
                  edited: string, at: nat, ds: seq<Change>)
    requires HalfWay(text, pos, xs, ys, edited, at, ds)
    requires xs != [] && ys != [] && ys[0].from <= xs[0].from
    ensures
      var lead := text[pos..ys[0].from] + ys[0].ins;
      at + |lead| <= |edited| && edited[at..at + |lead|] == lead &&
      HalfWay(text, ys[0].to, xs, ys[1..], edited, at + |lead|, ds)
  {
    var y := ys[0];
    assert y.to < xs[0].from by { assert xs[0].to < ys[0].from || ys[0].to < xs[0].from; }
    var lead := text[pos..y.from] + y.ins;
    var rest := ApplyFrom(text, y.to, ys[1..]);
    assert edited[at..] == lead + rest;
    assert edited[at + |lead|..] == edited[at..][|lead|..] == rest;
    assert edited[at..at + |lead|] == edited[at..][..|lead|] == lead;
    forall i | 0 <= i < |xs|
      ensures y.to <= xs[i].from <= xs[i].to
    {
      assert i > 0 ==> xs[0].to < xs[i].from;
    }
    NormalIsOrdered(xs, y.to, |text|);
  }

  lemma MappedOneWay(text: string, xs: seq<Change>, ys: seq<Change>, ds: seq<Change>)
    requires Normal(xs, |text|) && Normal(ys, |text|) && Apart(xs, ys) && Mapped(xs, ys, ds)
    ensures Ordered(ys, 0, |text|) && Ordered(Interleave(xs, ys), 0, |text|)
    ensures Ordered(ds, 0, |Apply(text, ys)|) && Apply(Apply(text, ys), ds) == Apply(text, Interleave(xs, ys))
  {
    hide Ordered, ApplyFrom, Interleave;
    NormalIsOrdered(xs, 0, |text|);
    NormalIsOrdered(ys, 0, |text|);
    MapThroughFrom(text, 0, xs, ys, Apply(text, ys), 0, ds);
  }

  /** Local edits first and then the mapped external ones, or the other way round, or all at
      once: one and the same text. */
  lemma MappedEditsCommute(text: string, xs: seq<Change>, ys: seq<Change>,
                           xsMapped: seq<Change>, ysMapped: seq<Change>)
    requires Normal(xs, |text|) && Normal(ys, |text|) && Apart(xs, ys)
    requires Mapped(xs, ys, xsMapped) && Mapped(ys, xs, ysMapped)
    ensures Ordered(xs, 0, |text|) && Ordered(ys, 0, |text|) && Ordered(Interleave(xs, ys), 0, |text|)
    ensures Ordered(xsMapped, 0, |Apply(text, ys)|) && Ordered(ysMapped, 0, |Apply(text, xs)|)
    ensures Apply(Apply(text, ys), xsMapped) == Apply(text, Interleave(xs, ys))
    ensures Apply(Apply(text, xs), ysMapped) == Apply(text, Interleave(xs, ys))
  {
    hide Normal, Ordered, Mapped, ApplyFrom, Interleave;
    MappedOneWay(text, xs, ys, xsMapped);
    InterleaveCommutes(xs, ys, |text|);
    MappedOneWay(text, ys, xs, ysMapped);
  }
}
