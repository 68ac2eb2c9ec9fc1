/** Three-way merge of externally changed page content: `client/external_merge.ts`. */
module ExternalMerge {
  import opened TextLines
  import opened Changes
  import ConflictMarkers
  import ConflictPrinting

  // ----- lineIndexer -----

  method LineStarts(base: string) returns (starts: seq<nat>)
    ensures IsLineIndex(starts, base)
  {
    starts := [0];
    IndexOfNewline(base, 0);
    var i := IndexOf(base, "\n", 0);
    ghost var seen: nat := 0;
    while i != -1
      invariant IndexesUpTo(starts, base, seen)
      invariant i == IndexOf(base, "\n", seen)
      decreases |base| - seen
    {
      IndexOfNewline(base, seen);
      IndexesFurther(starts, base, seen, i);
      IndexesNewline(starts, base, i);
      starts := starts + [i + 1];
      seen := i + 1;
      i := IndexOf(base, "\n", i + 1);
    }
    IndexOfNewline(base, seen);
    assert base[seen..] == base[seen..|base|];
    IndexesFurther(starts, base, seen, |base|);
  }

  method LineAt(ghost base: string, starts: seq<nat>, pos: nat) returns (low: nat)
    requires IsLineIndex(starts, base) && pos <= |base|
    ensures low == LineNo(base, pos)
  {
    low := 0;
    var high := |starts| - 1;
    while low < high
      invariant 0 <= low <= high < |starts|
      invariant starts[low] <= pos
      invariant high + 1 < |starts| ==> pos < starts[high + 1]
    {
      var mid := (low + high + 1) / 2;
      if starts[mid] <= pos {
        low := mid;
      } else {
        high := mid - 1;
      }
    }
    LineNoMonotone(base, starts[low], pos);
    LineNoMonotone(base, pos, |base|);
    if low + 1 < |starts| {
      LineNoMonotone(base, pos, starts[low + 1] - 1);
    }
  }

  // ----- classifyEdits -----

  /** Base lines a side did not leave byte-identical, and the line numbers a whole-line
      insertion sits immediately before. */
  datatype Edits = Edits(lines: set<nat>, boundaries: set<nat>)

  predicate WholeLineInsertion(c: Change, base: string) {
    c.from == c.to && IsLineStart(base, c.from) && EndsWithNewline(c.ins)
  }

  predicate EndsCleanly(c: Change, base: string) {
    IsLineStart(base, c.to) && (c.ins == "" || EndsWithNewline(c.ins))
  }

  /** The lines `lo`, `lo + 1`, … up to but not including `end`. */
  function LineRange(lo: nat, end: nat): (lines: set<nat>)
    ensures forall n: nat :: n in lines <==> lo <= n < end
  {
    if lo >= end then {} else LineRange(lo, end - 1) + {end - 1}
  }

  function LinesOfChange(c: Change, base: string): set<nat>
    requires c.from <= c.to <= |base|
  {
    if c.from == c.to then
      if WholeLineInsertion(c, base) then {} else {LineNo(base, c.from)}
    else
      LineRange(LineNo(base, c.from), LineNo(base, c.to - 1) + 1) +
      if EndsCleanly(c, base) then {} else {LineNo(base, c.to)}
  }

  function BoundariesOfChange(c: Change, base: string): set<nat>
    requires c.from <= c.to <= |base|
  {
    if WholeLineInsertion(c, base) then {LineNo(base, c.from)} else {}
  }

  ghost predicate InText(cs: seq<Change>, n: nat) {
    forall i :: 0 <= i < |cs| ==> cs[i].from <= cs[i].to <= n
  }

  ghost function Claims(cs: seq<Change>, base: string): Edits
    requires InText(cs, |base|)
  {
    Edits(set i, n | 0 <= i < |cs| && n in LinesOfChange(cs[i], base) :: n,
          set i, n | 0 <= i < |cs| && n in BoundariesOfChange(cs[i], base) :: n)
  }

  lemma ClaimsStep(cs: seq<Change>, base: string, k: nat)
    requires k < |cs| && InText(cs, |base|)
    ensures Claims(cs[..k + 1], base).lines == Claims(cs[..k], base).lines + LinesOfChange(cs[k], base)
    ensures Claims(cs[..k + 1], base).boundaries == Claims(cs[..k], base).boundaries + BoundariesOfChange(cs[k], base)
  {
    hide LinesOfChange, BoundariesOfChange;
    var front, longer := cs[..k], cs[..k + 1];
    assert longer[k] == cs[k] && forall i :: 0 <= i < k ==> longer[i] == front[i];
    forall n
      ensures n in Claims(longer, base).lines <==> n in Claims(front, base).lines || n in LinesOfChange(cs[k], base)
    {
    }
    forall n
      ensures n in Claims(longer, base).boundaries <==>
        n in Claims(front, base).boundaries || n in BoundariesOfChange(cs[k], base)
    {
    }
  }

  method ClassifyChange(c: Change, base: string, starts: seq<nat>) returns (lines: set<nat>, boundaries: set<nat>)
    requires IsLineIndex(starts, base)
    requires c.from <= c.to <= |base|
    ensures lines == LinesOfChange(c, base)
    ensures boundaries == BoundariesOfChange(c, base)
  {
    lines, boundaries := {}, {};
    if c.from == c.to {
      var at := LineAt(base, starts, c.from);
      if c.from in starts && EndsWithNewline(c.ins) {
        boundaries := {at};
      } else {
        lines := {at};
      }
      return;
    }
    var line := LineAt(base, starts, c.from);
    var last := LineAt(base, starts, c.to - 1);
    LineNoMonotone(base, c.from, c.to - 1);
    ghost var first := line;
    while line <= last
      invariant first <= line <= last + 1
      invariant lines == LineRange(first, line)
    {
      lines := lines + {line};
      line := line + 1;
    }
    if !(c.to in starts && (c.ins == "" || EndsWithNewline(c.ins))) {
      var after := LineAt(base, starts, c.to);
      lines := lines + {after};
    }
  }

  method ClassifyEdits(changes: seq<Change>, base: string, starts: seq<nat>) returns (edits: Edits)
    requires IsLineIndex(starts, base)
    requires InText(changes, |base|)
    ensures edits == Claims(changes, base)
  {
    var lines, boundaries: set<nat> := {}, {};
    for i := 0 to |changes|
      invariant lines == Claims(changes[..i], base).lines
      invariant boundaries == Claims(changes[..i], base).boundaries
    {
      ClaimsStep(changes, base, i);
      var ls, bs := ClassifyChange(changes[i], base, starts);
      lines := lines + ls;
      boundaries := boundaries + bs;
    }
    assert changes[..|changes|] == changes;
    edits := Edits(lines, boundaries);
  }

  // ----- claimedChunks -----

  datatype Chunk = Run(start: nat) | Gap(boundary: nat)

  function RunStart(line: nat, nonSync: set<nat>): (start: nat)
    ensures start <= line
    ensures forall n :: start <= n < line ==> n in nonSync
    ensures start > 0 ==> start - 1 !in nonSync
  {
    if line > 0 && line - 1 in nonSync then RunStart(line - 1, nonSync) else line
  }

  method FindRunStart(line: nat, nonSync: set<nat>) returns (start: nat)
    ensures start == RunStart(line, nonSync)
  {
    start := line;
    while start > 0 && start - 1 in nonSync
      invariant RunStart(start, nonSync) == RunStart(line, nonSync)
    {
      start := start - 1;
    }
  }

  function ChunkOfLine(line: nat, nonSync: set<nat>): Chunk {
    Run(RunStart(line, nonSync))
  }

  function ChunkOfBoundary(b: nat, nonSync: set<nat>): Chunk {
    if b > 0 && b - 1 in nonSync then ChunkOfLine(b - 1, nonSync)
    else if b in nonSync then ChunkOfLine(b, nonSync)
    else Gap(b)
  }

  method ClaimedChunks(edits: Edits, nonSync: set<nat>) returns (chunks: set<Chunk>)
    ensures forall k :: k in chunks <==> exists x :: x in Sites(edits) && k == ChunkOf(x, nonSync)
  {
    chunks := {};
    var todo := edits.lines;
    while todo != {}
      invariant todo <= edits.lines
      invariant forall k :: k in chunks <==> exists n :: n in edits.lines - todo && k == ChunkOfLine(n, nonSync)
    {
      var line :| line in todo;
      var start := FindRunStart(line, nonSync);
      ghost var before, left := chunks, todo;
      chunks := chunks + {Run(start)};
      todo := todo - {line};
      assert edits.lines - todo == (edits.lines - left) + {line};
    }
    assert edits.lines - todo == edits.lines;
    ghost var runs := chunks;
    todo := edits.boundaries;
    while todo != {}
      invariant todo <= edits.boundaries
      invariant forall k :: k in chunks <==>
        k in runs || exists b :: b in edits.boundaries - todo && k == ChunkOfBoundary(b, nonSync)
    {
      var b :| b in todo;
      ghost var left := todo;
      var k: Chunk;
      if b > 0 && b - 1 in nonSync {
        var start := FindRunStart(b - 1, nonSync);
        k := Run(start);
      } else if b in nonSync {
        var start := FindRunStart(b, nonSync);
        k := Run(start);
      } else {
        k := Gap(b);
      }
      assert k == ChunkOfBoundary(b, nonSync);
      chunks := chunks + {k};
      todo := todo - {b};
      assert edits.boundaries - todo == (edits.boundaries - left) + {b};
    }
    assert edits.boundaries - todo == edits.boundaries;
    forall k
      ensures k in chunks <==> exists x :: x in Sites(edits) && k == ChunkOf(x, nonSync)
    {
      SitesByKind(edits, nonSync, k);
    }
  }

  lemma SitesByKind(edits: Edits, nonSync: set<nat>, k: Chunk)
    ensures (exists x :: x in Sites(edits) && k == ChunkOf(x, nonSync)) <==>
      (exists n :: n in edits.lines && k == ChunkOfLine(n, nonSync)) ||
      (exists b :: b in edits.boundaries && k == ChunkOfBoundary(b, nonSync))
  {
    if n :| n in edits.lines && k == ChunkOfLine(n, nonSync) {
      assert OnLine(n) in Sites(edits) && k == ChunkOf(OnLine(n), nonSync);
    }
    if b :| b in edits.boundaries && k == ChunkOfBoundary(b, nonSync) {
      assert InGap(b) in Sites(edits) && k == ChunkOf(InGap(b), nonSync);
    }
  }

  // ----- collidesInSameChunk -----

  /** Where an edit sits: on a line, or in the gap in front of one. */
  datatype Site = OnLine(line: nat) | InGap(before: nat)

  ghost function Sites(e: Edits): set<Site> {
    (set n | n in e.lines :: OnLine(n)) + (set b | b in e.boundaries :: InGap(b))
  }

  /** The first line at or behind a site, and the last one at or in front of it. */
  function FirstFrom(s: Site): int {
    match s case OnLine(n) => n case InGap(b) => b
  }

  function LastUpTo(s: Site): int {
    match s case OnLine(n) => n case InGap(b) => b - 1
  }

  /** diff3's chunks: two sites are in one chunk when no line that both sides left alone
      lies between them. */
  ghost predicate Linked(x: Site, y: Site, nonSync: set<nat>) {
    && (forall n: nat :: FirstFrom(x) <= n <= LastUpTo(y) ==> n in nonSync)
    && (forall n: nat :: FirstFrom(y) <= n <= LastUpTo(x) ==> n in nonSync)
  }

  ghost predicate Collide(external: seq<Change>, local: seq<Change>, base: string)
    requires InText(external, |base|) && InText(local, |base|)
  {
    var e, l := Claims(external, base), Claims(local, base);
    exists x, y :: x in Sites(e) && y in Sites(l) && Linked(x, y, e.lines + l.lines)
  }

  lemma CollideSymmetric(external: seq<Change>, local: seq<Change>, base: string)
    requires InText(external, |base|) && InText(local, |base|)
    ensures Collide(external, local, base) == Collide(local, external, base)
  {
    var e, l := Claims(external, base), Claims(local, base);
    assert e.lines + l.lines == l.lines + e.lines;
    forall x, y
      ensures Linked(x, y, e.lines + l.lines) == Linked(y, x, e.lines + l.lines)
    {
    }
  }

  function ChunkOf(site: Site, nonSync: set<nat>): Chunk {
    match site
    case OnLine(n) => ChunkOfLine(n, nonSync)
    case InGap(b) => ChunkOfBoundary(b, nonSync)
  }

  /** All lines from `a` to `b`, whichever comes first. */
  ghost predicate AllBetween(a: nat, b: nat, nonSync: set<nat>) {
    && (forall n: nat :: a <= n <= b ==> n in nonSync)
    && (forall n: nat :: b <= n <= a ==> n in nonSync)
  }

  lemma RunIffLinked(m: nat, n: nat, nonSync: set<nat>)
    requires m in nonSync && n in nonSync
    ensures RunStart(m, nonSync) == RunStart(n, nonSync) <==> AllBetween(m, n, nonSync)
  {
  }

  /** The line a site's chunk runs through, when it has one. */
  function Anchor(site: Site, nonSync: set<nat>): nat {
    match site
    case OnLine(n) => n
    case InGap(b) => if b > 0 && b - 1 in nonSync then b - 1 else b
  }

  lemma LinkedThroughAnchors(x: Site, y: Site, nonSync: set<nat>)
    requires Anchor(x, nonSync) in nonSync && Anchor(y, nonSync) in nonSync
    ensures Linked(x, y, nonSync) <==> AllBetween(Anchor(x, nonSync), Anchor(y, nonSync), nonSync)
  {
  }

  /** The chunk names that `claimedChunks` hands out are exactly diff3's chunks. */
  lemma ChunkIffLinked(x: Site, y: Site, nonSync: set<nat>)
    requires x.OnLine? ==> x.line in nonSync
    requires y.OnLine? ==> y.line in nonSync
    ensures ChunkOf(x, nonSync) == ChunkOf(y, nonSync) <==> Linked(x, y, nonSync)
  {
    hide Linked, RunStart, AllBetween;
    var a, b := Anchor(x, nonSync), Anchor(y, nonSync);
    if a in nonSync && b in nonSync {
      LinkedThroughAnchors(x, y, nonSync);
      RunIffLinked(a, b, nonSync);
    } else if a !in nonSync {
      GapStandsAlone(x, y, nonSync);
    } else {
      GapStandsAlone(y, x, nonSync);
      LinkedSymmetric(x, y, nonSync);
    }
  }

  lemma LinkedSymmetric(x: Site, y: Site, nonSync: set<nat>)
    ensures Linked(x, y, nonSync) == Linked(y, x, nonSync)
  {
  }

  lemma GapStandsAlone(x: Site, y: Site, nonSync: set<nat>)
    requires x.InGap? && x.before !in nonSync && (x.before > 0 ==> x.before - 1 !in nonSync)
    requires y.OnLine? ==> y.line in nonSync
    ensures Linked(x, y, nonSync) <==> x == y
    ensures ChunkOf(x, nonSync) == ChunkOf(y, nonSync) <==> x == y
  {
  }

  lemma CollideIffShared(e: Edits, l: Edits, nonSync: set<nat>, es: set<Chunk>, ls: set<Chunk>)
    requires nonSync == e.lines + l.lines
    requires forall k :: k in es <==> exists x :: x in Sites(e) && k == ChunkOf(x, nonSync)
    requires forall k :: k in ls <==> exists y :: y in Sites(l) && k == ChunkOf(y, nonSync)
    ensures (exists k :: k in ls && k in es) <==>
      exists x, y :: x in Sites(e) && y in Sites(l) && Linked(x, y, nonSync)
  {
    if k :| k in ls && k in es {
      var x :| x in Sites(e) && k == ChunkOf(x, nonSync);
      var y :| y in Sites(l) && k == ChunkOf(y, nonSync);
      ChunkIffLinked(x, y, nonSync);
    }
    if x, y :| x in Sites(e) && y in Sites(l) && Linked(x, y, nonSync) {
      ChunkIffLinked(x, y, nonSync);
      assert ChunkOf(x, nonSync) in ls && ChunkOf(x, nonSync) in es;
    }
  }

  method CollidesInSameChunk(external: seq<Change>, local: seq<Change>, base: string) returns (collides: bool)
    requires InText(external, |base|) && InText(local, |base|)
    ensures collides <==> Collide(external, local, base)
  {
    var starts := LineStarts(base);
    var e := ClassifyEdits(external, base, starts);
    var l := ClassifyEdits(local, base, starts);
    var nonSync := e.lines + l.lines;
    var externalChunks := ClaimedChunks(e, nonSync);
    var localChunks := ClaimedChunks(l, nonSync);
    CollideIffShared(e, l, nonSync, externalChunks, localChunks);
    var todo := localChunks;
    while todo != {}
      invariant todo <= localChunks
      invariant forall k :: k in localChunks - todo ==> k !in externalChunks
    {
      var chunk :| chunk in todo;
      if chunk in externalChunks {
        return true;
      }
      todo := todo - {chunk};
    }
    return false;
  }

  // ----- No collision: the two sides never overlap or touch -----

  /** A change claims a site right at every position it reaches. */
  lemma SiteNear(cs: seq<Change>, i: nat, p: nat, base: string) returns (s: Site)
    requires InText(cs, |base|) && i < |cs| && cs[i].from <= p <= cs[i].to
    ensures s in Sites(Claims(cs, base))
    ensures var n := LineNo(base, p); s == OnLine(n) || s == InGap(n) || (n > 0 && s == OnLine(n - 1))
    ensures LineNo(base, cs[i].from) <= FirstFrom(s)
  {
    var c := cs[i];
    var n := LineNo(base, p);
    LineNoMonotone(base, c.from, p);
    if c.from == c.to {
      s := if WholeLineInsertion(c, base) then InGap(n) else OnLine(n);
      assert s.InGap? ==> s.before in BoundariesOfChange(c, base);
      assert s.OnLine? ==> s.line in LinesOfChange(c, base);
    } else if p < c.to {
      LineNoMonotone(base, p, c.to - 1);
      s := OnLine(n);
      assert n in LinesOfChange(c, base);
    } else if EndsCleanly(c, base) {
      LineNoMonotone(base, c.from, c.to - 1);
      s := OnLine(n - 1);
      assert n - 1 in LinesOfChange(c, base);
    } else {
      s := OnLine(n);
      assert n in LinesOfChange(c, base);
    }
  }

  lemma NoCollisionKeepsApart(external: seq<Change>, local: seq<Change>, base: string)
    requires InText(external, |base|) && InText(local, |base|)
    requires !Collide(external, local, base)
    ensures Apart(external, local)
  {
    forall i, j | 0 <= i < |external| && 0 <= j < |local|
      ensures external[i].to < local[j].from || local[j].to < external[i].from
    {
      var x, y := external[i], local[j];
      if !(x.to < y.from || y.to < x.from) {
        var p := if x.from < y.from then y.from else x.from;
        var s := SiteNear(external, i, p, base);
        var s' := SiteNear(local, j, p, base);
        NearbySitesLinked(Claims(external, base), Claims(local, base), s, s', LineNo(base, p));
        assert false;
      }
    }
  }

  lemma NearbySitesLinked(e: Edits, l: Edits, s: Site, s': Site, n: nat)
    requires s in Sites(e) && s' in Sites(l)
    requires s == OnLine(n) || s == InGap(n) || (n > 0 && s == OnLine(n - 1))
    requires s' == OnLine(n) || s' == InGap(n) || (n > 0 && s' == OnLine(n - 1))
    ensures Linked(s, s', e.lines + l.lines)
  {
  }

  // ----- Lines a side did not claim survive -----

  /** A deletion that starts in the middle of a line and ends at a line start: what follows
      is joined onto what is left in front of it, yet `classifyEdits` counts it as clean. */
  predicate JoinsLines(c: Change, base: string) {
    c.from < c.to <= |base| && c.ins == "" && !IsLineStart(base, c.from) && IsLineStart(base, c.to)
  }

  /** The changes in front of position `p`. */
  function Upto(cs: seq<Change>, p: nat): seq<Change> {
    if cs != [] && cs[0].to <= p then [cs[0]] + Upto(cs[1..], p) else []
  }

  ghost predicate Unclaimed(cs: seq<Change>, base: string, s: nat)
    requires InText(cs, |base|)
  {
    IsLineStart(base, s) && LineNo(base, s) !in Claims(cs, base).lines
  }

  /** `Upto(cs, s)` is the front part of `cs`, and the rest lies behind `e`. */
  ghost predicate SplitsAt(cs: seq<Change>, s: nat, e: nat) {
    var k := |Upto(cs, s)|;
    && k <= |cs| && Upto(cs, s) == cs[..k]
    && (forall i :: 0 <= i < k ==> cs[i].to <= s)
    && (forall i :: k <= i < |cs| ==> e < cs[i].from)
  }

  lemma {:induction false} UptoSplits(cs: seq<Change>, s: nat, e: nat)
    requires forall i, j :: 0 <= i < j < |cs| ==> cs[i].to < cs[j].from
    requires s <= e && forall i :: 0 <= i < |cs| ==> cs[i].from <= cs[i].to && (cs[i].to <= s || e < cs[i].from)
    ensures SplitsAt(cs, s, e)
    decreases |cs|
  {
    if cs != [] {
      if cs[0].to <= s {
        var rest := cs[1..];
        UptoSplits(rest, s, e);
        var k := |Upto(rest, s)|;
        assert cs[..k + 1] == [cs[0]] + rest[..k];
        forall i | k + 1 <= i < |cs|
          ensures e < cs[i].from
        {
          assert rest[i - 1] == cs[i];
        }
      } else {
        assert forall i :: 0 < i < |cs| ==> cs[0].to < cs[i].from;
      }
    }
  }

  /** A change that reaches into a line claims it. */
  lemma ReachingClaims(c: Change, base: string, s: nat)
    requires c.from <= c.to <= |base| && IsLineStart(base, s)
    requires s < c.to && c.from <= LineEnd(base, s)
    ensures LineNo(base, s) in LinesOfChange(c, base)
  {
    var e := LineEnd(base, s);
    LineNoSame(base, s, e);
    if c.from == c.to {
      assert base[s..e][c.from - 1 - s] == base[c.from - 1];
      NoNewlineWithin(base, s, c.from, e);
      LineNoSame(base, s, c.from);
    } else {
      LineNoMonotone(base, c.from, e);
      LineNoMonotone(base, s, c.to - 1);
    }
  }

  lemma UnclaimedUntouched(cs: seq<Change>, base: string, s: nat, i: nat)
    requires InText(cs, |base|) && Unclaimed(cs, base, s) && i < |cs|
    ensures cs[i].to <= s || LineEnd(base, s) < cs[i].from
  {
    if s < cs[i].to && cs[i].from <= LineEnd(base, s) {
      ReachingClaims(cs[i], base, s);
      assert false;
    }
  }

  /** Where the line starting at `s` begins in the edited text. */
  ghost function Image(cs: seq<Change>, base: string, s: nat): nat
    requires s <= |base| && Ordered(Upto(cs, s), 0, s)
  {
    |Apply(base[..s], Upto(cs, s))|
  }

  /** The line starting at `s` is a whole line of the edited text, at its image. */
  ghost predicate StaysWhole(cs: seq<Change>, base: string, s: nat)
    requires s <= |base| && Ordered(cs, 0, |base|) && Ordered(Upto(cs, s), 0, s)
  {
    var edited, at := Apply(base, cs), Image(cs, base, s);
    IsLineStart(edited, at) && edited[at..LineEnd(edited, at)] == base[s..LineEnd(base, s)]
  }

  lemma UnclaimedSplits(cs: seq<Change>, base: string, s: nat)
    requires Normal(cs, |base|) && Unclaimed(cs, base, s)
    ensures SplitsAt(cs, s, LineEnd(base, s))
  {
    forall i | 0 <= i < |cs|
      ensures cs[i].to <= s || LineEnd(base, s) < cs[i].from
    {
      UnclaimedUntouched(cs, base, s, i);
    }
    UptoSplits(cs, s, LineEnd(base, s));
  }

  lemma NormalSlice(cs: seq<Change>, n: nat, j: nat, k: nat, m: nat)
    requires Normal(cs, n) && j <= k <= |cs|
    requires forall i :: j <= i < k ==> cs[i].to <= m
    ensures Normal(cs[j..k], m)
  {
    var mid := cs[j..k];
    assert |mid| == k - j && forall i :: 0 <= i < |mid| ==> mid[i] == cs[j + i];
  }

  lemma NormalParts(cs: seq<Change>, n: nat, k: nat, m: nat)
    requires Normal(cs, n) && k <= |cs|
    requires forall i :: 0 <= i < k ==> cs[i].to <= m
    ensures Normal(cs[..k], m) && Normal(cs[k..], n)
  {
    assert cs[..k] == cs[0..k] && cs[k..] == cs[k..|cs|];
    NormalSlice(cs, n, 0, k, m);
    NormalSlice(cs, n, k, |cs|, n);
  }

  lemma UnclaimedOrdered(cs: seq<Change>, base: string, s: nat)
    requires Normal(cs, |base|) && Unclaimed(cs, base, s)
    ensures SplitsAt(cs, s, LineEnd(base, s))
    ensures Ordered(Upto(cs, s), 0, s) && Ordered(cs, 0, |base|)
  {
    UnclaimedSplits(cs, base, s);
    NormalParts(cs, |base|, |Upto(cs, s)|, s);
    NormalIsOrdered(Upto(cs, s), 0, s);
    NormalIsOrdered(cs, 0, |base|);
  }

  /** From `s` on, with all changes behind the newline at `e`, a text edits to `t[s..e + 1]`
      followed by the rest. */
  lemma KeptFrom(t: string, s: nat, e: nat, b: seq<Change>)
    requires s <= e < |t| && Normal(b, |t|) && (b != [] ==> e < b[0].from)
    ensures Ordered(b, s, |t|) && Ordered(b, e + 1, |t|)
    ensures ApplyFrom(t, s, b) == t[s..e] + ([t[e]] + ApplyFrom(t, e + 1, b))
  {
    NormalIsOrdered(b, e + 1, |t|);
    SkipTo(t, s, e + 1, b);
    assert t[s..e + 1] == t[s..e] + [t[e]];
    Associate(t[s..e], [t[e]], ApplyFrom(t, e + 1, b));
  }

  lemma EditedAround(t: string, a: seq<Change>, s: nat, e: nat, b: seq<Change>)
    requires s <= e < |t| && Ordered(a, 0, s)
    requires Normal(b, |t|) && (b != [] ==> e < b[0].from)
    ensures Ordered(a + b, 0, |t|) && Ordered(b, e + 1, |t|)
    ensures Apply(t, a + b) == Apply(t[..s], a) + (t[s..e] + ([t[e]] + ApplyFrom(t, e + 1, b)))
  {
    KeptFrom(t, s, e, b);
    ApplySplit(t, 0, a, s, b);
  }

  /** What the split of `cs` at an unclaimed line leaves behind it, up to `m`. */
  lemma BehindLine(cs: seq<Change>, n: nat, s: nat, e: nat, k: nat, m: nat)
    requires Normal(cs, n) && SplitsAt(cs, s, e) && |Upto(cs, s)| <= k <= |cs|
    requires forall i :: 0 <= i < k ==> cs[i].to <= m
    ensures var mid := cs[|Upto(cs, s)|..k];
      Normal(mid, m) && (mid != [] ==> e < mid[0].from) && cs[..k] == Upto(cs, s) + mid
  {
    hide Normal, Upto;
    var j := |Upto(cs, s)|;
    NormalSlice(cs, n, j, k, m);
    CutAt(cs, j, k);
    assert j < k ==> cs[j..k][0] == cs[j];
  }

  lemma RestBehind(cs: seq<Change>, n: nat, s: nat, e: nat) returns (b: seq<Change>)
    requires Normal(cs, n) && SplitsAt(cs, s, e)
    ensures cs == Upto(cs, s) + b
    ensures Normal(b, n) && (b != [] ==> e < b[0].from <= n)
  {
    hide Upto;
    var k := |Upto(cs, s)|;
    b := cs[k..|cs|];
    BehindLine(cs, n, s, e, |cs|, n);
    assert cs[..|cs|] == cs;
  }

  lemma UnclaimedParts(cs: seq<Change>, base: string, s: nat) returns (b: seq<Change>)
    requires Normal(cs, |base|) && Unclaimed(cs, base, s)
    ensures cs == Upto(cs, s) + b && Ordered(Upto(cs, s), 0, s)
    ensures Normal(b, |base|) && (b != [] ==> LineEnd(base, s) < b[0].from)
    ensures LineEnd(base, s) == |base| ==> b == []
    ensures Ordered(cs, 0, |base|)
  {
    hide Normal, Ordered, SplitsAt, Upto, LineEnd, Claims;
    UnclaimedOrdered(cs, base, s);
    b := RestBehind(cs, |base|, s, LineEnd(base, s));
  }

  lemma EditedLastLine(t: string, a: seq<Change>, s: nat)
    requires s <= |t| && Ordered(a, 0, s)
    ensures Ordered(a, 0, |t|)
    ensures Apply(t, a) == Apply(t[..s], a) + t[s..]
  {
    ApplyGrow(t, a, s, |t|);
    assert t[..|t|] == t;
  }

  lemma EditedFrom(t: string, a: seq<Change>, s: nat, e: nat, b: seq<Change>) returns (rest: string)
    requires s <= e <= |t| && Ordered(a, 0, s)
    requires if e == |t| then b == [] else Normal(b, |t|) && (b != [] ==> e < b[0].from)
    ensures Ordered(a + b, 0, |t|)
    ensures Apply(t, a + b) == Apply(t[..s], a) + (t[s..e] + rest)
    ensures if e == |t| then rest == "" else rest != "" && rest[0] == t[e]
  {
    if e == |t| {
      EditedLastLine(t, a, s);
      rest := "";
      assert a + b == a;
      assert t[s..] == t[s..e] + rest;
    } else {
      EditedAround(t, a, s, e, b);
      rest := [t[e]] + ApplyFrom(t, e + 1, b);
    }
  }

  /** The edited text around an unclaimed line: the line itself is there, and a newline or
      the end of the text follows. */
  lemma LineInEdited(cs: seq<Change>, base: string, s: nat) returns (rest: string)
    requires Normal(cs, |base|) && Unclaimed(cs, base, s)
    ensures Ordered(Upto(cs, s), 0, s) && Ordered(cs, 0, |base|)
    ensures Apply(base, cs) == Apply(base[..s], Upto(cs, s)) + (base[s..LineEnd(base, s)] + rest)
    ensures if LineEnd(base, s) == |base| then rest == "" else rest != "" && rest[0] == '\n'
  {
    var b := UnclaimedParts(cs, base, s);
    rest := EditedFrom(base, Upto(cs, s), s, LineEnd(base, s), b);
  }

  lemma LineAtImage(cs: seq<Change>, base: string, s: nat)
    requires Normal(cs, |base|) && Unclaimed(cs, base, s)
    ensures Ordered(Upto(cs, s), 0, s) && Ordered(cs, 0, |base|)
    ensures var edited, at := Apply(base, cs), Image(cs, base, s);
      at <= |edited| && edited[..at] == Apply(base[..s], Upto(cs, s)) &&
      edited[at..LineEnd(edited, at)] == base[s..LineEnd(base, s)] &&
      (LineEnd(base, s) < |base| ==> LineEnd(edited, at) < |edited|)
  {
    var rest := LineInEdited(cs, base, s);
    var edited, at, line := Apply(base, cs), Image(cs, base, s), base[s..LineEnd(base, s)];
    assert edited[..at] == Apply(base[..s], Upto(cs, s));
    assert edited[at..at + |line|] == line;
    assert rest != "" ==> edited[at + |line|] == rest[0];
    LineEndUnique(edited, at, at + |line|);
  }

  predicate BeginsLine(front: string) {
    front == "" || EndsWithNewline(front)
  }

  lemma BeginsAt(t: string, at: nat)
    requires at <= |t|
    ensures BeginsLine(t[..at]) <==> IsLineStart(t, at)
  {
    assert at > 0 ==> t[..at][at - 1] == t[at - 1];
  }

  /** What stands right in front of an unclaimed line in the edited text. */
  lemma FrontOfLine(cs: seq<Change>, base: string, s: nat)
    requires Normal(cs, |base|) && Unclaimed(cs, base, s)
    ensures Ordered(Upto(cs, s), 0, s)
    ensures BeginsLine(Apply(base[..s], Upto(cs, s))) <==>
      forall i :: 0 <= i < |cs| && cs[i].to == s ==> !JoinsLines(cs[i], base)
  {
    hide ApplyFrom, Ordered, LinesOfChange, Upto;
    UnclaimedOrdered(cs, base, s);
    var a := Upto(cs, s);
    if a == [] {
      NothingUpto(base, s);
      assert forall i :: 0 <= i < |cs| ==> cs[i].to != s;
    } else {
      var k := |a| - 1;
      var c, init := cs[k], cs[..k];
      assert a == init + [c];
      OnlyLastEndsAt(cs, base, s, k);
      if c.to < s {
        FrontGap(init, c, base, s);
      } else {
        assert LineNo(base, s) !in LinesOfChange(c, base);
        if c.ins == "" {
          FrontDeletion(init, c, base);
        } else {
          FrontInsertion(init, c, base);
        }
      }
    }
  }

  lemma NothingUpto(base: string, s: nat)
    requires s <= |base| && IsLineStart(base, s)
    ensures Ordered([], 0, s) && BeginsLine(Apply(base[..s], []))
  {
  }

  lemma OnlyLastEndsAt(cs: seq<Change>, base: string, s: nat, k: nat)
    requires Normal(cs, |base|) && k < |cs| && cs[k].to <= s
    requires forall i :: k < i < |cs| ==> s < cs[i].from
    ensures forall i :: 0 <= i < |cs| && i != k ==> cs[i].to != s
    ensures Ordered(cs[..k], 0, cs[k].from)
    ensures cs[k].from > 0 ==> Ordered(cs[..k], 0, cs[k].from - 1)
    ensures cs[k].from == 0 ==> k == 0
  {
    var from := cs[k].from;
    assert forall i :: 0 <= i < k ==> cs[i].to < from;
    NormalParts(cs, |base|, k, from);
    NormalIsOrdered(cs[..k], 0, from);
    if from > 0 {
      NormalParts(cs, |base|, k, from - 1);
      NormalIsOrdered(cs[..k], 0, from - 1);
    }
  }

  lemma FrontGap(init: seq<Change>, c: Change, base: string, s: nat)
    requires Ordered(init, 0, c.from) && c.from <= c.to < s <= |base| && IsLineStart(base, s)
    ensures Ordered(init + [c], 0, s)
    ensures BeginsLine(Apply(base[..s], init + [c]))
  {
    ApplyAppend(base, init, c);
    ApplyGrow(base, init + [c], c.to, s);
    assert EndsWithNewline(base[c.to..s]);
  }

  lemma FrontInsertion(init: seq<Change>, c: Change, base: string)
    requires Ordered(init, 0, c.from) && c.from <= c.to <= |base| && c.ins != "" && IsLineStart(base, c.to)
    requires LineNo(base, c.to) !in LinesOfChange(c, base)
    ensures Ordered(init + [c], 0, c.to)
    ensures BeginsLine(Apply(base[..c.to], init + [c]))
  {
    ApplyAppend(base, init, c);
    assert EndsWithNewline(c.ins);
  }

  lemma FrontDeletion(init: seq<Change>, c: Change, base: string)
    requires Ordered(init, 0, c.from) && c.from < c.to <= |base| && c.ins == "" && IsLineStart(base, c.to)
    requires if c.from == 0 then init == [] else Ordered(init, 0, c.from - 1)
    ensures Ordered(init + [c], 0, c.to)
    ensures BeginsLine(Apply(base[..c.to], init + [c])) <==> IsLineStart(base, c.from)
  {
    ApplyAppend(base, init, c);
    if c.from > 0 {
      ApplyGrow(base, init, c.from - 1, c.from);
      assert base[c.from - 1..c.from] == [base[c.from - 1]];
      assert Apply(base[..c.from], init) + c.ins == Apply(base[..c.from], init);
    }
  }

  /** The exact condition under which a line nobody claims comes through as a whole line. */
  lemma UnclaimedLineSurvivesIff(cs: seq<Change>, base: string, s: nat)
    requires Normal(cs, |base|) && Unclaimed(cs, base, s)
    ensures Ordered(cs, 0, |base|) && Ordered(Upto(cs, s), 0, s)
    ensures StaysWhole(cs, base, s) <==> forall i :: 0 <= i < |cs| && cs[i].to == s ==> !JoinsLines(cs[i], base)
  {
    hide Ordered, Unclaimed, ApplyFrom, Upto, LineEnd, JoinsLines;
    LineAtImage(cs, base, s);
    FrontOfLine(cs, base, s);
    BeginsAt(Apply(base, cs), Image(cs, base, s));
  }

  // ----- What a change claims, exactly -----

  /** Line numbers and positions order places alike. */
  lemma LinePlace(base: string, s: nat, p: nat)
    requires IsLineStart(base, s) && p <= |base|
    ensures LineNo(base, p) < LineNo(base, s) <==> p < s
    ensures LineNo(base, s) < LineNo(base, p) <==> LineEnd(base, s) < p
  {
    if p < s {
      LineNoMonotone(base, p, s);
    } else if p <= LineEnd(base, s) {
      assert base[s..LineEnd(base, s)][..p - s] == base[s..p];
      LineNoSame(base, s, p);
    } else {
      LineNoMonotone(base, s, p);
    }
  }

  /** The change takes or adds text on the line that starts at `s`, up to the newline that ends it. */
  predicate TouchesLine(c: Change, base: string, s: nat)
    requires s <= |base|
  {
    s < c.to && c.from <= LineEnd(base, s)
  }

  /** The edited text around the line at which a change ends. */
  lemma OneChange(c: Change, base: string)
    requires c.from <= c.to <= |base|
    ensures Ordered([c], 0, |base|) && Upto([c], c.to) == [c] && Ordered([c], 0, c.to)
    ensures Apply(base, [c]) == base[..c.from] + c.ins + base[c.to..]
    ensures Apply(base[..c.to], [c]) == base[..c.from] + c.ins
  {
    hide ApplyFrom;
    UptoOne(c);
    NothingChanged(base[..c.from]);
    ApplyAppend(base, [], c);
    assert [] + [c] == [c];
    EditedLastLine(base, [c], c.to);
  }

  lemma UptoOne(c: Change)
    ensures Upto([c], c.to) == [c]
  {
  }

  lemma NothingChanged(t: string)
    ensures Apply(t, []) == t
  {
  }

  /** A line keeps its text wherever it is moved. */
  lemma LineMoved(base: string, s: nat, edited: string, at: nat)
    requires s <= |base| && at <= |edited| && base[s..] == edited[at..]
    ensures edited[at..LineEnd(edited, at)] == base[s..LineEnd(base, s)]
  {
    hide LineEnd;
    var e := LineEnd(base, s);
    SameTail(base, s, edited, at, e - s);
    FirstOfTail(base, e, edited, at + (e - s));
    LineEndUnique(edited, at, at + (e - s));
  }

  lemma FirstOfTail(t: string, p: nat, u: string, q: nat)
    requires p <= |t| && q <= |u| && t[p..] == u[q..]
    ensures if p == |t| then q == |u| else q < |u| && t[p] == u[q]
  {
    assert p < |t| ==> t[p..][0] == t[p];
    assert q < |u| ==> u[q..][0] == u[q];
    assert |t| - p == |u| - q;
  }

  lemma EndWholeIff(c: Change, base: string)
    requires c.from <= c.to <= |base|
    ensures Ordered([c], 0, |base|) && Ordered(Upto([c], c.to), 0, c.to)
    ensures StaysWhole([c], base, c.to) <==> BeginsLine(base[..c.from] + c.ins)
  {
    hide LineEnd, IsLineStart, ApplyFrom, Upto, Ordered;
    OneChange(c, base);
    var front := base[..c.from] + c.ins;
    var edited := front + base[c.to..];
    assert edited[..|front|] == front && edited[|front|..] == base[c.to..];
    BeginsAt(edited, |front|);
    LineMoved(base, c.to, edited, |front|);
  }

  lemma BeginsAfterIff(c: Change, base: string)
    requires c.from <= c.to <= |base| && !Noop(c)
    ensures BeginsLine(base[..c.from] + c.ins) <==>
      if c.ins == "" then IsLineStart(base, c.from) else EndsWithNewline(c.ins)
  {
    var front := base[..c.from] + c.ins;
    if c.ins == "" {
      assert front == base[..c.from];
      BeginsAt(base, c.from);
    } else {
      assert front[|front| - 1] == c.ins[|c.ins| - 1];
    }
  }

  /** At the line start where a change ends, its line is claimed exactly if the change destroys it in
      a way that `classifyEdits` sees. */
  lemma EndClaimedIff(c: Change, base: string)
    requires c.from <= c.to <= |base| && !Noop(c) && IsLineStart(base, c.to)
    ensures Ordered([c], 0, |base|) && Ordered(Upto([c], c.to), 0, c.to)
    ensures LineNo(base, c.to) in LinesOfChange(c, base) <==>
      !StaysWhole([c], base, c.to) && !JoinsLines(c, base)
  {
    hide StaysWhole, Ordered, Upto;
    EndWholeIff(c, base);
    BeginsAfterIff(c, base);
    if c.from < c.to {
      LinePlace(base, c.to, c.to - 1);
    }
  }

  /** Exactly the lines claimed: those touched, and the one that an edit ending in front of it
      destroys, but for a deletion that joins lines. */
  lemma LineClaimedIff(c: Change, base: string, s: nat)
    requires c.from <= c.to <= |base| && !Noop(c) && IsLineStart(base, s)
    ensures Ordered([c], 0, |base|) && Ordered(Upto([c], c.to), 0, c.to)
    ensures LineNo(base, s) in LinesOfChange(c, base) <==>
      TouchesLine(c, base, s) || (s == c.to && !StaysWhole([c], base, s) && !JoinsLines(c, base))
  {
    hide StaysWhole, Ordered, Upto, JoinsLines, LineNo, LineEnd;
    EndWholeIff(c, base);
    if s == c.to {
      EndClaimedIff(c, base);
    } else {
      LinePlace(base, s, c.from);
      LinePlace(base, s, c.to);
      if c.from < c.to {
        LinePlace(base, s, c.to - 1);
      } else if IsLineStart(base, c.from) {
        LinePlace(base, c.from, s);
      }
    }
  }

  /** And a gap is claimed exactly by an insertion into it that leaves the line behind it whole. */
  lemma BoundaryClaimedIff(c: Change, base: string, s: nat)
    requires c.from <= c.to <= |base| && !Noop(c) && IsLineStart(base, s)
    ensures Ordered([c], 0, |base|) && Ordered(Upto([c], c.to), 0, c.to)
    ensures LineNo(base, s) in BoundariesOfChange(c, base) <==> c.from == c.to == s && StaysWhole([c], base, s)
  {
    hide StaysWhole, Ordered, Upto, LineNo, LineEnd;
    EndWholeIff(c, base);
    BeginsAfterIff(c, base);
    LinePlace(base, s, c.from);
    if WholeLineInsertion(c, base) {
      LinePlace(base, c.from, s);
    }
  }

  ghost predicate ClaimsLine(c: Change, base: string, s: nat)
    requires c.from <= c.to <= |base| && s <= |base|
  {
    OneChange(c, base);
    TouchesLine(c, base, s) || (s == c.to && !StaysWhole([c], base, s) && !JoinsLines(c, base))
  }

  ghost predicate ClaimsGap(c: Change, base: string, s: nat)
    requires c.from <= c.to <= |base| && s <= |base|
  {
    OneChange(c, base);
    c.from == c.to == s && StaysWhole([c], base, s)
  }

  /** What a side claims, in terms of its text alone. */
  lemma ClaimsAreExact(cs: seq<Change>, base: string, s: nat)
    requires InText(cs, |base|) && IsLineStart(base, s) && forall i :: 0 <= i < |cs| ==> !Noop(cs[i])
    ensures LineNo(base, s) in Claims(cs, base).lines <==> exists i :: 0 <= i < |cs| && ClaimsLine(cs[i], base, s)
    ensures LineNo(base, s) in Claims(cs, base).boundaries <==> exists i :: 0 <= i < |cs| && ClaimsGap(cs[i], base, s)
  {
    hide LinesOfChange, BoundariesOfChange, LineNo, StaysWhole, Ordered, Upto, TouchesLine, JoinsLines;
    forall i | 0 <= i < |cs|
      ensures ClaimsLine(cs[i], base, s) <==> LineNo(base, s) in LinesOfChange(cs[i], base)
      ensures ClaimsGap(cs[i], base, s) <==> LineNo(base, s) in BoundariesOfChange(cs[i], base)
    {
      LineClaimedIff(cs[i], base, s);
      BoundaryClaimedIff(cs[i], base, s);
    }
  }

  lemma {:induction false} UptoPrefix(cs: seq<Change>, p: nat, q: nat)
    requires p <= q
    ensures Upto(cs, p) <= Upto(cs, q) <= cs
    decreases |cs|
  {
    if cs != [] {
      UptoPrefix(cs[1..], p, q);
    }
  }

  lemma ImagesApart(base: string, s: nat, e: nat, s': nat, a: seq<Change>, mid: seq<Change>)
    requires s <= e < s' <= |base| && Ordered(a, 0, s)
    requires Normal(mid, s') && (mid != [] ==> e < mid[0].from)
    ensures Ordered(a + mid, 0, s')
    ensures |Apply(base[..s], a)| + (e - s) < |Apply(base[..s'], a + mid)|
  {
    var t := base[..s'];
    EditedAround(t, a, s, e, mid);
    assert t[..s] == base[..s];
  }

  lemma LineEndsBefore(base: string, s: nat, s': nat)
    requires s < s' <= |base| && IsLineStart(base, s')
    ensures LineEnd(base, s) < s'
    decreases s' - s
  {
  }

  /** Lines that come through keep their order. */
  lemma UnclaimedLinesInOrder(cs: seq<Change>, base: string, s: nat, s': nat)
    requires Normal(cs, |base|) && Unclaimed(cs, base, s) && Unclaimed(cs, base, s') && s < s'
    ensures Ordered(Upto(cs, s), 0, s) && Ordered(Upto(cs, s'), 0, s')
    ensures Image(cs, base, s) + (LineEnd(base, s) - s) < Image(cs, base, s')
  {
    UnclaimedOrdered(cs, base, s);
    UnclaimedOrdered(cs, base, s');
    UptoPrefix(cs, s, s');
    LineEndsBefore(base, s, s');
    var a, k := Upto(cs, s), |Upto(cs, s')|;
    BehindLine(cs, |base|, s, LineEnd(base, s), k, s');
    ImagesApart(base, s, LineEnd(base, s), s', a, cs[|a|..k]);
  }

  // ----- Without a collision a line that both sides keep lies between any two edits -----

  /** The line at `s` is claimed by neither side, and parts the two changes. */
  ghost predicate PartedAt(external: seq<Change>, local: seq<Change>, base: string, x: Change, y: Change, s: nat)
    requires InText(external, |base|) && InText(local, |base|)
  {
    && Unclaimed(external, base, s) && Unclaimed(local, base, s)
    && ((x.to <= s && LineEnd(base, s) < y.from) || (y.to <= s && LineEnd(base, s) < x.from))
  }

  lemma {:induction false} StartOfLine(base: string, n: nat, p: nat) returns (s: nat)
    requires p <= |base| && n <= LineNo(base, p)
    ensures s <= p && IsLineStart(base, s) && LineNo(base, s) == n
    decreases p
  {
    if IsLineStart(base, p) && LineNo(base, p) == n {
      s := p;
    } else {
      s := StartOfLine(base, n, p - 1);
    }
  }

  lemma BehindNewline(base: string, s: nat, p: nat)
    requires s <= |base| && LineEnd(base, s) < p <= |base|
    ensures LineNo(base, s) < LineNo(base, p)
  {
    LineNoMonotone(base, s, p);
  }

  /** The line that keeps two sites apart keeps the changes apart. */
  lemma LineParts(xs: seq<Change>, ys: seq<Change>, base: string, i: nat, j: nat) returns (s: nat)
    requires InText(xs, |base|) && InText(ys, |base|) && !Collide(xs, ys, base)
    requires i < |xs| && j < |ys| && xs[i].to < ys[j].from
    ensures Unclaimed(xs, base, s) && Unclaimed(ys, base, s)
    ensures xs[i].to <= s && LineEnd(base, s) < ys[j].from
  {
    hide LineNo, LineEnd, LinesOfChange, BoundariesOfChange;
    var x, y := xs[i], ys[j];
    var a := SiteNear(xs, i, x.to, base);
    var b := SiteNear(ys, j, y.from, base);
    LineNoMonotone(base, x.to, y.from);
    var n := UnlinkedLine(Claims(xs, base), Claims(ys, base), a, b, LineNo(base, x.to), LineNo(base, y.from));
    s := StartOfLine(base, n, y.from);
    UnclaimedUntouched(xs, base, s, i);
    UnclaimedUntouched(ys, base, s, j);
    if LineEnd(base, s) < x.from {
      BehindNewline(base, s, x.from);
      assert false;
    }
    if y.to <= s {
      assert false;
    }
  }

  lemma UnlinkedLine(e: Edits, l: Edits, a: Site, b: Site, p: nat, q: nat) returns (n: nat)
    requires a in Sites(e) && b in Sites(l) && !Linked(a, b, e.lines + l.lines) && p <= q
    requires a == OnLine(p) || a == InGap(p) || (p > 0 && a == OnLine(p - 1))
    requires b == OnLine(q) || b == InGap(q)
    ensures FirstFrom(a) <= n <= LastUpTo(b) && n !in e.lines && n !in l.lines && n < q
  {
    n :| FirstFrom(a) <= n <= LastUpTo(b) && n !in e.lines + l.lines;
  }

  /** A site comes from a change and lies on the lines that the change reaches. */
  lemma SiteOfChange(cs: seq<Change>, base: string, a: Site) returns (i: nat)
    requires InText(cs, |base|) && a in Sites(Claims(cs, base))
    ensures i < |cs| && LineNo(base, cs[i].from) <= FirstFrom(a) <= LineNo(base, cs[i].to)
    ensures LineNo(base, cs[i].from) <= LastUpTo(a) + if a.InGap? then 1 else 0
  {
    match a {
      case OnLine(n) => i :| 0 <= i < |cs| && n in LinesOfChange(cs[i], base);
      case InGap(n) => i :| 0 <= i < |cs| && n in BoundariesOfChange(cs[i], base);
    }
    var c := cs[i];
    LineNoMonotone(base, c.from, c.to);
    if c.from < c.to {
      LineNoMonotone(base, c.to - 1, c.to);
    }
  }

  lemma PartedNotLinked(external: seq<Change>, local: seq<Change>, base: string, i: nat, j: nat, s: nat,
                        a: Site, b: Site)
    requires InText(external, |base|) && InText(local, |base|) && i < |external| && j < |local|
    requires Unclaimed(external, base, s) && Unclaimed(local, base, s)
    requires external[i].to <= s && LineEnd(base, s) < local[j].from
    requires FirstFrom(a) <= LineNo(base, external[i].to)
    requires LineNo(base, local[j].from) <= LastUpTo(b) + if b.InGap? then 1 else 0
    ensures !Linked(a, b, Claims(external, base).lines + Claims(local, base).lines)
  {
    hide Claims, LineNo, LineEnd;
    LineNoMonotone(base, external[i].to, s);
    BehindNewline(base, s, local[j].from);
    var n, lines := LineNo(base, s), Claims(external, base).lines + Claims(local, base).lines;
    assert FirstFrom(a) <= n <= LastUpTo(b) && n !in lines;
  }

  ghost predicate Parted(external: seq<Change>, local: seq<Change>, base: string, x: Change, y: Change)
    requires InText(external, |base|) && InText(local, |base|)
  {
    exists s: nat :: PartedAt(external, local, base, x, y, s)
  }

  ghost predicate AllParted(external: seq<Change>, local: seq<Change>, base: string)
    requires InText(external, |base|) && InText(local, |base|)
  {
    forall i, j :: 0 <= i < |external| && 0 <= j < |local| ==> Parted(external, local, base, external[i], local[j])
  }

  lemma PartedDoNotCollide(external: seq<Change>, local: seq<Change>, base: string)
    requires InText(external, |base|) && InText(local, |base|) && AllParted(external, local, base)
    ensures !Collide(external, local, base)
  {
    hide Linked, Claims, Unclaimed, LineEnd, Sites, FirstFrom, LastUpTo;
    var e, l := Claims(external, base), Claims(local, base);
    forall a, b | a in Sites(e) && b in Sites(l)
      ensures !Linked(a, b, e.lines + l.lines)
    {
      var i := SiteOfChange(external, base, a);
      var j := SiteOfChange(local, base, b);
      assert Parted(external, local, base, external[i], local[j]);
      var s: nat :| PartedAt(external, local, base, external[i], local[j], s);
      if external[i].to <= s {
        PartedNotLinked(external, local, base, i, j, s, a, b);
      } else {
        PartedNotLinked(local, external, base, j, i, s, b, a);
        LinkedSymmetric(a, b, l.lines + e.lines);
        assert l.lines + e.lines == e.lines + l.lines;
      }
    }
  }

  lemma LineBetween(external: seq<Change>, local: seq<Change>, base: string, i: nat, j: nat) returns (s: nat)
    requires InText(external, |base|) && InText(local, |base|) && !Collide(external, local, base)
    requires i < |external| && j < |local|
    ensures PartedAt(external, local, base, external[i], local[j], s)
  {
    hide Collide, Unclaimed, LineEnd;
    NoCollisionKeepsApart(external, local, base);
    if external[i].to < local[j].from {
      s := LineParts(external, local, base, i, j);
    } else {
      CollideSymmetric(external, local, base);
      s := LineParts(local, external, base, j, i);
    }
  }

  /** What the chunks mean for the text: no collision, exactly if a line that neither side claims
      lies between any two changes of the two sides. */
  lemma NoCollisionIffParted(external: seq<Change>, local: seq<Change>, base: string)
    requires InText(external, |base|) && InText(local, |base|)
    ensures !Collide(external, local, base) <==> AllParted(external, local, base)
  {
    hide Collide, Unclaimed, LineEnd;
    if !Collide(external, local, base) {
      forall i, j | 0 <= i < |external| && 0 <= j < |local|
        ensures Parted(external, local, base, external[i], local[j])
      {
        var s := LineBetween(external, local, base, i, j);
      }
    } else if AllParted(external, local, base) {
      PartedDoNotCollide(external, local, base);
      assert false;
    }
  }

  /** And if no change joins lines, both sides keep that line whole. */
  lemma KeptLineBetween(external: seq<Change>, local: seq<Change>, base: string, i: nat, j: nat) returns (s: nat)
    requires Normal(external, |base|) && Normal(local, |base|) && !Collide(external, local, base)
    requires forall c :: c in external || c in local ==> !JoinsLines(c, base)
    requires i < |external| && j < |local|
    ensures PartedAt(external, local, base, external[i], local[j], s) && s <= |base|
    ensures Ordered(external, 0, |base|) && Ordered(Upto(external, s), 0, s) && StaysWhole(external, base, s)
    ensures Ordered(local, 0, |base|) && Ordered(Upto(local, s), 0, s) && StaysWhole(local, base, s)
  {
    hide Collide, JoinsLines, Ordered, Upto, LineEnd, StaysWhole;
    s := LineBetween(external, local, base, i, j);
    UnclaimedLineSurvivesIff(external, base, s);
    UnclaimedLineSurvivesIff(local, base, s);
  }

  // ----- Where the line claims fall short -----

  /** `"ab\ncd\nef"` with `"b\n"` deleted is `"acd\nef"`. The line `cd` is gone, but
      `classifyEdits` does not count it. A local edit of the line behind it then does not
      collide, although no line that both sides keep lies between the two edits. */
  lemma JoinedLineIsMissed()
    ensures var base, external, local := "ab\ncd\nef", [Change(1, 3, "")], [Change(7, 8, "x")];
      && Normal(external, |base|) && Normal(local, |base|)
      && Unclaimed(external, base, 3) && Ordered(external, 0, |base|) && Ordered(Upto(external, 3), 0, 3)
      && !StaysWhole(external, base, 3)
      && LineNo(base, 7) == 2
      && !Collide(external, local, base)
  {
  }

  // ----- computeExternalChanges -----

  predicate HasSbHunk(text: string) {
    var hunks := ConflictMarkers.FindHunks(SplitLines(text));
    exists i :: 0 <= i < |hunks| && hunks[i].kind == ConflictMarkers.Sb
  }

  method HasConflictMarkers(text: string) returns (found: bool)
    ensures found == HasSbHunk(text)
  {
    hide ConflictMarkers.FindHunks;
    var hunks := ConflictMarkers.FindConflictHunks(SplitLines(text));
    for i := 0 to |hunks|
      invariant forall k :: 0 <= k < i ==> hunks[k].kind != ConflictMarkers.Sb
    {
      if hunks[i].kind == ConflictMarkers.Sb {
        return true;
      }
    }
    return false;
  }

  /** A conflict printed in SB's form is seen, wherever it is found at all. */
  lemma PrintedIsSeen(before: seq<string>, c: ConflictPrinting.Conflict, behind: seq<string>)
    requires ConflictPrinting.Printable(c) && ConflictPrinting.NoneLeftOpen(before)
    requires var lines := before + ConflictPrinting.Printed(c) + behind;
      forall k :: 0 <= k < |lines| ==> '\n' !in lines[k]
    ensures HasSbHunk(JoinLines(before + ConflictPrinting.Printed(c) + behind))
  {
    hide ConflictPrinting.Printed, ConflictPrinting.Printable, ConflictPrinting.NoneLeftOpen, ConflictMarkers.MarkersIn,
      ConflictMarkers.HunkOf, ConflictMarkers.DocKinds, ConflictMarkers.Frames, ConflictPrinting.ReadsAs,
      ConflictMarkers.AtLine;
    var lines := before + ConflictPrinting.Printed(c) + behind;
    ConflictPrinting.PrintedStands(before, c, behind);
    var i := ConflictPrinting.PrintedAt(before, c, behind);
    ConflictPrinting.FramesFitIn(lines, i);
    SplitOfJoin(lines);
    FrameKind(lines, ConflictPrinting.PrintedFrame(|before|, c));
  }

  lemma FrameKind(lines: seq<string>, f: ConflictMarkers.Frame)
    requires ConflictMarkers.MarkersIn(f, lines)
    ensures ConflictMarkers.HunkOf(lines, f).kind == f.kind
  {
  }

  /** Without a line that begins as SB's start marker does, none is seen: git's form does not count. */
  lemma NoSbStartNoneSeen(text: string)
    requires forall k :: 0 <= k < |SplitLines(text)| ==>
      !ConflictMarkers.StartsWith(ConflictMarkers.StripTrailingCR(SplitLines(text)[k]), ConflictMarkers.SB_START)
    ensures !HasSbHunk(text)
  {
    hide ConflictMarkers.MarkersIn, ConflictMarkers.HunkOf, ConflictMarkers.DocKinds, ConflictMarkers.Frames,
      ConflictMarkers.FenceMask, ConflictMarkers.StartsWith;
    var lines := SplitLines(text);
    forall i | 0 <= i < |ConflictMarkers.FindHunks(lines)|
      ensures ConflictMarkers.FindHunks(lines)[i].kind != ConflictMarkers.Sb
    {
      ConflictPrinting.FramesFitIn(lines, i);
      var f := ConflictMarkers.Frames(ConflictMarkers.DocKinds(lines), 0)[i];
      FrameKind(lines, f);
      assert ConflictMarkers.FrameIn(f, ConflictMarkers.DocKinds(lines));
      ConflictPrinting.KindOfLine(lines, f.start);
    }
  }

  /** What is assumed of `ChangeSet.map`: on sides that keep apart it shifts positions. */
  ghost predicate MapsApartChanges(map_: (seq<Change>, seq<Change>) -> seq<Change>, n: nat) {
    forall xs, ys :: Normal(xs, n) && Normal(ys, n) && Apart(xs, ys) ==> Mapped(xs, ys, map_(xs, ys))
  }

  method ComputeExternalChanges(base: string, disk: string, current: string, canDefer: bool,
                                baseToDisk: seq<Part>, baseToCurrent: seq<Part>, currentToDisk: seq<Part>,
                                map_: (seq<Change>, seq<Change>) -> seq<Change>)
    returns (changes: seq<Change>, deferred: bool)
    requires IsDiff(baseToDisk, base, disk) && IsDiff(baseToCurrent, base, current)
    requires IsDiff(currentToDisk, current, disk)
    requires MapsApartChanges(map_, |base|)
    ensures var external, local := ChangeSetOf(baseToDisk), ChangeSetOf(baseToCurrent);
      && Normal(external, |base|) && Normal(local, |base|)
      && var direct := disk == current || current == base || (external != [] && HasSbHunk(disk));
         && (deferred <==> !direct && canDefer && Collide(external, local, base))
         && (deferred ==> changes == [])
         && (direct ==> Ordered(changes, 0, |current|) && Apply(current, changes) == disk)
         && (!direct && !Collide(external, local, base) ==>
               && Ordered(changes, 0, |current|) && Ordered(Interleave(external, local), 0, |base|)
               && Apply(current, changes) == Apply(base, Interleave(external, local)))
  {
    var external := BuildChangeSet(base, disk, baseToDisk);
    var local := BuildChangeSet(base, current, baseToCurrent);
    if disk == current {
      return [], false;
    }
    if current == base {
      return external, false;
    }
    var marked := HasConflictMarkers(disk);
    if external != [] && marked {
      changes := BuildChangeSet(current, disk, currentToDisk);
      return changes, false;
    }
    var collides := CollidesInSameChunk(external, local, base);
    if canDefer && collides {
      return [], true;
    }
    changes, deferred := map_(external, local), false;
    if !collides {
      NoCollisionKeepsApart(external, local, base);
      NormalIsOrdered(external, 0, |base|);
      MapThroughFrom(base, 0, external, local, current, 0, changes);
    }
  }

  lemma ClaimsOfBoth(xs: seq<Change>, ys: seq<Change>, both: seq<Change>, base: string)
    requires InText(xs, |base|) && InText(ys, |base|) && InText(both, |base|)
    requires forall c :: c in both <==> c in xs || c in ys
    ensures Claims(both, base).lines == Claims(xs, base).lines + Claims(ys, base).lines
  {
    forall n: nat
      ensures n in Claims(both, base).lines <==> n in Claims(xs, base).lines + Claims(ys, base).lines
    {
      ClaimedBySome(both, base, n);
      ClaimedBySome(xs, base, n);
      ClaimedBySome(ys, base, n);
    }
  }

  lemma ClaimedBySome(cs: seq<Change>, base: string, n: nat)
    requires InText(cs, |base|)
    ensures n in Claims(cs, base).lines <==>
      exists c :: c in cs && c.from <= c.to <= |base| && n in LinesOfChange(c, base)
  {
  }

  /** What the merged text keeps: every line that neither side claims, if no change of either
      side joins it to the line before. */
  lemma MergeKeepsCommonLines(external: seq<Change>, local: seq<Change>, base: string, s: nat)
    requires Normal(external, |base|) && Normal(local, |base|) && !Collide(external, local, base)
    requires Unclaimed(external, base, s) && Unclaimed(local, base, s)
    requires forall c :: (c in external || c in local) && c.to == s ==> !JoinsLines(c, base)
    ensures var both := Interleave(external, local);
      Ordered(both, 0, |base|) && Ordered(Upto(both, s), 0, s) && StaysWhole(both, base, s)
  {
    NoCollisionKeepsApart(external, local, base);
    InterleaveSides(external, local, |base|);
    var both := Interleave(external, local);
    ClaimsOfBoth(external, local, both, base);
    UnclaimedLineSurvivesIff(both, base, s);
    forall i | 0 <= i < |both| && both[i].to == s
      ensures !JoinsLines(both[i], base)
    {
      assert both[i] in external || both[i] in local;
    }
  }
}
