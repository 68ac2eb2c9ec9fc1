/** Positions and lines of a text. A `char` stands for one UTF-16 code unit. */
module TextLines {

  predicate MatchAt(t: string, pat: string, i: nat) {
    i + |pat| <= |t| && t[i..i + |pat|] == pat
  }

  /** `t.indexOf(pat, start)`. */
  function IndexOf(t: string, pat: string, start: nat): (r: int)
    ensures r == -1 || start <= r
    ensures r >= 0 ==> MatchAt(t, pat, r) && forall k :: start <= k < r ==> !MatchAt(t, pat, k)
    ensures r == -1 ==> forall k :: start <= k ==> !MatchAt(t, pat, k)
    decreases |t| - start
  {
    if start + |pat| > |t| then -1
    else if MatchAt(t, pat, start) then start
    else IndexOf(t, pat, start + 1)
  }

  predicate IsLineStart(t: string, p: nat) {
    p <= |t| && (p == 0 || t[p - 1] == '\n')
  }

  predicate EndsWithNewline(s: string) {
    s != "" && s[|s| - 1] == '\n'
  }

  /** The number of the line `p` is on: the newlines in front of it. */
  function LineNo(t: string, p: nat): nat
    requires p <= |t|
  {
    if p == 0 then 0 else LineNo(t, p - 1) + if t[p - 1] == '\n' then 1 else 0
  }

  /** Where the line that `p` is on ends: the next newline, or the end of the text. */
  function LineEnd(t: string, p: nat): (e: nat)
    requires p <= |t|
    ensures p <= e <= |t|
    ensures '\n' !in t[p..e] && (e == |t| || t[e] == '\n')
    decreases |t| - p
  {
    if p == |t| || t[p] == '\n' then p else LineEnd(t, p + 1)
  }

  lemma {:induction false} LineNoMonotone(t: string, p: nat, q: nat)
    requires p <= q <= |t|
    ensures LineNo(t, p) <= LineNo(t, q)
    ensures forall k :: p <= k < q && t[k] == '\n' ==> LineNo(t, p) < LineNo(t, q)
    decreases q - p
  {
    if p < q {
      LineNoMonotone(t, p, q - 1);
    }
  }

  lemma {:induction false} LineNoSame(t: string, p: nat, q: nat)
    requires p <= q <= |t| && '\n' !in t[p..q]
    ensures LineNo(t, p) == LineNo(t, q)
    decreases q - p
  {
    if p < q {
      assert t[q - 1] == t[p..q][q - 1 - p];
      assert t[p..q - 1] == t[p..q][..q - 1 - p];
      LineNoSame(t, p, q - 1);
    }
  }

  lemma NoNewlineWithin(t: string, p: nat, q: nat, e: nat)
    requires p <= q <= e <= |t| && '\n' !in t[p..e]
    ensures '\n' !in t[p..q]
  {
  }

  lemma {:induction false} LineEndUnique(t: string, p: nat, e: nat)
    requires p <= e <= |t|
    requires '\n' !in t[p..e] && (e == |t| || t[e] == '\n')
    ensures LineEnd(t, p) == e
    decreases e - p
  {
  }

  /** `starts` lists the line starts of `t` up to position `p`, in order. */
  ghost predicate IndexesUpTo(starts: seq<nat>, t: string, p: nat) {
    && p <= |t|
    && |starts| == LineNo(t, p) + 1
    && (forall k :: 0 <= k < |starts| ==> IsLineStart(t, starts[k]) && starts[k] <= p && LineNo(t, starts[k]) == k)
    && (forall i, k :: 0 <= i < k < |starts| ==> starts[i] < starts[k])
    && (forall q: nat :: q <= p && IsLineStart(t, q) ==> q in starts)
  }

  ghost predicate IsLineIndex(starts: seq<nat>, t: string) {
    IndexesUpTo(starts, t, |t|)
  }

  /** Text without a newline adds no line start. */
  lemma IndexesFurther(starts: seq<nat>, t: string, p: nat, q: nat)
    requires IndexesUpTo(starts, t, p) && p <= q <= |t| && '\n' !in t[p..q]
    ensures IndexesUpTo(starts, t, q)
  {
    LineNoSame(t, p, q);
    forall r: nat | p < r <= q
      ensures !IsLineStart(t, r)
    {
      assert t[r - 1] == t[p..q][r - 1 - p];
    }
  }

  lemma IndexesNewline(starts: seq<nat>, t: string, p: nat)
    requires IndexesUpTo(starts, t, p) && p < |t| && t[p] == '\n'
    ensures IndexesUpTo(starts + [p + 1], t, p + 1)
  {
  }

  lemma NewlineAt(t: string, k: nat)
    requires k < |t|
    ensures MatchAt(t, "\n", k) <==> t[k] == '\n'
  {
  }

  lemma MatchEnds(t: string, pat: string, k: nat)
    requires MatchAt(t, pat, k)
    ensures k + |pat| <= |t|
  {
  }

  lemma IndexOfNewline(t: string, start: nat)
    requires start <= |t|
    ensures var i := IndexOf(t, "\n", start);
      if i == -1 then '\n' !in t[start..] else i < |t| && t[i] == '\n' && '\n' !in t[start..i]
  {
    hide IndexOf, MatchAt;
    forall k | start <= k < |t|
      ensures MatchAt(t, "\n", k) <==> t[k] == '\n'
    {
      NewlineAt(t, k);
    }
    var i := IndexOf(t, "\n", start);
    if i != -1 {
      MatchEnds(t, "\n", i);
    }
  }

  // ----- Whole lines: `split("\n")` and back -----

  function SplitLines(t: string): (lines: seq<string>)
    ensures |lines| > 0
    ensures forall i :: 0 <= i < |lines| ==> '\n' !in lines[i]
    decreases |t|
  {
    var e := LineEnd(t, 0);
    assert t[..e] == t[0..e];
    if e == |t| then [t[..e]] else [t[..e]] + SplitLines(t[e + 1..])
  }

  function JoinLines(lines: seq<string>): string
    requires |lines| > 0
  {
    if |lines| == 1 then lines[0] else lines[0] + "\n" + JoinLines(lines[1..])
  }

  /** Every line with the newline that ends it. */
  function Unlines(lines: seq<string>): string {
    if lines == [] then "" else lines[0] + "\n" + Unlines(lines[1..])
  }

  lemma {:induction false} JoinOfSplit(t: string)
    ensures JoinLines(SplitLines(t)) == t
    decreases |t|
  {
    var e := LineEnd(t, 0);
    if e < |t| {
      JoinOfSplit(t[e + 1..]);
      assert SplitLines(t)[1..] == SplitLines(t[e + 1..]);
      assert t == t[..e] + "\n" + t[e + 1..];
    }
  }

  lemma FirstLine(line: string, rest: string, t: string)
    requires t == line + rest && '\n' !in line && (rest != "" ==> rest[0] == '\n')
    ensures LineEnd(t, 0) == |line| && t[..|line|] == line
  {
    assert t[0..|line|] == line;
    LineEndUnique(t, 0, |line|);
  }

  lemma {:induction false} SplitOfJoin(lines: seq<string>)
    requires |lines| > 0 && forall i :: 0 <= i < |lines| ==> '\n' !in lines[i]
    ensures SplitLines(JoinLines(lines)) == lines
    decreases |lines|
  {
    var t, line := JoinLines(lines), lines[0];
    if |lines| == 1 {
      FirstLine(line, "", t);
    } else {
      FirstLine(line, "\n" + JoinLines(lines[1..]), t);
      assert t[|line| + 1..] == JoinLines(lines[1..]);
      SplitOfJoin(lines[1..]);
      assert lines == [line] + lines[1..];
    }
  }

  lemma {:induction false} UnlinesJoin(front: seq<string>, back: seq<string>)
    requires |back| > 0
    ensures JoinLines(front + back) == Unlines(front) + JoinLines(back)
    decreases |front|
  {
    if front == [] {
      assert front + back == back;
    } else {
      UnlinesJoin(front[1..], back);
      assert (front + back)[1..] == front[1..] + back;
      Associate(front[0] + "\n", Unlines(front[1..]), JoinLines(back));
    }
  }

  lemma {:induction false} UnlinesConcat(front: seq<string>, back: seq<string>)
    ensures Unlines(front + back) == Unlines(front) + Unlines(back)
    decreases |front|
  {
    if front == [] {
      assert front + back == back;
    } else {
      UnlinesConcat(front[1..], back);
      assert (front + back)[1..] == front[1..] + back;
      Associate(front[0] + "\n", Unlines(front[1..]), Unlines(back));
    }
  }

  lemma Associate(x: string, y: string, z: string)
    ensures x + (y + z) == (x + y) + z
  {
  }

  /** The offset at which line `i` starts. */
  function LineFrom(lines: seq<string>, i: nat): nat
    requires i <= |lines|
  {
    |Unlines(lines[..i])|
  }

  /** A run of whole lines, cut out of the text they are part of. */
  lemma LinesSlice(lines: seq<string>, i: nat, j: nat)
    requires i <= j < |lines|
    ensures LineFrom(lines, i) <= LineFrom(lines, j) <= |JoinLines(lines)|
    ensures JoinLines(lines)[LineFrom(lines, i)..LineFrom(lines, j)] == Unlines(lines[i..j])
  {
    assert lines == lines[..j] + lines[j..];
    UnlinesJoin(lines[..j], lines[j..]);
    assert lines[..j] == lines[..i] + lines[i..j];
    UnlinesConcat(lines[..i], lines[i..j]);
  }

  lemma TextFromLine(lines: seq<string>, i: nat)
    requires i < |lines|
    ensures LineFrom(lines, i) <= |JoinLines(lines)|
    ensures JoinLines(lines)[..LineFrom(lines, i)] == Unlines(lines[..i])
    ensures JoinLines(lines)[LineFrom(lines, i)..] == JoinLines(lines[i..])
  {
    assert lines == lines[..i] + lines[i..];
    UnlinesJoin(lines[..i], lines[i..]);
  }

  lemma SliceLeft(x: string, y: string, a: nat, b: nat)
    requires a <= b <= |x|
    ensures (x + y)[a..b] == x[a..b]
  {
  }

  lemma SliceSlice<T>(t: seq<T>, x: nat, y: nat, a: nat, b: nat)
    requires x <= y <= |t| && a <= b <= y - x
    ensures t[x..y][a..b] == t[x + a..x + b]
  {
    var u, v := t[x..y][a..b], t[x + a..x + b];
    assert forall k :: 0 <= k < |u| ==> u[k] == v[k];
  }

  lemma CutAt<T>(s: seq<T>, j: nat, k: nat)
    requires j <= k <= |s|
    ensures s[..k] == s[..j] + s[j..k]
  {
  }

  /** Two sequences with the same end agree on its parts. */
  lemma SameTail<T>(s: seq<T>, p: nat, u: seq<T>, q: nat, d: nat)
    requires p <= |s| && q <= |u| && s[p..] == u[q..] && p + d <= |s|
    ensures q + d <= |u| && s[p..p + d] == u[q..q + d] && s[p + d..] == u[q + d..]
  {
    assert |s| - p == |u| - q;
    assert s[p..][..d] == s[p..p + d] && u[q..][..d] == u[q..q + d];
    assert s[p..][d..] == s[p + d..] && u[q..][d..] == u[q + d..];
  }

  // ----- White space, as `\s` and `trim` see it -----

  predicate IsSpace(c: char) {
    c in " \t\n\r\U{000B}\U{000C}\U{00A0}\U{1680}\U{2028}\U{2029}\U{202F}\U{205F}\U{3000}\U{FEFF}" ||
    '\U{2000}' <= c <= '\U{200A}'
  }

  function TrimStart(s: string): string {
    if s != "" && IsSpace(s[0]) then TrimStart(s[1..]) else s
  }

  function TrimEnd(s: string): string {
    if s != "" && IsSpace(s[|s| - 1]) then TrimEnd(s[..|s| - 1]) else s
  }

  function Trim(s: string): string {
    TrimEnd(TrimStart(s))
  }

  ghost predicate OnlySpaces(s: string) {
    forall c :: c in s ==> IsSpace(c)
  }

  lemma {:induction false} TrimStartSplits(s: string) returns (lead: string)
    ensures s == lead + TrimStart(s) && OnlySpaces(lead)
    ensures TrimStart(s) != "" ==> !IsSpace(TrimStart(s)[0])
  {
    hide IsSpace;
    lead := "";
    if s != "" && IsSpace(s[0]) {
      var more := TrimStartSplits(s[1..]);
      lead := [s[0]] + more;
    }
  }

  lemma {:induction false} TrimEndSplits(s: string) returns (trail: string)
    ensures s == TrimEnd(s) + trail && OnlySpaces(trail)
    ensures TrimEnd(s) != "" ==> !IsSpace(TrimEnd(s)[|TrimEnd(s)| - 1])
  {
    hide IsSpace;
    trail := "";
    if s != "" && IsSpace(s[|s| - 1]) {
      var more := TrimEndSplits(s[..|s| - 1]);
      trail := more + [s[|s| - 1]];
    }
  }

  /** Trimming takes away exactly the white space at both ends. */
  lemma TrimSplits(s: string) returns (lead: string, trail: string)
    ensures s == lead + Trim(s) + trail && OnlySpaces(lead) && OnlySpaces(trail)
    ensures Trim(s) != "" ==> !IsSpace(Trim(s)[0]) && !IsSpace(Trim(s)[|Trim(s)| - 1])
  {
    hide IsSpace, TrimStart, TrimEnd;
    lead := TrimStartSplits(s);
    trail := TrimEndSplits(TrimStart(s));
    Associate(lead, Trim(s), trail);
  }
}
