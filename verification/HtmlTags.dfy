/** Pairing of HTML tags: `matchHtmlTagPairs` in `client/codemirror/html_element.ts`. Tags are
    told apart by their position in the list. */
module HtmlTags {
  datatype Tag = Tag(tagName: string, isClosing: bool, isSelfClosing: bool)

  /** `toLowerCase` on tag names, which are ASCII. */
  function LowerChar(c: char): char {
    if 'A' <= c <= 'Z' then c - 'A' + 'a' else c
  }

  function Lower(s: string): string {
    if s == "" then "" else [LowerChar(s[0])] + Lower(s[1..])
  }

  datatype Pair = Pair(open: nat, close: nat)

  datatype State = State(stack: seq<nat>, pairs: seq<Pair>, voidElements: seq<nat>)

  /** A tag that takes part in matching, under this name. */
  predicate Named(tags: seq<Tag>, i: nat, name: string) {
    i < |tags| && !tags[i].isSelfClosing && Lower(tags[i].tagName) == name
  }

  /** The topmost stack entry of a name, or -1. */
  function Topmost(stack: seq<nat>, tags: seq<Tag>, name: string): (i: int)
    ensures -1 <= i < |stack|
    ensures i >= 0 ==> Named(tags, stack[i], name)
    ensures forall j :: i < j < |stack| ==> !Named(tags, stack[j], name)
  {
    if stack == [] then -1
    else if Named(tags, stack[|stack| - 1], name) then |stack| - 1
    else Topmost(stack[..|stack| - 1], tags, name)
  }

  function Without(s: seq<nat>, i: nat): seq<nat>
    requires i < |s|
  {
    s[..i] + s[i + 1..]
  }

  function Step(s: State, tags: seq<Tag>, k: nat): State
    requires k < |tags|
  {
    var tag := tags[k];
    if tag.isSelfClosing then s.(voidElements := s.voidElements + [k])
    else if tag.isClosing then
      var i := Topmost(s.stack, tags, Lower(tag.tagName));
      if i < 0 then s else State(Without(s.stack, i), s.pairs + [Pair(s.stack[i], k)], s.voidElements)
    else s.(stack := s.stack + [k])
  }

  /** The state after the first `n` tags. */
  function After(tags: seq<Tag>, n: nat): State
    requires n <= |tags|
  {
    if n == 0 then State([], [], []) else Step(After(tags, n - 1), tags, n - 1)
  }

  method MatchHtmlTagPairs(tags: seq<Tag>) returns (pairs: seq<Pair>, voidElements: seq<nat>)
    ensures pairs == After(tags, |tags|).pairs
    ensures voidElements == After(tags, |tags|).voidElements
  {
    hide Lower;
    pairs, voidElements := [], [];
    var stack: seq<nat> := [];
    for k := 0 to |tags|
      invariant After(tags, k) == State(stack, pairs, voidElements)
      invariant forall j :: 0 <= j < |stack| ==> stack[j] < k && !tags[stack[j]].isSelfClosing
    {
      var tag := tags[k];
      if tag.isSelfClosing {
        voidElements := voidElements + [k];
        continue;
      }
      if tag.isClosing {
        var i := |stack| - 1;
        while i >= 0
          invariant -1 <= i < |stack|
          invariant forall j :: i < j < |stack| ==> Lower(tags[stack[j]].tagName) != Lower(tag.tagName)
        {
          if Lower(tags[stack[i]].tagName) == Lower(tag.tagName) {
            break;
          }
          i := i - 1;
        }
        if i >= 0 {
          pairs := pairs + [Pair(stack[i], k)];
          stack := Without(stack, i);
        }
      } else {
        stack := stack + [k];
      }
    }
  }

  // ----- Classic bracket matching, for one name -----

  datatype Classic = Classic(stack: seq<nat>, pairs: seq<Pair>)

  /** Openers of the name are pushed, closers pop. */
  function Brackets(tags: seq<Tag>, name: string, n: nat): Classic
    requires n <= |tags|
  {
    if n == 0 then Classic([], [])
    else
      var c, k := Brackets(tags, name, n - 1), n - 1;
      if !Named(tags, k, name) then c
      else if !tags[k].isClosing then c.(stack := c.stack + [k])
      else if c.stack == [] then c
      else Classic(c.stack[..|c.stack| - 1], c.pairs + [Pair(c.stack[|c.stack| - 1], k)])
  }

  function OfName(s: seq<nat>, tags: seq<Tag>, name: string): seq<nat> {
    if s == [] then []
    else OfName(s[..|s| - 1], tags, name) + if Named(tags, s[|s| - 1], name) then [s[|s| - 1]] else []
  }

  function PairsOfName(ps: seq<Pair>, tags: seq<Tag>, name: string): seq<Pair> {
    if ps == [] then []
    else PairsOfName(ps[..|ps| - 1], tags, name) + if Named(tags, ps[|ps| - 1].close, name) then [ps[|ps| - 1]] else []
  }

  lemma {:induction false} OfNameConcat(a: seq<nat>, b: seq<nat>, tags: seq<Tag>, name: string)
    ensures OfName(a + b, tags, name) == OfName(a, tags, name) + OfName(b, tags, name)
    decreases |b|
  {
    hide Named;
    if b == [] {
      assert a + b == a;
    } else {
      assert (a + b)[..|a + b| - 1] == a + b[..|b| - 1];
      OfNameConcat(a, b[..|b| - 1], tags, name);
    }
  }

  lemma {:induction false} NoneOfName(s: seq<nat>, tags: seq<Tag>, name: string)
    requires forall j :: 0 <= j < |s| ==> !Named(tags, s[j], name)
    ensures OfName(s, tags, name) == []
    decreases |s|
  {
    if s != [] {
      NoneOfName(s[..|s| - 1], tags, name);
    }
  }

  /** Taking the topmost entry of its name out of the mixed stack is popping that name's own
      stack, and leaves the stacks of other names alone. */
  lemma SpliceIsPop(s: seq<nat>, i: nat, tags: seq<Tag>, name: string)
    requires i < |s| && forall j :: i < j < |s| ==> !Named(tags, s[j], name)
    ensures var mine := OfName(s, tags, name);
      if Named(tags, s[i], name)
      then mine != [] && mine[|mine| - 1] == s[i] && OfName(Without(s, i), tags, name) == mine[..|mine| - 1]
      else OfName(Without(s, i), tags, name) == mine
  {
    hide Named, OfName;
    var front, back := s[..i], s[i + 1..];
    assert s == front + [s[i]] + back;
    OfNameConcat(front + [s[i]], back, tags, name);
    OfNameConcat(front, [s[i]], tags, name);
    OfNameConcat(front, back, tags, name);
    NoneOfName(back, tags, name);
    OfNameOne(s[i], tags, name);
  }

  lemma OfNameOne(t: nat, tags: seq<Tag>, name: string)
    ensures OfName([t], tags, name) == if Named(tags, t, name) then [t] else []
  {
    hide Named;
    assert [t][..0] == [];
  }

  lemma SpliceOfOther(s: seq<nat>, i: nat, tags: seq<Tag>, name: string)
    requires i < |s| && !Named(tags, s[i], name)
    ensures OfName(Without(s, i), tags, name) == OfName(s, tags, name)
  {
    hide Named;
    var front, back := s[..i], s[i + 1..];
    assert s == front + [s[i]] + back;
    OfNameConcat(front + [s[i]], back, tags, name);
    OfNameConcat(front, [s[i]], tags, name);
    OfNameConcat(front, back, tags, name);
    assert [s[i]][..0] == [];
  }

  /** Per tag name, matching on one mixed stack is classic bracket matching. */
  lemma {:induction false} MatchingIsClassic(tags: seq<Tag>, name: string, n: nat)
    requires n <= |tags|
    ensures var s, c := After(tags, n), Brackets(tags, name, n);
      OfName(s.stack, tags, name) == c.stack && PairsOfName(s.pairs, tags, name) == c.pairs
    decreases n
  {
    hide Lower;
    if n > 0 {
      var k := n - 1;
      MatchingIsClassic(tags, name, k);
      var s, tag := After(tags, k), tags[k];
      if !tag.isSelfClosing && tag.isClosing {
        CloserIsClassic(s, tags, name, k);
      } else if !tag.isSelfClosing {
        var pushed := s.stack + [k];
        assert pushed[..|pushed| - 1] == s.stack;
      }
    }
  }

  lemma CloserIsClassic(s: State, tags: seq<Tag>, name: string, k: nat)
    requires k < |tags| && !tags[k].isSelfClosing && tags[k].isClosing
    ensures var mine, s' := OfName(s.stack, tags, name), Step(s, tags, k);
      if Named(tags, k, name) && mine != [] then
        OfName(s'.stack, tags, name) == mine[..|mine| - 1] &&
        PairsOfName(s'.pairs, tags, name) == PairsOfName(s.pairs, tags, name) + [Pair(mine[|mine| - 1], k)]
      else OfName(s'.stack, tags, name) == mine && PairsOfName(s'.pairs, tags, name) == PairsOfName(s.pairs, tags, name)
  {
    hide Lower, OfName;
    var own := Lower(tags[k].tagName);
    var i := Topmost(s.stack, tags, own);
    if i >= 0 {
      var ps := s.pairs + [Pair(s.stack[i], k)];
      assert ps[..|ps| - 1] == s.pairs;
      if own == name {
        SpliceIsPop(s.stack, i, tags, name);
      } else {
        SpliceOfOther(s.stack, i, tags, name);
      }
    } else if own == name {
      NoneOfName(s.stack, tags, name);
    }
  }

  // ----- What a matching is -----

  ghost predicate Increasing(s: seq<nat>, n: nat) {
    (forall j :: 0 <= j < |s| ==> s[j] < n) && forall i, j :: 0 <= i < j < |s| ==> s[i] < s[j]
  }

  ghost predicate PairOk(p: Pair, tags: seq<Tag>, n: nat) {
    p.open < p.close < n <= |tags| &&
    !tags[p.open].isSelfClosing && !tags[p.close].isSelfClosing &&
    !tags[p.open].isClosing && tags[p.close].isClosing &&
    Lower(tags[p.open].tagName) == Lower(tags[p.close].tagName)
  }

  ghost predicate OneUse(p: Pair, q: Pair) {
    p.open != q.open && p.close != q.close && p.open != q.close && p.close != q.open
  }

  ghost predicate PairsOk(s: State, tags: seq<Tag>, n: nat) {
    Increasing(s.stack, n) &&
    (forall j :: 0 <= j < |s.stack| ==> Unmatched(s, j, tags)) &&
    (forall a :: 0 <= a < |s.pairs| ==> PairOk(s.pairs[a], tags, n)) &&
    (forall a, b :: 0 <= a < b < |s.pairs| ==> OneUse(s.pairs[a], s.pairs[b]))
  }

  /** A stacked tag is an opener that no pair uses. */
  ghost predicate Unmatched(s: State, j: nat, tags: seq<Tag>)
    requires j < |s.stack|
  {
    s.stack[j] < |tags| && !tags[s.stack[j]].isSelfClosing && !tags[s.stack[j]].isClosing &&
    forall a :: 0 <= a < |s.pairs| ==> s.pairs[a].open != s.stack[j]
  }

  lemma StepKeepsPairsOk(s: State, tags: seq<Tag>, k: nat)
    requires k < |tags| && PairsOk(s, tags, k)
    ensures PairsOk(Step(s, tags, k), tags, k + 1)
  {
    hide Lower;
    var tag, s' := tags[k], Step(s, tags, k);
    forall a | 0 <= a < |s.pairs|
      ensures PairOk(s.pairs[a], tags, k + 1) && s.pairs[a].open < k && s.pairs[a].close < k
    {
      assert PairOk(s.pairs[a], tags, k);
    }
    if tag.isSelfClosing {
      assert forall j :: 0 <= j < |s.stack| ==> Unmatched(s, j, tags) ==> Unmatched(s', j, tags);
    } else if tag.isClosing {
      var i := Topmost(s.stack, tags, Lower(tag.tagName));
      if i >= 0 {
        assert Unmatched(s, i, tags);
        forall j | 0 <= j < |s'.stack|
          ensures Unmatched(s', j, tags)
        {
          assert Unmatched(s, if j < i then j else j + 1, tags);
        }
      }
    } else {
      forall j | 0 <= j < |s'.stack|
        ensures Unmatched(s', j, tags)
      {
        if j < |s.stack| {
          assert Unmatched(s, j, tags);
        }
      }
    }
  }

  /** Each tag is used at most once; a pair is an opener and a later closer of the same name,
      case ignored. */
  lemma {:induction false} EachTagOnce(tags: seq<Tag>, n: nat)
    requires n <= |tags|
    ensures PairsOk(After(tags, n), tags, n)
    decreases n
  {
    hide Step, PairsOk;
    if n == 0 {
      NoTagsOk(tags);
    } else {
      EachTagOnce(tags, n - 1);
      StepKeepsPairsOk(After(tags, n - 1), tags, n - 1);
    }
  }

  lemma NoTagsOk(tags: seq<Tag>)
    ensures PairsOk(State([], [], []), tags, 0)
  {
  }

  /** No tag is dropped: self-closing ones are listed in order, openers are in a pair or stay open. */
  ghost predicate Accounted(s: State, tags: seq<Tag>, n: nat) {
    && n <= |tags|
    && (forall t: nat :: t < n && !tags[t].isSelfClosing && !tags[t].isClosing ==> t in s.stack || Opened(s.pairs, t))
    && (forall t: nat :: t in s.voidElements <==> t < n && tags[t].isSelfClosing)
    && Increasing(s.voidElements, n)
  }

  ghost predicate Opened(ps: seq<Pair>, t: nat) {
    exists a :: 0 <= a < |ps| && ps[a].open == t
  }

  lemma PopAccounts(s: State, i: nat, k: nat, t: nat)
    requires i < |s.stack| && (t in s.stack || Opened(s.pairs, t))
    ensures t in Without(s.stack, i) || Opened(s.pairs + [Pair(s.stack[i], k)], t)
  {
    var ps := s.pairs + [Pair(s.stack[i], k)];
    assert ps[|s.pairs|].open == s.stack[i];
    if t in s.stack {
      var j :| 0 <= j < |s.stack| && s.stack[j] == t;
      if j != i {
        assert Without(s.stack, i)[if j < i then j else j - 1] == t;
      }
    } else {
      var a :| 0 <= a < |s.pairs| && s.pairs[a].open == t;
      assert ps[a].open == t;
    }
  }

  lemma StepAccounts(s: State, tags: seq<Tag>, k: nat)
    requires k < |tags| && Accounted(s, tags, k)
    ensures Accounted(Step(s, tags, k), tags, k + 1)
  {
    hide Lower, Opened, Named;
    var i := Topmost(s.stack, tags, Lower(tags[k].tagName));
    if !tags[k].isSelfClosing && tags[k].isClosing && i >= 0 {
      forall t: nat | t < k && !tags[t].isSelfClosing && !tags[t].isClosing
        ensures t in Without(s.stack, i) || Opened(s.pairs + [Pair(s.stack[i], k)], t)
      {
        PopAccounts(s, i, k, t);
      }
    }
  }

  lemma {:induction false} NoTagDropped(tags: seq<Tag>, n: nat)
    requires n <= |tags|
    ensures Accounted(After(tags, n), tags, n)
    decreases n
  {
    hide Step, Opened;
    if n > 0 {
      NoTagDropped(tags, n - 1);
      StepAccounts(After(tags, n - 1), tags, n - 1);
    }
  }

  /** Names match if they are the same letter by letter, capital or not. */
  lemma {:induction false} SameNameIff(a: string, b: string)
    ensures Lower(a) == Lower(b) <==> |a| == |b| && forall i :: 0 <= i < |a| ==> SameLetter(a[i], b[i])
    decreases |a|
  {
    hide LowerChar, SameLetter;
    if a != "" && b != "" {
      SameNameIff(a[1..], b[1..]);
      SameLetterIff(a[0], b[0]);
      assert forall i :: 1 <= i < |a| && |a| == |b| ==> a[i] == a[1..][i - 1] && b[i] == b[1..][i - 1];
      assert Lower(a)[1..] == Lower(a[1..]) && Lower(b)[1..] == Lower(b[1..]);
      assert Lower(a)[0] == LowerChar(a[0]) && Lower(b)[0] == LowerChar(b[0]);
    }
  }

  predicate SameLetter(c: char, d: char) {
    c == d || ('A' <= c <= 'Z' && d as int == c as int + 32) || ('A' <= d <= 'Z' && c as int == d as int + 32)
  }

  lemma SameLetterIff(c: char, d: char)
    ensures LowerChar(c) == LowerChar(d) <==> SameLetter(c, d)
  {
  }

  // ----- Nesting, per name -----

  predicate Uses(p: Pair, t: nat) {
    p.open == t || p.close == t
  }

  /** `t` belongs to a pair lying strictly inside `(lo, hi)`. */
  ghost predicate PairedWithin(ps: seq<Pair>, t: nat, lo: int, hi: int) {
    exists a :: 0 <= a < |ps| && Uses(ps[a], t) && lo < ps[a].open && ps[a].close < hi && ps[a].open < ps[a].close
  }

  /** All tags of the name strictly inside a pair are matched among themselves. */
  ghost predicate PerfectInside(ps: seq<Pair>, tags: seq<Tag>, name: string, p: Pair) {
    forall t: nat :: p.open < t < p.close && Named(tags, t, name) ==> PairedWithin(ps, t, p.open, p.close)
  }

  /** Every tag of the name after an opener that is still open is open too or in a pair after it. */
  ghost predicate SettledAfter(c: Classic, tags: seq<Tag>, name: string, s: nat, n: nat) {
    forall t: nat :: s < t < n && Named(tags, t, name) ==> t in c.stack || PairedWithin(c.pairs, t, s, n)
  }

  ghost predicate Nested(c: Classic, tags: seq<Tag>, name: string, n: nat) {
    Increasing(c.stack, n) &&
    (forall j :: 0 <= j < |c.stack| ==> SettledAfter(c, tags, name, c.stack[j], n)) &&
    (forall a :: 0 <= a < |c.pairs| ==> PerfectInside(c.pairs, tags, name, c.pairs[a]))
  }

  lemma MorePairs(ps: seq<Pair>, q: Pair, t: nat, lo: int, hi: int, hi': int)
    requires PairedWithin(ps, t, lo, hi) && hi <= hi'
    ensures PairedWithin(ps + [q], t, lo, hi') && PairedWithin(ps, t, lo, hi')
  {
    var a :| 0 <= a < |ps| && Uses(ps[a], t) && lo < ps[a].open && ps[a].close < hi && ps[a].open < ps[a].close;
    assert (ps + [q])[a] == ps[a];
  }

  lemma MorePairsInside(ps: seq<Pair>, q: Pair, tags: seq<Tag>, name: string, p: Pair)
    requires PerfectInside(ps, tags, name, p)
    ensures PerfectInside(ps + [q], tags, name, p)
  {
    hide Named, PairedWithin;
    forall t: nat | p.open < t < p.close && Named(tags, t, name)
      ensures PairedWithin(ps + [q], t, p.open, p.close)
    {
      MorePairs(ps, q, t, p.open, p.close, p.close);
    }
  }

  lemma SkipKeepsSettled(c: Classic, tags: seq<Tag>, name: string, s: nat, k: nat)
    requires SettledAfter(c, tags, name, s, k)
    ensures !Named(tags, k, name) ==> SettledAfter(c, tags, name, s, k + 1)
    ensures SettledAfter(c.(stack := c.stack + [k]), tags, name, s, k + 1)
  {
  }

  lemma PopKeepsSettled(c: Classic, tags: seq<Tag>, name: string, s: nat, k: nat)
    requires c.stack != [] && Increasing(c.stack, k) && SettledAfter(c, tags, name, s, k)
    requires s < c.stack[|c.stack| - 1]
    ensures var top := c.stack[|c.stack| - 1];
      SettledAfter(Classic(c.stack[..|c.stack| - 1], c.pairs + [Pair(top, k)]), tags, name, s, k + 1)
  {
    hide Named, PairedWithin;
    var top := c.stack[|c.stack| - 1];
    var c' := Classic(c.stack[..|c.stack| - 1], c.pairs + [Pair(top, k)]);
    assert PairedWithin(c'.pairs, top, s, k + 1) && PairedWithin(c'.pairs, k, s, k + 1) by {
      NewPairWithin(c.pairs, Pair(top, k), s, k + 1);
    }
    forall t: nat | s < t < k && Named(tags, t, name)
      ensures t in c'.stack || PairedWithin(c'.pairs, t, s, k + 1)
    {
      if t !in c.stack {
        MorePairs(c.pairs, Pair(top, k), t, s, k, k + 1);
      }
    }
  }

  lemma NewPairWithin(ps: seq<Pair>, q: Pair, lo: int, hi: int)
    requires lo < q.open < q.close < hi
    ensures PairedWithin(ps + [q], q.open, lo, hi) && PairedWithin(ps + [q], q.close, lo, hi)
  {
    assert (ps + [q])[|ps|] == q;
  }

  lemma PopIsPerfect(c: Classic, tags: seq<Tag>, name: string, k: nat)
    requires c.stack != [] && Increasing(c.stack, k) && SettledAfter(c, tags, name, c.stack[|c.stack| - 1], k)
    ensures var p := Pair(c.stack[|c.stack| - 1], k); PerfectInside(c.pairs + [p], tags, name, p)
  {
    hide Named, PairedWithin;
    var p := Pair(c.stack[|c.stack| - 1], k);
    forall t: nat | p.open < t < p.close && Named(tags, t, name)
      ensures PairedWithin(c.pairs + [p], t, p.open, p.close)
    {
      MorePairs(c.pairs, p, t, p.open, k, k);
    }
  }

  lemma PopKeepsNested(c: Classic, tags: seq<Tag>, name: string, k: nat)
    requires c.stack != [] && Nested(c, tags, name, k)
    ensures var top := c.stack[|c.stack| - 1];
      Nested(Classic(c.stack[..|c.stack| - 1], c.pairs + [Pair(top, k)]), tags, name, k + 1)
  {
    hide SettledAfter, PerfectInside;
    var top := c.stack[|c.stack| - 1];
    var c' := Classic(c.stack[..|c.stack| - 1], c.pairs + [Pair(top, k)]);
    PopIsPerfect(c, tags, name, k);
    forall j | 0 <= j < |c'.stack|
      ensures SettledAfter(c', tags, name, c'.stack[j], k + 1)
    {
      PopKeepsSettled(c, tags, name, c.stack[j], k);
    }
    forall a | 0 <= a < |c'.pairs|
      ensures PerfectInside(c'.pairs, tags, name, c'.pairs[a])
    {
      if a < |c.pairs| {
        MorePairsInside(c.pairs, Pair(top, k), tags, name, c.pairs[a]);
      }
    }
  }

  lemma {:induction false} BracketsNest(tags: seq<Tag>, name: string, n: nat)
    requires n <= |tags|
    ensures Nested(Brackets(tags, name, n), tags, name, n)
    decreases n
  {
    hide SettledAfter, PerfectInside, Named;
    if n > 0 {
      var c, k := Brackets(tags, name, n - 1), n - 1;
      BracketsNest(tags, name, k);
      if Named(tags, k, name) && tags[k].isClosing && c.stack != [] {
        PopKeepsNested(c, tags, name, k);
      } else {
        forall j | 0 <= j < |c.stack|
          ensures !Named(tags, k, name) ==> SettledAfter(c, tags, name, c.stack[j], k + 1)
          ensures SettledAfter(c.(stack := c.stack + [k]), tags, name, c.stack[j], k + 1)
        {
          SkipKeepsSettled(c, tags, name, c.stack[j], k);
        }
        NothingAfter(c.(stack := c.stack + [k]), tags, name, k);
      }
    }
  }

  lemma NothingAfter(c: Classic, tags: seq<Tag>, name: string, k: nat)
    ensures SettledAfter(c, tags, name, k, k + 1)
  {
  }

  // ----- The result of the matcher -----

  lemma {:induction false} OfNameMembers(s: seq<nat>, ps: seq<Pair>, tags: seq<Tag>, name: string)
    ensures forall t :: t in OfName(s, tags, name) <==> t in s && Named(tags, t, name)
    ensures forall p :: p in PairsOfName(ps, tags, name) <==> p in ps && Named(tags, p.close, name)
    decreases |s| + |ps|
  {
    hide Named;
    if s != [] {
      OfNameMembers(s[..|s| - 1], ps, tags, name);
      assert s == s[..|s| - 1] + [s[|s| - 1]];
    }
    if ps != [] {
      OfNameMembers(s, ps[..|ps| - 1], tags, name);
      assert ps == ps[..|ps| - 1] + [ps[|ps| - 1]];
    }
  }

  lemma WithinAll(ps: seq<Pair>, tags: seq<Tag>, name: string, t: nat, lo: int, hi: int)
    requires PairedWithin(PairsOfName(ps, tags, name), t, lo, hi)
    ensures PairedWithin(ps, t, lo, hi)
  {
    hide Named, PairsOfName;
    var mine := PairsOfName(ps, tags, name);
    var a :| 0 <= a < |mine| && Uses(mine[a], t) && lo < mine[a].open && mine[a].close < hi
             && mine[a].open < mine[a].close;
    OfNameMembers([], ps, tags, name);
    assert mine[a] in ps;
    var b :| 0 <= b < |ps| && ps[b] == mine[a];
    assert Uses(ps[b], t);
  }

  /** Same-name tags strictly between the two tags of a pair are matched among themselves. */
  lemma PairsNestPerfectly(tags: seq<Tag>, p: Pair)
    requires p in After(tags, |tags|).pairs
    ensures p.close < |tags| && PerfectInside(After(tags, |tags|).pairs, tags, Lower(tags[p.close].tagName), p)
  {
    hide *;
    EachTagOnce(tags, |tags|);
    PairIsOk(After(tags, |tags|), tags, p);
    NestedForName(tags, p, Lower(tags[p.close].tagName));
  }

  lemma PairIsOk(s: State, tags: seq<Tag>, p: Pair)
    requires PairsOk(s, tags, |tags|) && p in s.pairs
    ensures PairOk(p, tags, |tags|) && p.close < |tags| && Named(tags, p.close, Lower(tags[p.close].tagName))
  {
  }

  lemma NestedForName(tags: seq<Tag>, p: Pair, name: string)
    requires p in After(tags, |tags|).pairs && Named(tags, p.close, name)
    ensures PerfectInside(After(tags, |tags|).pairs, tags, name, p)
  {
  }

  lemma StackedIsOpener(s: State, tags: seq<Tag>, o: nat)
    requires PairsOk(s, tags, |tags|) && o in s.stack
    ensures Named(tags, o, Lower(tags[o].tagName)) && !tags[o].isClosing
  {
    var j :| 0 <= j < |s.stack| && s.stack[j] == o;
    assert Unmatched(s, j, tags);
  }

  /** No closer is left out while an opener of its name before it stays unmatched: every closer
      of that name after an unmatched opener is in a pair after it. */
  lemma ClosersFindTheirOpener(tags: seq<Tag>, o: nat, t: nat)
    requires o in After(tags, |tags|).stack && o < |tags|
    requires o < t < |tags| && Named(tags, t, Lower(tags[o].tagName)) && tags[t].isClosing
    ensures PairedWithin(After(tags, |tags|).pairs, t, o, |tags|)
  {
    hide *;
    EachTagOnce(tags, |tags|);
    StackedIsOpener(After(tags, |tags|), tags, o);
    SettledForName(tags, o, t, Lower(tags[o].tagName));
  }

  lemma SettledForName(tags: seq<Tag>, o: nat, t: nat, name: string)
    requires o in After(tags, |tags|).stack && Named(tags, o, name)
    requires o < t < |tags| && Named(tags, t, name) && tags[t].isClosing
    ensures PairedWithin(After(tags, |tags|).pairs, t, o, |tags|)
  {
    hide Named, PairedWithin, After, Brackets, OfName, PairsOfName, PairsOk;
    var n := |tags|;
    var s, c := After(tags, n), Brackets(tags, name, n);
    EachTagOnce(tags, n);
    MatchingIsClassic(tags, name, n);
    BracketsNest(tags, name, n);
    OfNameMembers(s.stack, s.pairs, tags, name);
    assert o in c.stack;
    if t in c.stack {
      StackedIsOpener(s, tags, t);
    }
    WithinAll(s.pairs, tags, name, t, o, n);
  }
}
