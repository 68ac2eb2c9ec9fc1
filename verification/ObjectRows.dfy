/** From objects to index rows: `processObjectsToKVs` in `client/data/object_index.ts`. Tag
    definitions are given by two functions: whether an object passes the validation that applies
    to a tag, and what the tag's transform makes of it. */
module ObjectRows {
  import opened KeyCodec
  import opened KvStores
  import opened ObjectIndex
  import opened Options

  datatype Obj<P> = Obj(ref: Str, tag: Str, tags: seq<Str>, payload: P)

  /** No transform, or one that returns nothing; one that throws; or its results. */
  datatype Transform<P> = Nothing | Throws | Gives(objects: seq<Obj<P>>)

  /** `strict` throws where validation fails; otherwise the tag is skipped. */
  datatype Tagging<!P> = Tagging(valid: (Str, Obj<P>) -> bool, transform: (Str, Obj<P>) -> Transform<P>, strict: bool)

  /** An object on its way through its tags: its present value, the tags to write it under and
      the other objects that transforms have made. */
  datatype Pass<P> = Failed | Pass(current: Obj<P>, write: seq<Str>, more: seq<Obj<P>>)

  function TagsOf<P>(o: Obj<P>): seq<Str> { [o.tag] + o.tags }

  /** The last of the results that have this reference. */
  function LastSame<P>(current: Obj<P>, results: seq<Obj<P>>): Obj<P>
    decreases |results|
  {
    if results == [] then current
    else
      var last := results[|results| - 1];
      if last.ref != [] && last.ref == current.ref then last else LastSame(current, results[..|results| - 1])
  }

  function Others<P>(ref: Str, results: seq<Obj<P>>): seq<Obj<P>>
    decreases |results|
  {
    if results == [] then []
    else
      var last := results[|results| - 1];
      Others(ref, results[..|results| - 1]) + if last.ref != [] && last.ref != ref then [last] else []
  }

  predicate HasSame<P>(ref: Str, results: seq<Obj<P>>) {
    ref != [] && exists i :: 0 <= i < |results| && results[i].ref == ref
  }

  function OneTag<P>(p: Pass<P>, tag: Str, tagging: Tagging<P>): Pass<P> {
    if p.Failed? then Failed
    else if !tagging.valid(tag, p.current) then
      if tagging.strict then Failed else p
    else match tagging.transform(tag, p.current)
      case Nothing => p.(write := p.write + [tag])
      case Throws => Failed
      case Gives(results) =>
        if results != [] && !HasSame(p.current.ref, results) then Failed
        else Pass(LastSame(p.current, results), p.write + [tag], p.more + Others(p.current.ref, results))
  }

  /** The pass of an object through its first `n` tags. */
  function PassUpTo<P>(o: Obj<P>, n: nat, tagging: Tagging<P>): Pass<P>
    requires n <= |TagsOf(o)|
    decreases n
  {
    if n == 0 then Pass(o, [], []) else OneTag(PassUpTo(o, n - 1, tagging), TagsOf(o)[n - 1], tagging)
  }

  function WholePass<P>(o: Obj<P>, tagging: Tagging<P>): Pass<P> {
    PassUpTo(o, |TagsOf(o)|, tagging)
  }

  lemma {:induction false} OthersIff<P>(ref: Str, results: seq<Obj<P>>, o: Obj<P>)
    ensures o in Others(ref, results) <==> o in results && o.ref != [] && o.ref != ref
    decreases |results|
  {
    if results != [] {
      OthersIff(ref, results[..|results| - 1], o);
    }
  }

  lemma {:induction false} LastSameRef<P>(current: Obj<P>, results: seq<Obj<P>>)
    ensures LastSame(current, results).ref == current.ref
    ensures LastSame(current, results) == current || LastSame(current, results) in results
    decreases |results|
  {
    if results != [] {
      LastSameRef(current, results[..|results| - 1]);
    }
  }

  /** Transforms never change an object's reference, and what they add has other references. */
  lemma {:induction false} PassKeepsRef<P>(o: Obj<P>, n: nat, tagging: Tagging<P>)
    requires n <= |TagsOf(o)| && PassUpTo(o, n, tagging).Pass?
    ensures var p := PassUpTo(o, n, tagging);
      p.current.ref == o.ref && (forall x :: x in p.more ==> x.ref != [] && x.ref != o.ref) &&
      forall t :: t in p.write ==> t in TagsOf(o)
    decreases n
  {
    hide TagsOf;
    if n > 0 {
      PassKeepsRef(o, n - 1, tagging);
      var p := PassUpTo(o, n - 1, tagging);
      var t := tagging.transform(TagsOf(o)[n - 1], p.current);
      if t.Gives? {
        LastSameRef(p.current, t.objects);
        forall x | x in Others(o.ref, t.objects)
          ensures x.ref != [] && x.ref != o.ref
        {
          OthersIff(o.ref, t.objects, x);
        }
      }
    }
  }

  /** When validation failures throw, an object that gets through is written under all its tags. */
  lemma {:induction false} StrictWritesAllTags<P>(o: Obj<P>, n: nat, tagging: Tagging<P>)
    requires n <= |TagsOf(o)| && PassUpTo(o, n, tagging).Pass? && tagging.strict
    ensures PassUpTo(o, n, tagging).write == TagsOf(o)[..n]
    decreases n
  {
    hide TagsOf;
    if n > 0 {
      StrictWritesAllTags(o, n - 1, tagging);
    }
  }

  // ----- A pass, told by the values an object goes through -----

  /** `next` is the last of the results with this reference. */
  ghost predicate LastWith<P>(results: seq<Obj<P>>, ref: Str, next: Obj<P>) {
    exists j :: 0 <= j < |results| && results[j] == next && next.ref == ref &&
      forall k :: j < k < |results| ==> results[k].ref != ref
  }

  /** What a tag makes of the present value: skipped if it is not valid for the tag; as it is without
      results; otherwise the last result with its reference. */
  ghost predicate TagStep<P>(value: Obj<P>, next: Obj<P>, tag: Str, tagging: Tagging<P>) {
    if !tagging.valid(tag, value) then !tagging.strict && next == value
    else match tagging.transform(tag, value)
      case Nothing => next == value
      case Throws => false
      case Gives(results) =>
        if results == [] then next == value else value.ref != [] && LastWith(results, value.ref, next)
  }

  /** The object goes through `values`, one for each tag so far. */
  ghost predicate Chain<P>(o: Obj<P>, values: seq<Obj<P>>, tagging: Tagging<P>) {
    0 < |values| <= |TagsOf(o)| + 1 && values[0] == o &&
    forall i :: 0 <= i < |values| - 1 ==> TagStep(values[i], values[i + 1], TagsOf(o)[i], tagging)
  }

  /** The tags for which the value of their turn is valid, in order. */
  ghost function ValidTags<P>(tags: seq<Str>, values: seq<Obj<P>>, n: nat, tagging: Tagging<P>): seq<Str>
    requires n <= |tags| && n <= |values|
  {
    if n == 0 then []
    else
      var valid := tagging.valid(tags[n - 1], values[n - 1]);
      ValidTags(tags, values, n - 1, tagging) + if valid then [tags[n - 1]] else []
  }

  lemma {:induction false} ValidTagsFront<P>(tags: seq<Str>, values: seq<Obj<P>>, m: nat, n: nat, tagging: Tagging<P>)
    requires n <= |tags| && n <= m <= |values|
    ensures ValidTags(tags, values[..m], n, tagging) == ValidTags(tags, values, n, tagging)
    decreases n
  {
    if n > 0 {
      ValidTagsFront(tags, values, m, n - 1, tagging);
    }
  }

  lemma {:induction false} LastSameIs<P>(current: Obj<P>, results: seq<Obj<P>>, next: Obj<P>)
    requires LastWith(results, current.ref, next) && current.ref != []
    ensures LastSame(current, results) == next && HasSame(current.ref, results)
    decreases |results|
  {
    var n := |results| - 1;
    var j :| 0 <= j < |results| && results[j] == next && next.ref == current.ref &&
      forall k :: j < k < |results| ==> results[k].ref != current.ref;
    if j < n {
      assert results[..n][j] == next;
      LastSameIs(current, results[..n], next);
    }
  }

  lemma {:induction false} LastSameLast<P>(current: Obj<P>, results: seq<Obj<P>>)
    requires HasSame(current.ref, results)
    ensures LastWith(results, current.ref, LastSame(current, results))
    decreases |results|
  {
    var n := |results| - 1;
    if results[n].ref != current.ref {
      var i :| 0 <= i < |results| && results[i].ref == current.ref;
      assert results[..n][i] == results[i];
      LastSameLast(current, results[..n]);
      LastWithBehind(results, current.ref, LastSame(current, results[..n]));
    }
  }

  lemma LastWithBehind<P>(results: seq<Obj<P>>, ref: Str, next: Obj<P>)
    requires results != [] && results[|results| - 1].ref != ref && LastWith(results[..|results| - 1], ref, next)
    ensures LastWith(results, ref, next)
  {
    var n := |results| - 1;
    var j :| 0 <= j < n && results[..n][j] == next && forall k :: j < k < n ==> results[..n][k].ref != ref;
    assert results[j] == next;
    assert forall k :: j < k < n ==> results[k] == results[..n][k];
  }

  lemma OneTagIff<P>(p: Pass<P>, tag: Str, tagging: Tagging<P>, next: Obj<P>)
    requires p.Pass?
    ensures TagStep(p.current, next, tag, tagging) <==>
      OneTag(p, tag, tagging).Pass? && OneTag(p, tag, tagging).current == next
    ensures OneTag(p, tag, tagging).Pass? ==>
      OneTag(p, tag, tagging).write == p.write + if tagging.valid(tag, p.current) then [tag] else []
  {
    hide HasSame, LastWith;
    if tagging.valid(tag, p.current) && tagging.transform(tag, p.current).Gives? {
      var results := tagging.transform(tag, p.current).objects;
      if HasSame(p.current.ref, results) {
        LastSameLast(p.current, results);
        SomeSame(p.current.ref, results);
      }
      if results == [] {
        NoneSame(p.current.ref, results);
      }
      if p.current.ref != [] && LastWith(results, p.current.ref, next) {
        LastSameIs(p.current, results, next);
      }
    }
  }

  lemma SomeSame<P>(ref: Str, results: seq<Obj<P>>)
    requires HasSame(ref, results)
    ensures ref != [] && results != []
  {
  }

  lemma NoneSame<P>(ref: Str, results: seq<Obj<P>>)
    requires results == []
    ensures !HasSame(ref, results)
  {
  }

  /** A pass gets through exactly if there is such a chain of values; the last one is its result, and
      the tags to write are those for which the value of their turn was valid. */
  lemma {:induction false} PassOfChain<P>(o: Obj<P>, values: seq<Obj<P>>, tagging: Tagging<P>)
    requires Chain(o, values, tagging)
    ensures var n := |values| - 1; var p := PassUpTo(o, n, tagging);
      p.Pass? && p.current == values[n] && p.write == ValidTags(TagsOf(o), values, n, tagging)
    decreases |values|
  {
    hide OneTag, TagStep, TagsOf;
    var n := |values| - 1;
    if n > 0 {
      PassOfChain(o, values[..n], tagging);
      ValidTagsFront(TagsOf(o), values, n, n - 1, tagging);
      var p, tag := PassUpTo(o, n - 1, tagging), TagsOf(o)[n - 1];
      assert p.current == values[n - 1] && TagStep(values[n - 1], values[n - 1 + 1], tag, tagging);
      OneTagIff(p, tag, tagging, values[n]);
    }
  }

  lemma {:induction false} ChainOfPass<P>(o: Obj<P>, n: nat, tagging: Tagging<P>) returns (values: seq<Obj<P>>)
    requires n <= |TagsOf(o)| && PassUpTo(o, n, tagging).Pass?
    ensures |values| == n + 1 && Chain(o, values, tagging)
    decreases n
  {
    hide OneTag, TagStep, TagsOf;
    if n == 0 {
      values := [o];
    } else {
      OneTagFails(PassUpTo(o, n - 1, tagging), TagsOf(o)[n - 1], tagging);
      var front := ChainOfPass(o, n - 1, tagging);
      PassOfChain(o, front, tagging);
      var next := PassUpTo(o, n, tagging).current;
      OneTagIff(PassUpTo(o, n - 1, tagging), TagsOf(o)[n - 1], tagging, next);
      values := front + [next];
      forall i | 0 <= i < n
        ensures TagStep(values[i], values[i + 1], TagsOf(o)[i], tagging)
      {
        if i < n - 1 {
          assert TagStep(front[i], front[i + 1], TagsOf(o)[i], tagging);
        }
      }
    }
  }

  /** A whole pass takes the object's own tag first, and then all its other tags. */
  lemma WholePassTakesAllTags<P>(o: Obj<P>, tagging: Tagging<P>) returns (values: seq<Obj<P>>)
    requires WholePass(o, tagging).Pass?
    ensures |values| == |o.tags| + 2 && values[0] == o && values[|o.tags| + 1] == WholePass(o, tagging).current
    ensures TagStep(values[0], values[1], o.tag, tagging)
    ensures forall i :: 0 <= i < |o.tags| ==> TagStep(values[i + 1], values[i + 2], o.tags[i], tagging)
  {
    hide OneTag, TagStep;
    values := ChainOfPass(o, |TagsOf(o)|, tagging);
    PassOfChain(o, values, tagging);
    forall i | 0 <= i < |o.tags|
      ensures TagStep(values[i + 1], values[i + 1 + 1], o.tags[i], tagging)
    {
      assert TagsOf(o)[i + 1] == o.tags[i];
    }
  }

  /** The tag's transform makes this other object of the value. */
  ghost predicate Makes<P>(value: Obj<P>, tag: Str, x: Obj<P>, tagging: Tagging<P>) {
    tagging.valid(tag, value) && tagging.transform(tag, value).Gives? &&
    x in tagging.transform(tag, value).objects && x.ref != [] && x.ref != value.ref
  }

  lemma OneTagMakes<P>(p: Pass<P>, tag: Str, tagging: Tagging<P>, x: Obj<P>)
    requires p.Pass? && OneTag(p, tag, tagging).Pass?
    ensures x in OneTag(p, tag, tagging).more <==> x in p.more || Makes(p.current, tag, x, tagging)
  {
    hide HasSame;
    if tagging.transform(tag, p.current).Gives? {
      OthersIff(p.current.ref, tagging.transform(tag, p.current).objects, x);
    }
  }

  /** And it queues the other objects that the transforms make on the way. */
  lemma {:induction false} ChainMakes<P>(o: Obj<P>, values: seq<Obj<P>>, tagging: Tagging<P>, x: Obj<P>)
    requires Chain(o, values, tagging)
    ensures PassUpTo(o, |values| - 1, tagging).Pass?
    ensures x in PassUpTo(o, |values| - 1, tagging).more <==>
      exists i :: 0 <= i < |values| - 1 && Makes(values[i], TagsOf(o)[i], x, tagging)
    decreases |values|
  {
    hide OneTag, TagStep, TagsOf, Makes;
    PassOfChain(o, values, tagging);
    var n := |values| - 1;
    if n > 0 {
      ChainMakes(o, values[..n], tagging, x);
      PassOfChain(o, values[..n], tagging);
      OneTagMakes(PassUpTo(o, n - 1, tagging), TagsOf(o)[n - 1], tagging, x);
      assert forall i :: 0 <= i < n ==> values[..n][i] == values[i];
      if i :| 0 <= i < n - 1 && Makes(values[..n][i], TagsOf(o)[i], x, tagging) {
        assert Makes(values[i], TagsOf(o)[i], x, tagging);
      }
    }
  }

  lemma OneTagFails<P>(p: Pass<P>, tag: Str, tagging: Tagging<P>)
    ensures p.Failed? ==> OneTag(p, tag, tagging).Failed?
  {
  }

  /** The other results stay in order. */
  lemma {:induction false} OthersConcat<P>(ref: Str, xs: seq<Obj<P>>, ys: seq<Obj<P>>)
    ensures Others(ref, xs + ys) == Others(ref, xs) + Others(ref, ys)
    ensures forall x: Obj<P> {:trigger Others(ref, [x])} ::
      Others(ref, [x]) == if x.ref != [] && x.ref != ref then [x] else []
    decreases |ys|
  {
    if ys == [] {
      assert xs + ys == xs;
    } else {
      assert (xs + ys)[..|xs + ys| - 1] == xs + ys[..|ys| - 1];
      OthersConcat(ref, xs, ys[..|ys| - 1]);
    }
  }

  /** The passes of an object's tags, stopping at the first failure. */
  method ProcessObject<P>(o: Obj<P>, tagging: Tagging<P>) returns (p: Pass<P>)
    ensures p == WholePass(o, tagging)
  {
    hide HasSame;
    var current, write, more := o, [], [];
    var allTags := [o.tag] + o.tags;
    for i := 0 to |allTags|
      invariant PassUpTo(o, i, tagging) == Pass(current, write, more)
    {
      var tag := allTags[i];
      if !tagging.valid(tag, current) {
        if tagging.strict {
          FailureLasts(o, i + 1, |allTags|, tagging);
          return Failed;
        }
        continue;
      }
      var transformed := tagging.transform(tag, current);
      if transformed.Throws? {
        FailureLasts(o, i + 1, |allTags|, tagging);
        return Failed;
      }
      if transformed.Gives? {
        var now, added, found := AdoptResults(current, transformed.objects);
        if !found && transformed.objects != [] {
          FailureLasts(o, i + 1, |allTags|, tagging);
          return Failed;
        }
        current, more := now, more + added;
      }
      write := write + [tag];
    }
    return Pass(current, write, more);
  }

  method AdoptResults<P>(current: Obj<P>, results: seq<Obj<P>>) returns (now: Obj<P>, added: seq<Obj<P>>, found: bool)
    ensures now == LastSame(current, results) && added == Others(current.ref, results)
    ensures found == HasSame(current.ref, results)
  {
    now, added, found := current, [], false;
    for i := 0 to |results|
      invariant now == LastSame(current, results[..i]) && now.ref == current.ref
      invariant added == Others(current.ref, results[..i])
      invariant found == HasSame(current.ref, results[..i])
    {
      assert results[..i + 1][..i] == results[..i];
      if results[i].ref == [] {
        continue;
      }
      if results[i].ref == now.ref {
        now, found := results[i], true;
        assert results[..i + 1][i].ref == current.ref;
      } else {
        added := added + [results[i]];
      }
    }
    assert results[..|results|] == results;
  }

  lemma {:induction false} FailureLasts<P>(o: Obj<P>, i: nat, n: nat, tagging: Tagging<P>)
    requires i <= n <= |TagsOf(o)| && PassUpTo(o, i, tagging).Failed?
    ensures PassUpTo(o, n, tagging).Failed?
    decreases n
  {
    if i < n {
      FailureLasts(o, i, n - 1, tagging);
    }
  }

  // ----- The work list -----

  /** What is left to do, the rows made, and the passes they come from. */
  datatype Work<P> = Aborted | Work(queue: seq<Obj<P>>, kvs: seq<KV<Obj<P>>>, passes: seq<Pass<P>>)

  function RowsOf<P>(page: Str, p: Pass<P>, n: nat): seq<KV<Obj<P>>>
    requires p.Pass? && n <= |p.write|
  {
    seq(n, i requires 0 <= i < n => KV([p.write[i], CleanKey(p.current.ref, page)], p.current))
  }

  function WorkStep<P>(w: Work<P>, page: Str, tagging: Tagging<P>): Work<P> {
    if w.Aborted? || w.queue == [] then w
    else
      var o := w.queue[0];
      if o.tag == [] then w.(queue := w.queue[1..])
      else
        var p := WholePass(o, tagging);
        if p.Failed? then Aborted
        else Work(w.queue[1..] + p.more, w.kvs + RowsOf(page, p, |p.write|), w.passes + [p])
  }

  function WorkAfter<P>(objects: seq<Obj<P>>, n: nat, page: Str, tagging: Tagging<P>): Work<P> {
    if n == 0 then Work(objects, [], []) else WorkStep(WorkAfter(objects, n - 1, page, tagging), page, tagging)
  }

  /** Up to `n` objects of the work list: transforms may add to it without end. */
  method ProcessObjectsToKVs<P>(objects: seq<Obj<P>>, n: nat, page: Str, tagging: Tagging<P>) returns (w: Work<P>)
    ensures w == WorkAfter(objects, n, page, tagging)
  {
    hide WholePass;
    w := Work(objects, [], []);
    for k := 0 to n
      invariant w.Work? && w == WorkAfter(objects, k, page, tagging)
    {
      if w.queue == [] {
        NothingLeft(objects, k, n, page, tagging);
        return;
      }
      var o := w.queue[0];
      if o.tag == [] {
        w := w.(queue := w.queue[1..]);
        continue;
      }
      var p := ProcessObject(o, tagging);
      if p.Failed? {
        AbortLasts(objects, k + 1, n, page, tagging);
        return Aborted;
      }
      var rows := [];
      for i := 0 to |p.write|
        invariant rows == RowsOf(page, p, i)
      {
        rows := rows + [KV([p.write[i], CleanKey(p.current.ref, page)], p.current)];
      }
      w := Work(w.queue[1..] + p.more, w.kvs + rows, w.passes + [p]);
    }
  }

  lemma {:induction false} NothingLeft<P>(objects: seq<Obj<P>>, k: nat, n: nat, page: Str, tagging: Tagging<P>)
    requires k <= n && WorkAfter(objects, k, page, tagging).Work? && WorkAfter(objects, k, page, tagging).queue == []
    ensures WorkAfter(objects, n, page, tagging) == WorkAfter(objects, k, page, tagging)
    decreases n
  {
    if k < n {
      NothingLeft(objects, k, n - 1, page, tagging);
    }
  }

  lemma {:induction false} AbortLasts<P>(objects: seq<Obj<P>>, k: nat, n: nat, page: Str, tagging: Tagging<P>)
    requires k <= n && WorkAfter(objects, k, page, tagging).Aborted?
    ensures WorkAfter(objects, n, page, tagging).Aborted?
    decreases n
  {
    if k < n {
      AbortLasts(objects, k, n - 1, page, tagging);
    }
  }

  // ----- What the rows are -----

  /** A row carries the final value of some processed object, under one of the tags to write. */
  ghost predicate RowFrom<P>(kv: KV<Obj<P>>, page: Str, p: Pass<P>) {
    p.Pass? && kv.value == p.current && exists tag :: tag in p.write && kv.key == [tag, CleanKey(p.current.ref, page)]
  }

  ghost predicate FromSome<P>(kv: KV<Obj<P>>, passes: seq<Pass<P>>, page: Str) {
    exists i :: 0 <= i < |passes| && RowFrom(kv, page, passes[i])
  }

  ghost predicate RowsExactly<P>(kvs: seq<KV<Obj<P>>>, passes: seq<Pass<P>>, page: Str) {
    (forall j :: 0 <= j < |kvs| ==> FromSome(kvs[j], passes, page)) &&
    (forall i :: 0 <= i < |passes| ==> Written(kvs, page, passes[i]))
  }

  ghost predicate Written<P>(kvs: seq<KV<Obj<P>>>, page: Str, p: Pass<P>) {
    p.Pass? && forall tag :: tag in p.write ==> KV([tag, CleanKey(p.current.ref, page)], p.current) in kvs
  }

  /** Every object with a tag that was queued is processed or still waits. */
  ghost predicate Handled<P>(w: Work<P>, o: Obj<P>, tagging: Tagging<P>)
    requires w.Work?
  {
    o in w.queue || o.tag == [] || WholePass(o, tagging) in w.passes
  }

  /** The rows of the passes, one pass after the other. */
  ghost function RowsInOrder<P>(page: Str, passes: seq<Pass<P>>): seq<KV<Obj<P>>> {
    if passes == [] then []
    else
      var n := |passes| - 1;
      RowsInOrder(page, passes[..n]) + if passes[n].Pass? then RowsOf(page, passes[n], |passes[n].write|) else []
  }

  /** An object given, or made by the transforms of one that is processed. */
  ghost predicate Known<P>(w: Work<P>, objects: seq<Obj<P>>, o: Obj<P>)
    requires w.Work?
  {
    o in objects || exists i :: 0 <= i < |w.passes| && w.passes[i].Pass? && o in w.passes[i].more
  }

  ghost predicate OfKnown<P(!new)>(w: Work<P>, objects: seq<Obj<P>>, p: Pass<P>, tagging: Tagging<P>)
    requires w.Work?
  {
    exists o :: p == WholePass(o, tagging) && Known(w, objects, o)
  }

  /** Nothing but known objects is processed or waits. */
  ghost predicate OnlyKnown<P(!new)>(w: Work<P>, objects: seq<Obj<P>>, tagging: Tagging<P>)
    requires w.Work?
  {
    && (forall o :: o in w.queue ==> Known(w, objects, o))
    && (forall i :: 0 <= i < |w.passes| ==> OfKnown(w, objects, w.passes[i], tagging))
  }

  ghost predicate AllHandled<P(!new)>(w: Work<P>, objects: seq<Obj<P>>, tagging: Tagging<P>)
    requires w.Work?
  {
    forall o :: Known(w, objects, o) ==> Handled(w, o, tagging)
  }

  ghost predicate WorkOk<P(!new)>(w: Work<P>, objects: seq<Obj<P>>, page: Str, tagging: Tagging<P>) {
    w.Work? ==>
      && RowsExactly(w.kvs, w.passes, page) && w.kvs == RowsInOrder(page, w.passes)
      && AllHandled(w, objects, tagging) && OnlyKnown(w, objects, tagging)
  }

  lemma RowsOfPass<P>(page: Str, p: Pass<P>)
    requires p.Pass?
    ensures forall kv :: kv in RowsOf(page, p, |p.write|) <==> RowFrom(kv, page, p)
  {
    var rows := RowsOf(page, p, |p.write|);
    forall kv | RowFrom(kv, page, p)
      ensures kv in rows
    {
      var tag :| tag in p.write && kv.key == [tag, CleanKey(p.current.ref, page)];
      var i :| 0 <= i < |p.write| && p.write[i] == tag;
      assert rows[i] == kv;
    }
  }

  lemma StepKeepsRows<P>(kvs: seq<KV<Obj<P>>>, passes: seq<Pass<P>>, page: Str, p: Pass<P>)
    requires p.Pass? && RowsExactly(kvs, passes, page)
    ensures RowsExactly(kvs + RowsOf(page, p, |p.write|), passes + [p], page)
  {
    hide RowFrom, RowsOf, CleanKey, Written;
    var rows := RowsOf(page, p, |p.write|);
    RowsOfPass(page, p);
    forall j | 0 <= j < |kvs + rows|
      ensures FromSome((kvs + rows)[j], passes + [p], page)
    {
      if j < |kvs| {
        assert FromSome(kvs[j], passes, page);
        var i :| 0 <= i < |passes| && RowFrom(kvs[j], page, passes[i]);
        assert RowFrom((kvs + rows)[j], page, (passes + [p])[i]);
      } else {
        assert (kvs + rows)[j] in rows;
        assert RowFrom((kvs + rows)[j], page, (passes + [p])[|passes|]);
      }
    }
    forall i | 0 <= i < |passes + [p]|
      ensures Written(kvs + rows, page, (passes + [p])[i])
    {
      if i < |passes| {
        MoreWritten(kvs, rows, page, passes[i]);
      } else {
        NewPassWritten(kvs + rows, page, p, rows);
      }
    }
  }

  lemma MoreWritten<P>(kvs: seq<KV<Obj<P>>>, rows: seq<KV<Obj<P>>>, page: Str, p: Pass<P>)
    requires Written(kvs, page, p)
    ensures Written(kvs + rows, page, p)
  {
  }

  lemma NewPassWritten<P>(kvs: seq<KV<Obj<P>>>, page: Str, p: Pass<P>, rows: seq<KV<Obj<P>>>)
    requires p.Pass? && (forall kv :: kv in rows <==> RowFrom(kv, page, p))
    requires forall kv :: kv in rows ==> kv in kvs
    ensures Written(kvs, page, p)
  {
  }

  lemma StepKeepsHandled<P(!new)>(w: Work<P>, objects: seq<Obj<P>>, page: Str, tagging: Tagging<P>)
    requires w.Work? && w.queue != [] && w.queue[0].tag != [] && WholePass(w.queue[0], tagging).Pass?
    requires AllHandled(w, objects, tagging)
    ensures AllHandled(WorkStep(w, page, tagging), objects, tagging)
  {
    hide WholePass, RowsOf;
    var w', p := WorkStep(w, page, tagging), WholePass(w.queue[0], tagging);
    assert w.queue == [w.queue[0]] + w.queue[1..];
    forall o | Known(w', objects, o)
      ensures Handled(w', o, tagging)
    {
      if Known(w, objects, o) {
        assert Handled(w, o, tagging);
      } else {
        assert o in p.more;
      }
    }
  }

  lemma StepKeepsKnown<P(!new)>(w: Work<P>, objects: seq<Obj<P>>, page: Str, tagging: Tagging<P>)
    requires w.Work? && w.queue != [] && w.queue[0].tag != [] && WholePass(w.queue[0], tagging).Pass?
    requires OnlyKnown(w, objects, tagging)
    ensures OnlyKnown(WorkStep(w, page, tagging), objects, tagging)
  {
    hide WholePass, RowsOf;
    var w', p := WorkStep(w, page, tagging), WholePass(w.queue[0], tagging);
    forall o | Known(w, objects, o)
      ensures Known(w', objects, o)
    {
      if i :| 0 <= i < |w.passes| && w.passes[i].Pass? && o in w.passes[i].more {
        assert w'.passes[i] == w.passes[i];
      }
    }
    forall o | o in w'.queue
      ensures Known(w', objects, o)
    {
      if o !in w.queue[1..] {
        assert w'.passes[|w.passes|] == p && o in p.more;
      }
    }
    forall i | 0 <= i < |w'.passes|
      ensures OfKnown(w', objects, w'.passes[i], tagging)
    {
      if i < |w.passes| {
        assert OfKnown(w, objects, w.passes[i], tagging);
        var o :| w.passes[i] == WholePass(o, tagging) && Known(w, objects, o);
        assert w'.passes[i] == WholePass(o, tagging);
      } else {
        assert w'.passes[i] == WholePass(w.queue[0], tagging) && Known(w, objects, w.queue[0]);
      }
    }
  }

  lemma StepKeepsWork<P(!new)>(w: Work<P>, objects: seq<Obj<P>>, page: Str, tagging: Tagging<P>)
    requires WorkOk(w, objects, page, tagging)
    ensures WorkOk(WorkStep(w, page, tagging), objects, page, tagging)
  {
    hide RowsExactly, WholePass, RowsOf, AllHandled, OnlyKnown;
    if w.Work? && w.queue != [] {
      var o := w.queue[0];
      var p := WholePass(o, tagging);
      if o.tag == [] {
        SkipKeepsWork(w, objects, page, tagging);
      } else if p.Pass? {
        StepKeepsRows(w.kvs, w.passes, page, p);
        assert (w.passes + [p])[..|w.passes|] == w.passes;
        StepKeepsHandled(w, objects, page, tagging);
        StepKeepsKnown(w, objects, page, tagging);
      }
    }
  }

  lemma SkipKeepsWork<P(!new)>(w: Work<P>, objects: seq<Obj<P>>, page: Str, tagging: Tagging<P>)
    requires w.Work? && w.queue != [] && w.queue[0].tag == []
    requires AllHandled(w, objects, tagging) && OnlyKnown(w, objects, tagging)
    ensures AllHandled(WorkStep(w, page, tagging), objects, tagging)
    ensures OnlyKnown(WorkStep(w, page, tagging), objects, tagging)
  {
    hide WholePass;
    var w' := WorkStep(w, page, tagging);
    assert w.queue == [w.queue[0]] + w.queue[1..];
    forall o: Obj<P>
      ensures Known(w', objects, o) <==> Known(w, objects, o)
    {
    }
    forall o | o in w'.queue
      ensures Known(w', objects, o)
    {
      assert o in w.queue && Known(w, objects, o);
    }
    forall i | 0 <= i < |w'.passes|
      ensures OfKnown(w', objects, w'.passes[i], tagging)
    {
      assert OfKnown(w, objects, w.passes[i], tagging);
      var o :| w.passes[i] == WholePass(o, tagging) && Known(w, objects, o);
      assert Known(w', objects, o);
    }
  }

  /** However far the work has come: rows are exactly the final values of the processed objects
      under their tags, in the order of processing; and of the objects given, and those that the
      transforms of processed ones have made, none is forgotten and nothing else is processed. */
  lemma {:induction false} RowsAreFinalValues<P(!new)>(objects: seq<Obj<P>>, n: nat, page: Str, tagging: Tagging<P>)
    ensures WorkOk(WorkAfter(objects, n, page, tagging), objects, page, tagging)
    decreases n
  {
    hide WorkStep, WholePass;
    if n > 0 {
      RowsAreFinalValues(objects, n - 1, page, tagging);
      StepKeepsWork(WorkAfter(objects, n - 1, page, tagging), objects, page, tagging);
    }
  }

  /** The objects given are processed first, in their order; what transforms make comes behind them. */
  lemma {:induction false} GivenComeFirst<P>(objects: seq<Obj<P>>, n: nat, page: Str, tagging: Tagging<P>)
    requires n <= |objects| && WorkAfter(objects, n, page, tagging).Work?
    requires forall o :: o in objects ==> o.tag != []
    ensures var w := WorkAfter(objects, n, page, tagging);
      && objects[n..] <= w.queue && |w.passes| == n
      && forall i :: 0 <= i < n ==> w.passes[i] == WholePass(objects[i], tagging)
    decreases n
  {
    hide WholePass, RowsOf;
    if n > 0 {
      GivenComeFirst(objects, n - 1, page, tagging);
      var w := WorkAfter(objects, n - 1, page, tagging);
      assert w.queue[0] == objects[n - 1..][0] == objects[n - 1];
      assert objects[n - 1..][1..] == objects[n..];
      assert w.queue[1..][..|objects| - n] == objects[n..];
    }
  }

  // ----- Index and read back -----

  /** The pass makes a row for this tag and cleaned reference. */
  predicate Writes<P>(p: Pass<P>, page: Str, tag: Str, ref: Str) {
    p.Pass? && tag in p.write && CleanKey(p.current.ref, page) == ref
  }

  ghost predicate FirstWriter<P>(passes: seq<Pass<P>>, i: nat, page: Str, tag: Str, ref: Str) {
    i < |passes| && Writes(passes[i], page, tag, ref) && forall h :: 0 <= h < i ==> !Writes(passes[h], page, tag, ref)
  }

  lemma {:induction false} FirstWriterExists<P>(passes: seq<Pass<P>>, i: nat, page: Str, tag: Str, ref: Str)
    returns (first: nat)
    requires i < |passes| && Writes(passes[i], page, tag, ref)
    ensures first <= i && FirstWriter(passes, first, page, tag, ref)
    decreases i
  {
    hide Writes;
    if h: nat :| h < i && Writes(passes[h], page, tag, ref) {
      first := FirstWriterExists(passes, h, page, tag, ref);
    } else {
      first := i;
    }
  }

  /** The first row of a key in one pass. */
  lemma FirstInPass<P>(page: Str, p: Pass<P>, tag: Str, ref: Str) returns (j: nat)
    requires Writes(p, page, tag, ref)
    ensures var rows := RowsOf(page, p, |p.write|);
      j < |rows| && IsFirst(rows, j, [tag, ref]) && rows[j].value == p.current
  {
    hide CleanKey;
    var k :| 0 <= k < |p.write| && p.write[k] == tag;
    j := FirstOfKey(RowsOf(page, p, |p.write|), k);
  }

  lemma NoneInPass<P>(page: Str, p: Pass<P>, tag: Str, ref: Str)
    requires p.Pass? && !Writes(p, page, tag, ref)
    ensures var rows := RowsOf(page, p, |p.write|); forall j :: 0 <= j < |rows| ==> rows[j].key != [tag, ref]
  {
    hide CleanKey;
    var rows := RowsOf(page, p, |p.write|);
    forall j | 0 <= j < |rows|
      ensures rows[j].key != [tag, ref]
    {
      assert p.write[j] in p.write;
      assert rows[j].key[0] == p.write[j] && rows[j].key[1] == CleanKey(p.current.ref, page);
    }
  }

  lemma {:induction false} NoneInOrder<P>(page: Str, passes: seq<Pass<P>>, tag: Str, ref: Str)
    requires forall h :: 0 <= h < |passes| ==> !Writes(passes[h], page, tag, ref)
    ensures forall j :: 0 <= j < |RowsInOrder(page, passes)| ==> RowsInOrder(page, passes)[j].key != [tag, ref]
    decreases |passes|
  {
    hide Writes, RowsOf;
    if passes != [] {
      var n := |passes| - 1;
      NoneInOrder(page, passes[..n], tag, ref);
      if passes[n].Pass? {
        NoneInPass(page, passes[n], tag, ref);
      }
    }
  }

  /** The first row of a key comes from the first pass that writes it. */
  lemma {:induction false} FirstInOrder<P>(page: Str, passes: seq<Pass<P>>, i: nat, tag: Str, ref: Str)
    returns (j: nat)
    requires FirstWriter(passes, i, page, tag, ref)
    ensures var rows := RowsInOrder(page, passes);
      j < |rows| && IsFirst(rows, j, [tag, ref]) && rows[j].value == passes[i].current
    decreases |passes|
  {
    hide Writes, RowsOf;
    var n := |passes| - 1;
    var front := RowsInOrder(page, passes[..n]);
    if i < n {
      j := FirstInOrder(page, passes[..n], i, tag, ref);
      assert forall k :: 0 <= k <= j ==> RowsInOrder(page, passes)[k] == front[k];
    } else {
      WritesIsPass(passes[n], page, tag, ref);
      NoneInOrder(page, passes[..n], tag, ref);
      var k := FirstInPass(page, passes[n], tag, ref);
      j := |front| + k;
      FirstBehind(front, RowsOf(page, passes[n], |passes[n].write|), k, [tag, ref]);
    }
  }

  lemma WritesIsPass<P>(p: Pass<P>, page: Str, tag: Str, ref: Str)
    requires Writes(p, page, tag, ref)
    ensures p.Pass?
  {
  }

  lemma FirstBehind<V>(front: seq<KV<V>>, back: seq<KV<V>>, k: nat, key: Key)
    requires k < |back| && IsFirst(back, k, key) && forall j :: 0 <= j < |front| ==> front[j].key != key
    ensures IsFirst(front + back, |front| + k, key) && (front + back)[|front| + k] == back[k]
  {
  }

  lemma {:induction false} FirstOfKey<V>(kvs: seq<KV<V>>, j: nat) returns (i: nat)
    requires j < |kvs|
    ensures i <= j && IsFirst(kvs, i, kvs[j].key)
    decreases j
  {
    if k: nat :| k < j && kvs[k].key == kvs[j].key {
      i := FirstOfKey(kvs, k);
    } else {
      i := j;
    }
  }

  /** However far the work has come, what is stored and read back under a tag and a reference is the
      final form of the first processed object that is written so. Links are not stored as such. */
  lemma ReadBackIsFirstWritten<P(!new)>(objects: seq<Obj<P>>, n: nat, page: Str, tagging: Tagging<P>,
                                  rows: map<Key, Entry<Obj<P>>>, i: nat, tag: Str, ref: Str)
    requires var w := WorkAfter(objects, n, page, tagging);
      w.Work? && FirstWriter(w.passes, i, page, tag, CleanKey(ref, page))
    requires tag != LINK
    ensures var w := WorkAfter(objects, n, page, tagging);
      GetObjectByRef(AfterSet(rows, page, w.kvs), page, tag, ref) == Some(Object(w.passes[i].current))
  {
    hide RowsExactly, RowsInOrder, AfterSet, GetObjectByRef, CleanKey, WorkStep, Writes, WorkAfter, FirstWriter;
    var w := WorkAfter(objects, n, page, tagging);
    RowsAreFinalValues(objects, n, page, tagging);
    FirstWriterBound(w.passes, i, page, tag, CleanKey(ref, page));
    var j := FirstInOrder(page, w.passes, i, tag, CleanKey(ref, page));
    WrittenObjectIsFound(rows, page, w.kvs, j, tag, ref);
  }

  lemma FirstWriterBound<P>(passes: seq<Pass<P>>, i: nat, page: Str, tag: Str, ref: Str)
    requires FirstWriter(passes, i, page, tag, ref)
    ensures i < |passes| && passes[i].Pass?
  {
  }

  /** When the work list is done and stored: an object given is read back in its final form under
      a tag it was written under, exactly if the first object written under that tag and its cleaned
      reference has that form too. */
  lemma IndexedObjectIsFoundIff<P(!new)>(objects: seq<Obj<P>>, n: nat, page: Str, tagging: Tagging<P>,
                                   rows: map<Key, Entry<Obj<P>>>, o: Obj<P>, tag: Str)
    returns (first: nat)
    requires var w := WorkAfter(objects, n, page, tagging); w.Work? && w.queue == []
    requires o in objects && o.tag != [] && WholePass(o, tagging).Pass? && tag in WholePass(o, tagging).write
    requires tag != LINK
    ensures var w, final := WorkAfter(objects, n, page, tagging), WholePass(o, tagging).current;
      && FirstWriter(w.passes, first, page, tag, CleanKey(o.ref, page)) && w.passes[first].Pass?
      && (GetObjectByRef(AfterSet(rows, page, w.kvs), page, tag, o.ref) == Some(Object(final)) <==>
          w.passes[first].current == final)
  {
    hide WholePass, RowsExactly, RowsInOrder, AfterSet, GetObjectByRef, CleanKey, WorkStep, WorkAfter;
    var w := WorkAfter(objects, n, page, tagging);
    RowsAreFinalValues(objects, n, page, tagging);
    WholePassKeepsRef(o, tagging);
    assert Handled(w, o, tagging);
    var i :| 0 <= i < |w.passes| && w.passes[i] == WholePass(o, tagging);
    first := FirstWriterExists(w.passes, i, page, tag, CleanKey(o.ref, page));
    ReadBackIsFirstWritten(objects, n, page, tagging, rows, first, tag, o.ref);
  }

  /** No two processed objects are written under one tag with one reference, be it in its long form
      `page@…` or its short one. */
  ghost predicate RefsApart<P>(passes: seq<Pass<P>>, page: Str) {
    forall i, j, tag :: 0 <= i < j < |passes| && passes[i].Pass? && passes[j].Pass? &&
                        tag in passes[i].write && tag in passes[j].write ==>
      !SameRef(passes[i].current.ref, passes[j].current.ref, page)
  }

  lemma ApartWrites<P>(passes: seq<Pass<P>>, page: Str, i: nat, j: nat, tag: Str, ref: Str)
    requires RefsApart(passes, page) && i < |passes| && j < |passes|
    requires Writes(passes[i], page, tag, ref) && Writes(passes[j], page, tag, ref)
    ensures i == j
  {
    hide CleanKey, SameRef;
    CleanKeyIff(passes[i].current.ref, passes[j].current.ref, page);
    CleanKeyIff(passes[j].current.ref, passes[i].current.ref, page);
  }

  /** Then every object given is found in its final form under each of its tags. An object of
      another tag may have the same reference. */
  lemma IndexedObjectsAreFound<P(!new)>(objects: seq<Obj<P>>, n: nat, page: Str, tagging: Tagging<P>,
                                  rows: map<Key, Entry<Obj<P>>>, o: Obj<P>, tag: Str)
    requires var w := WorkAfter(objects, n, page, tagging);
      w.Work? && w.queue == [] && RefsApart(w.passes, page)
    requires o in objects && o.tag != [] && WholePass(o, tagging).Pass? && tag in WholePass(o, tagging).write
    requires tag != LINK
    ensures GetObjectByRef(AfterSet(rows, page, WorkAfter(objects, n, page, tagging).kvs), page, tag, o.ref) ==
            Some(Object(WholePass(o, tagging).current))
  {
    hide WholePass, RowsExactly, RowsInOrder, AfterSet, GetObjectByRef, CleanKey, WorkStep, WorkAfter;
    var w := WorkAfter(objects, n, page, tagging);
    var first := IndexedObjectIsFoundIff(objects, n, page, tagging, rows, o, tag);
    RowsAreFinalValues(objects, n, page, tagging);
    WholePassKeepsRef(o, tagging);
    assert Handled(w, o, tagging);
    var i :| 0 <= i < |w.passes| && w.passes[i] == WholePass(o, tagging);
    assert Writes(w.passes[i], page, tag, CleanKey(o.ref, page));
    ApartWrites(w.passes, page, i, first, tag, CleanKey(o.ref, page));
  }

  lemma WholePassKeepsRef<P>(o: Obj<P>, tagging: Tagging<P>)
    requires WholePass(o, tagging).Pass?
    ensures WholePass(o, tagging).current.ref == o.ref
  {
    PassKeepsRef(o, |TagsOf(o)|, tagging);
  }

  // ----- Transforms that return no objects -----

  /** Returning no objects does not keep an object from being indexed: if all its transforms return
      none, it is written, as it is, under exactly the tags it is valid for. */
  lemma {:induction false} EmptyTransformsWriteIff<P>(o: Obj<P>, n: nat, tagging: Tagging<P>)
    requires n <= |TagsOf(o)|
    requires forall tag :: tag in TagsOf(o) ==> tagging.transform(tag, o) == Gives([])
    requires tagging.strict ==> forall tag :: tag in TagsOf(o) ==> tagging.valid(tag, o)
    ensures var p := PassUpTo(o, n, tagging);
      p.Pass? && p.current == o && p.more == [] &&
      forall i :: 0 <= i < n ==> (TagsOf(o)[i] in p.write <==> tagging.valid(TagsOf(o)[i], o))
    decreases n
  {
    hide TagsOf, HasSame;
    if n > 0 {
      EmptyTransformsWriteIff(o, n - 1, tagging);
      var before, tag := PassUpTo(o, n - 1, tagging), TagsOf(o)[n - 1];
      assert tag in TagsOf(o);
      WriteValidOnly(o, n - 1, tagging);
    }
  }

  lemma {:induction false} WriteValidOnly<P>(o: Obj<P>, n: nat, tagging: Tagging<P>)
    requires n <= |TagsOf(o)| && PassUpTo(o, n, tagging).Pass?
    requires forall tag :: tag in TagsOf(o) ==> tagging.transform(tag, o) == Gives([])
    ensures PassUpTo(o, n, tagging).current == o
    ensures forall tag :: tag in PassUpTo(o, n, tagging).write ==> tagging.valid(tag, o)
    decreases n
  {
    hide TagsOf, HasSame;
    if n > 0 {
      WriteValidOnly(o, n - 1, tagging);
    }
  }

  /** For instance: an object with one tag, whose transform returns no objects, gets its row. */
  lemma EmptyTransformStillIndexes<P>(ref: Str, tag: Str, payload: P, page: Str)
    requires tag != []
    ensures var o, tagging := Obj(ref, tag, [], payload), Tagging((t, x) => true, (t, x) => Gives([]), false);
      WorkAfter([o], 1, page, tagging) == Work([], [KV([tag, CleanKey(ref, page)], o)], [Pass(o, [tag], [])])
  {
    hide CleanKey;
    var o, tagging := Obj(ref, tag, [], payload), Tagging((t, x) => true, (t, x) => Gives([]), false);
    assert TagsOf(o) == [tag];
    assert PassUpTo(o, 0, tagging) == Pass(o, [], []);
    assert PassUpTo(o, 1, tagging) == Pass(o, [tag], []);
    assert WorkAfter([o], 0, page, tagging) == Work([o], [], []);
  }
}
