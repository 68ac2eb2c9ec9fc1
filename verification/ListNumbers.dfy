/** Renumbering of ordered lists: `renumberList` in `client/codemirror/markdown_enter.ts`, and what
    the Enter command does with it. A list is the sequence of sibling nodes after one item. */
module ListNumbers {
  datatype Node = Item(number: int) | Other

  /** Writes a number over that of the node at an index. */
  datatype Change = Change(index: nat, number: int)

  function ApplyAll(nodes: seq<Node>, changes: seq<Change>): seq<Node>
    decreases |changes|
  {
    if changes == [] then nodes
    else
      var c := changes[|changes| - 1];
      var before := ApplyAll(nodes, changes[..|changes| - 1]);
      if c.index < |before| then before[c.index := Item(c.number)] else before
  }

  /** How many nodes the run that follows `prev` spans. */
  function RunLength(nodes: seq<Node>, prev: int): (r: nat)
    ensures r <= |nodes|
  {
    if nodes == [] then 0
    else if nodes[0].Other? then 1 + RunLength(nodes[1..], prev)
    else if nodes[0].number == prev + 1 then 1 + RunLength(nodes[1..], prev + 1)
    else 0
  }

  function Shifted(nodes: seq<Node>, delta: int): (r: seq<Node>)
    ensures |r| == |nodes|
    ensures forall k :: 0 <= k < |nodes| ==> r[k] == if nodes[k].Item? then Item(nodes[k].number + delta) else Other
  {
    seq(|nodes|, k requires 0 <= k < |nodes| => if nodes[k].Item? then Item(nodes[k].number + delta) else Other)
  }

  /** The run that follows `prev` shifted, and the rest as it was. */
  function Renumbered(nodes: seq<Node>, prev: int, delta: int): (r: seq<Node>)
    ensures |r| == |nodes|
  {
    var n := RunLength(nodes, prev);
    Shifted(nodes[..n], delta) + nodes[n..]
  }

  function Items(nodes: seq<Node>): nat {
    if nodes == [] then 0 else Items(nodes[..|nodes| - 1]) + if nodes[|nodes| - 1].Item? then 1 else 0
  }

  predicate FollowsOn(nodes: seq<Node>, k: nat, prev: int)
    requires k < |nodes|
  {
    nodes[k].Item? ==> nodes[k].number == prev + Items(nodes[..k + 1])
  }

  lemma {:induction false} ItemsFirst(nodes: seq<Node>)
    requires nodes != []
    ensures Items(nodes) == Items(nodes[1..]) + if nodes[0].Item? then 1 else 0
    decreases |nodes|
  {
    if |nodes| > 1 {
      assert nodes[..|nodes| - 1][1..] == nodes[1..][..|nodes| - 2];
      ItemsFirst(nodes[..|nodes| - 1]);
    } else {
      assert nodes[..0] == [] && nodes[1..] == [];
    }
  }

  lemma FollowsOnRest(nodes: seq<Node>, k: nat, prev: int)
    requires 0 < k < |nodes|
    requires nodes[0].Item? ==> nodes[0].number == prev + 1
    ensures FollowsOn(nodes, k, prev) <==> FollowsOn(nodes[1..], k - 1, if nodes[0].Item? then prev + 1 else prev)
  {
    assert nodes[..k + 1][1..] == nodes[1..][..k];
    ItemsFirst(nodes[..k + 1]);
  }

  /** The run is the longest stretch in which every item's number is its place in the list. */
  lemma {:induction false} InRunIff(nodes: seq<Node>, prev: int, j: nat)
    requires j <= |nodes|
    ensures j <= RunLength(nodes, prev) <==> forall k :: 0 <= k < j ==> FollowsOn(nodes, k, prev)
    decreases |nodes|
  {
    hide FollowsOn;
    if j > 0 {
      FirstFollows(nodes, prev);
      if nodes[0].Item? && nodes[0].number != prev + 1 {
        assert !FollowsOn(nodes, 0, prev);
      } else {
        var next := if nodes[0].Item? then prev + 1 else prev;
        InRunIff(nodes[1..], next, j - 1);
        forall k | 1 <= k < j
          ensures FollowsOn(nodes, k, prev) <==> FollowsOn(nodes[1..], k - 1, next)
        {
          FollowsOnRest(nodes, k, prev);
        }
        forall k | 0 <= k < j - 1
          ensures FollowsOn(nodes[1..], k, next) <==> FollowsOn(nodes, k + 1, prev)
        {
          FollowsOnRest(nodes, k + 1, prev);
        }
      }
    }
  }

  lemma FirstFollows(nodes: seq<Node>, prev: int)
    requires nodes != []
    ensures FollowsOn(nodes, 0, prev) <==> (nodes[0].Item? ==> nodes[0].number == prev + 1)
  {
    ItemsFirst(nodes[..1]);
    assert nodes[..1][1..] == [];
  }

  lemma RenumberedFirst(nodes: seq<Node>, prev: int, delta: int)
    requires nodes != []
    ensures Renumbered(nodes, prev, delta) ==
            if nodes[0].Other? then [Other] + Renumbered(nodes[1..], prev, delta)
            else if nodes[0].number == prev + 1
            then [Item(nodes[0].number + delta)] + Renumbered(nodes[1..], prev + 1, delta)
            else nodes
  {
  }

  /** The new numbers of the run that follows the node at `start`, all numbers being moved by
      `offset` beyond making room for one item. */
  method RenumberList(nodes: seq<Node>, start: nat, offset: int) returns (changes: seq<Change>)
    requires start < |nodes| && nodes[start].Item?
    requires forall k :: start <= k < |nodes| ==> nodes[k].Item? ==> nodes[k].number >= 0
    ensures ApplyAll(nodes, changes) ==
            nodes[..start + 1] + Renumbered(nodes[start + 1..], nodes[start].number, 1 + offset)
  {
    hide ApplyAll, Renumbered;
    changes := [];
    NoChanges(nodes);
    var prev := -1;
    var i := start;
    while i < |nodes|
      invariant start <= i <= |nodes| && (i == start <==> prev == -1) && prev >= -1
      invariant |ApplyAll(nodes, changes)| == |nodes|
      invariant if i == start then ApplyAll(nodes, changes) == nodes else
        ApplyAll(nodes, changes)[i..] == nodes[i..] &&
        ApplyAll(nodes, changes)[..i] + Renumbered(nodes[i..], prev, 1 + offset) ==
        nodes[..start + 1] + Renumbered(nodes[start + 1..], nodes[start].number, 1 + offset)
    {
      ghost var now := ApplyAll(nodes, changes);
      if i > start {
        RenumberedFirst(nodes[i..], prev, 1 + offset);
        assert nodes[i..][1..] == nodes[i + 1..];
        assert now[i] == now[i..][0] == nodes[i];
      }
      if nodes[i].Item? {
        if prev >= 0 {
          if nodes[i].number != prev + 1 {
            assert now == now[..i] + now[i..];
            return;
          }
          changes := changes + [Change(i, prev + 2 + offset)];
          OneMore(nodes, changes);
        }
        prev := nodes[i].number;
      }
      i := i + 1;
      assert ApplyAll(nodes, changes)[..i] == now[..i - 1] + [ApplyAll(nodes, changes)[i - 1]];
      assert ApplyAll(nodes, changes)[i..] == nodes[i..];
    }
    NothingToRenumber(prev, 1 + offset);
    assert nodes[|nodes|..] == [];
  }

  lemma NoChanges(nodes: seq<Node>)
    ensures ApplyAll(nodes, []) == nodes
  {
  }

  lemma NothingToRenumber(prev: int, delta: int)
    ensures Renumbered([], prev, delta) == []
  {
  }

  lemma OneMore(nodes: seq<Node>, changes: seq<Change>)
    requires changes != []
    ensures var c, before := changes[|changes| - 1], ApplyAll(nodes, changes[..|changes| - 1]);
      ApplyAll(nodes, changes) == if c.index < |before| then before[c.index := Item(c.number)] else before
  {
  }

  // ----- A new item, and taking it back -----

  /** The nodes after item `number` once Enter has added an item behind it. */
  function Inserted(nodes: seq<Node>, number: int): seq<Node> {
    [Item(number + 1)] + Renumbered(nodes, number, 1)
  }

  /** The nodes left once Enter on the empty first item has removed it. */
  function Removed(nodes: seq<Node>): seq<Node>
    requires nodes != [] && nodes[0].Item?
  {
    Renumbered(nodes[1..], nodes[0].number, -1)
  }

  /** The first item after the run is one past the number that the run would go on with. */
  predicate GapOfOne(nodes: seq<Node>, number: int) {
    var n := RunLength(nodes, number);
    n < |nodes| && nodes[n] == Item(number + Items(nodes[..n]) + 2)
  }

  lemma GapOfOneFirst(nodes: seq<Node>, number: int)
    requires nodes != [] && (nodes[0].Item? ==> nodes[0].number == number + 1)
    ensures GapOfOne(nodes, number) == GapOfOne(nodes[1..], if nodes[0].Item? then number + 1 else number)
  {
    var n := RunLength(nodes, number);
    assert nodes[..n][1..] == nodes[1..][..n - 1];
    ItemsFirst(nodes[..n]);
  }

  /** Adding an item and taking it back gives the list as it was, except exactly when the run is
      followed by a gap of one: closing the gap makes the later run part of it. */
  lemma {:induction false} InsertThenRemoveIff(nodes: seq<Node>, number: int)
    ensures Removed(Inserted(nodes, number)) == nodes <==> !GapOfOne(nodes, number)
    decreases |nodes|
  {
    hide Renumbered, GapOfOne;
    assert Inserted(nodes, number)[1..] == Renumbered(nodes, number, 1);
    BackAndForthIff(nodes, number);
  }

  lemma {:induction false} BackAndForthIff(nodes: seq<Node>, number: int)
    ensures Renumbered(Renumbered(nodes, number, 1), number + 1, -1) == nodes <==> !GapOfOne(nodes, number)
    decreases |nodes|
  {
    hide Renumbered;
    if nodes == [] {
      NothingToRenumber(number, 1);
      NothingToRenumber(number + 1, -1);
    } else {
      var there := Renumbered(nodes, number, 1);
      RenumberedFirst(nodes, number, 1);
      RenumberedFirst(there, number + 1, -1);
      if nodes[0].Other? || nodes[0].number == number + 1 {
        var next := if nodes[0].Item? then number + 1 else number;
        assert there[1..] == Renumbered(nodes[1..], next, 1);
        BackAndForthIff(nodes[1..], next);
        GapOfOneFirst(nodes, number);
        var back := Renumbered(Renumbered(nodes[1..], next, 1), next + 1, -1);
        assert Renumbered(there, number + 1, -1) == [nodes[0]] + back;
        assert nodes == [nodes[0]] + nodes[1..];
        assert ([nodes[0]] + back)[1..] == back;
      } else {
        assert Items(nodes[..0]) == 0;
      }
    }
  }

  /** A list numbered without gaps is numbered without gaps after the insertion. */
  lemma {:induction false} InsertKeepsConsecutive(nodes: seq<Node>, number: int)
    requires RunLength(nodes, number) == |nodes|
    ensures RunLength(Inserted(nodes, number), number) == |nodes| + 1
    decreases |nodes|
  {
    assert Inserted(nodes, number)[1..] == Renumbered(nodes, number, 1);
    ShiftedRun(nodes, number);
  }

  lemma {:induction false} ShiftedRun(nodes: seq<Node>, number: int)
    requires RunLength(nodes, number) == |nodes|
    ensures RunLength(Renumbered(nodes, number, 1), number + 1) == |nodes|
    decreases |nodes|
  {
    hide Renumbered;
    if nodes != [] {
      var next := if nodes[0].Item? then number + 1 else number;
      RenumberedFirst(nodes, number, 1);
      assert Renumbered(nodes, number, 1)[1..] == Renumbered(nodes[1..], next, 1);
      ShiftedRun(nodes[1..], next);
    }
  }
}
