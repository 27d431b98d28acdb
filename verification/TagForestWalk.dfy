/**
 Walking the nodes the builder returns. With distinct ids the walk ends and visits the rooted tags once each; when
 ids repeat, the node of the last tag stands for all of them, and the walk may even go on forever.
 */
module TagForestWalk {
  import opened Wrappers
  import opened TagForest
  import opened TagForestResults

  /** The nodes met going down at most `depth` levels: a node, its children, then its later siblings. */
  ghost function WalkNodes(row: seq<Node>, depth: nat): seq<Node>
    reads *
    decreases depth, |row|
  {
    if depth == 0 || row == [] then []
    else [row[0]] + WalkNodes(row[0].children, depth - 1) + WalkNodes(row[1..], depth)
  }

  ghost predicate InRange(list: seq<Tag>, row: seq<nat>) {
    forall k :: 0 <= k < |row| ==> row[k] < |list|
  }

  /** The same by position: the node that stands for a tag, and the tags placed under that node. */
  ghost function Walk(list: seq<Tag>, row: seq<nat>, depth: nat): (visited: seq<nat>)
    requires InRange(list, row)
    ensures InRange(list, visited)
    decreases depth, |row|
  {
    if depth == 0 || row == [] then []
    else
      var i := Home(list, row[0]);
      [i] + Walk(list, Kids(list, i), depth - 1) + Walk(list, row[1..], depth)
  }

  ghost function Picked(nodes: seq<Node>, row: seq<nat>): seq<Node>
    requires forall k :: 0 <= k < |row| ==> row[k] < |nodes|
  {
    seq(|row|, k requires 0 <= k < |row| => nodes[row[k]])
  }

  lemma PickedParts(nodes: seq<Node>, i: nat, below: seq<nat>, later: seq<nat>)
    requires i < |nodes| && (forall k :: 0 <= k < |below| ==> below[k] < |nodes|) &&
             forall k :: 0 <= k < |later| ==> later[k] < |nodes|
    ensures Picked(nodes, [i] + below + later) == [nodes[i]] + Picked(nodes, below) + Picked(nodes, later)
  {
  }

  lemma NodesAtParts(list: seq<Tag>, nodes: seq<Node>, row: seq<nat>)
    requires |nodes| == |list| && InRange(list, row) && row != []
    ensures var all := NodesAt(list, nodes, row);
            all != [] && all[0] == nodes[Home(list, row[0])] && all[1..] == NodesAt(list, nodes, row[1..])
  {
    hide Home;
  }

  lemma NothingWalked(list: seq<Tag>, nodes: seq<Node>, row: seq<nat>, depth: nat)
    requires |nodes| == |list| && InRange(list, row) && (depth == 0 || row == [])
    ensures WalkNodes(NodesAt(list, nodes, row), depth) == [] && Walk(list, row, depth) == [] && Picked(nodes, []) == []
  {
  }

  /** The walk over the built nodes is the walk over positions. */
  lemma {:induction false} NodesAreWalked(list: seq<Tag>, nodes: seq<Node>, roots: seq<Node>, row: seq<nat>, depth: nat)
    requires Built(list, nodes, roots) && InRange(list, row)
    ensures WalkNodes(NodesAt(list, nodes, row), depth) == Picked(nodes, Walk(list, row, depth))
    decreases depth, |row|
  {
    hide Kids, Home, NodesAt, Picked;
    if depth == 0 || row == [] {
      NothingWalked(list, nodes, row, depth);
    } else {
      var i := Home(list, row[0]);
      KidsInRange(list, i);
      NodesAtParts(list, nodes, row);
      NodesAreWalked(list, nodes, roots, Kids(list, i), depth - 1);
      NodesAreWalked(list, nodes, roots, row[1..], depth);
      PickedParts(nodes, i, Walk(list, Kids(list, i), depth - 1), Walk(list, row[1..], depth));
    }
  }

  lemma {:induction false} BuiltIsWalked(list: seq<Tag>, nodes: seq<Node>, roots: seq<Node>, depth: nat)
    requires Built(list, nodes, roots)
    ensures InRange(list, Roots(list)) && WalkNodes(roots, depth) == Picked(nodes, Walk(list, Roots(list), depth))
  {
    hide Placed, Walk, WalkNodes;
    NodesAreWalked(list, nodes, roots, Roots(list), depth);
  }

  // ---------------------------------------------------------------- counting nodes

  lemma {:induction false} PickedCount(nodes: seq<Node>, row: seq<nat>, x: nat)
    requires (forall k :: 0 <= k < |row| ==> row[k] < |nodes|) && x < |nodes|
    requires forall i, j :: 0 <= i < j < |nodes| ==> nodes[i] != nodes[j]
    ensures multiset(Picked(nodes, row))[nodes[x]] == multiset(row)[x]
  {
    if |row| > 0 {
      var rest, last := row[..|row| - 1], row[|row| - 1];
      PickedCount(nodes, rest, x);
      assert row == rest + [last];
      assert Picked(nodes, row) == Picked(nodes, rest) + [nodes[last]];
    }
  }

  lemma {:induction false} PickedSame(nodes: seq<Node>, row: seq<nat>, other: seq<nat>)
    requires forall k :: 0 <= k < |row| ==> row[k] < |nodes|
    requires forall k :: 0 <= k < |other| ==> other[k] < |nodes|
    requires forall i, j :: 0 <= i < j < |nodes| ==> nodes[i] != nodes[j]
    ensures multiset(Picked(nodes, row)) == multiset(Picked(nodes, other)) <==> multiset(row) == multiset(other)
  {
    forall x: nat | x < |nodes|
      ensures multiset(Picked(nodes, row))[nodes[x]] == multiset(row)[x]
      ensures multiset(Picked(nodes, other))[nodes[x]] == multiset(other)[x]
    {
      PickedCount(nodes, row, x);
      PickedCount(nodes, other, x);
    }
    if multiset(Picked(nodes, row)) == multiset(Picked(nodes, other)) {
      forall x: nat ensures multiset(row)[x] == multiset(other)[x] {
        if x >= |nodes| { assert x !in row && x !in other; }
      }
    } else {
      var node :| multiset(Picked(nodes, row))[node] != multiset(Picked(nodes, other))[node];
      assert node in Picked(nodes, row) || node in Picked(nodes, other);
      var x :| 0 <= x < |nodes| && nodes[x] == node;
      assert multiset(row)[x] != multiset(other)[x];
    }
  }

  lemma NodesArePicked(nodes: seq<Node>)
    ensures nodes == Picked(nodes, Positions(|nodes|))
  {
  }

  // ---------------------------------------------------------------- distinct ids

  // A level of the walk is a level of the forest, and the walk ends where the forest does.
  lemma {:induction false} WalkIsFlatten(list: seq<Tag>, row: seq<nat>, n: nat, d: nat, depth: nat)
    requires DistinctIds(list) && n <= |row| && RowAt(list, row, d) && d + depth >= |list|
    ensures InRange(list, row[..n]) && Walk(list, row[..n], depth) == FlattenRow(list, row, n, d)
    decreases depth, n
  {
    hide AtDepth, Kids, Walk, Home, DistinctIds;
    if n == 0 {
      WalkNothing(list, row[..0], depth);
    } else {
      var last := row[n - 1];
      DepthBound(list, last, d);
      KidsAt(list, last, d);
      WalkIsFlatten(list, row, n - 1, d, depth);
      assert row[..n] == row[..n - 1] + [last];
      WalkAppend(list, row[..n - 1], last, depth);
      DistinctHome(list, last);
      var kids := Kids(list, last);
      assert kids[..|kids|] == kids;
      WalkIsFlatten(list, kids, |kids|, d + 1, depth - 1);
    }
  }

  lemma WalkNothing(list: seq<Tag>, row: seq<nat>, depth: nat)
    requires row == []
    ensures Walk(list, row, depth) == []
  {
  }

  lemma {:induction false} WalkAppend(list: seq<Tag>, row: seq<nat>, last: nat, depth: nat)
    requires InRange(list, row) && last < |list| && depth > 0
    ensures InRange(list, Kids(list, Home(list, last)))
    ensures Walk(list, row + [last], depth) ==
            Walk(list, row, depth) + ([Home(list, last)] + Walk(list, Kids(list, Home(list, last)), depth - 1))
    decreases |row|
  {
    hide Home, Kids;
    if row == [] {
      assert (row + [last])[1..] == [];
    } else {
      WalkAppend(list, row[1..], last, depth);
      assert (row + [last])[1..] == row[1..] + [last] && (row + [last])[0] == row[0];
    }
    KidsInRange(list, Home(list, last));
  }

  lemma KidsInRange(list: seq<Tag>, i: nat)
    ensures InRange(list, Kids(list, i))
  {
    hide Placed;
  }

  lemma {:induction false} TreeIsFlatten(list: seq<Tag>, depth: nat)
    requires DistinctIds(list) && depth >= |list|
    ensures InRange(list, Roots(list)) && Walk(list, Roots(list), depth) == FlattenAll(list)
  {
    hide Walk, FlattenRow;
    RootsAt(list);
    var roots := Roots(list);
    assert roots[..|roots|] == roots;
    WalkIsFlatten(list, roots, |roots|, 0, depth);
  }

  /** With distinct ids the walk ends: going deeper than there are tags finds nothing more. */
  lemma {:induction false} WalkEnds(list: seq<Tag>, nodes: seq<Node>, roots: seq<Node>, depth: nat)
    requires Built(list, nodes, roots) && DistinctIds(list) && depth >= |list|
    ensures WalkNodes(roots, depth) == WalkNodes(roots, |list|)
  {
    hide Walk, WalkNodes, FlattenAll, Built;
    BuiltIsWalked(list, nodes, roots, depth);
    BuiltIsWalked(list, nodes, roots, |list|);
    TreeIsFlatten(list, depth);
    TreeIsFlatten(list, |list|);
  }

  /** And it visits the node of every tag whose ancestors end at a root exactly once, and no other. */
  lemma {:induction false} WalkVisitsRooted(list: seq<Tag>, nodes: seq<Node>, roots: seq<Node>, depth: nat, x: nat)
    requires Built(list, nodes, roots) && DistinctIds(list) && depth >= |list| && x < |list|
    ensures multiset(WalkNodes(roots, depth))[nodes[x]] == Once(Rooted(list, x))
  {
    hide Walk, WalkNodes, FlattenAll, Rooted;
    BuiltIsWalked(list, nodes, roots, depth);
    TreeIsFlatten(list, depth);
    FlattenVisitsRooted(list, x);
    PickedCount(nodes, Walk(list, Roots(list), depth), x);
  }

  // ---------------------------------------------------------------- repeated ids

  lemma {:induction false} HomesOnly(list: seq<Tag>, row: seq<nat>, depth: nat, x: nat)
    requires InRange(list, row) && x in Walk(list, row, depth)
    ensures x < |list| && Home(list, x) == x
    decreases depth, |row|
  {
    hide Kids;
    if depth > 0 && row != [] {
      var i := Home(list, row[0]);
      KidsInRange(list, i);
      if x in Walk(list, Kids(list, i), depth - 1) {
        HomesOnly(list, Kids(list, i), depth - 1, x);
      } else if x in Walk(list, row[1..], depth) {
        HomesOnly(list, row[1..], depth, x);
      }
    }
  }

  /** A tag that shares its id with a later one is never visited. */
  lemma {:induction false} ReplacedNeverVisited(list: seq<Tag>, nodes: seq<Node>, roots: seq<Node>, depth: nat, x: nat)
    requires Built(list, nodes, roots) && x < |list| && Home(list, x) != x
    ensures nodes[x] !in WalkNodes(roots, depth)
  {
    hide Walk, WalkNodes, Home;
    BuiltIsWalked(list, nodes, roots, depth);
    var walked := Walk(list, Roots(list), depth);
    if nodes[x] in Picked(nodes, walked) {
      var k :| 0 <= k < |walked| && nodes[walked[k]] == nodes[x];
      assert walked[k] == x && x in walked;
      HomesOnly(list, Roots(list), depth, x);
    }
  }

  lemma {:induction false} RepeatedHasReplaced(list: seq<Tag>) returns (x: nat)
    requires !DistinctIds(list)
    ensures x < |list| && Home(list, x) != x
  {
    var i, j :| 0 <= i < j < |list| && list[i].id == list[j].id;
    LastIsLater(list, |list|, j);
    x := i;
  }

  lemma {:induction false} LastIsLater(list: seq<Tag>, n: nat, j: nat)
    requires j < n <= |list|
    ensures LastWith(list, n, list[j].id).Some? && LastWith(list, n, list[j].id).value >= j
  {
    if n - 1 > j && list[n - 1].id != list[j].id { LastIsLater(list, n - 1, j); }
  }

  const LOOP: seq<Tag> := [Tag(1, 0, "a"), Tag(1, 1, "b")]

  lemma LoopHomes()
    ensures Home(LOOP, 0) == 1 && Home(LOOP, 1) == 1 && Parent(LOOP, 0) == None && Parent(LOOP, 1) == Some(1)
  {
    assert LastWith(LOOP, 2, 1) == Some(1);
  }

  lemma {:induction false} LoopLinks()
    ensures Roots(LOOP) == [0] && Kids(LOOP, 1) == [1]
  {
    hide Parent;
    LoopHomes();
    assert Placed(LOOP, None, 0) == [] && Placed(LOOP, Some(1), 0) == [];
    assert Placed(LOOP, None, 1) == [0] && Placed(LOOP, Some(1), 1) == [];
    assert Placed(LOOP, None, 2) == [0] && Placed(LOOP, Some(1), 2) == [1];
  }

  lemma {:induction false} LoopWalk(row: seq<nat>, depth: nat)
    requires row == [0] || row == [1]
    ensures InRange(LOOP, row) && |Walk(LOOP, row, depth)| == depth
    decreases depth
  {
    hide Home, Kids;
    LoopHomes();
    LoopLinks();
    if depth > 0 {
      LoopWalk([1], depth - 1);
      assert row[1..] == [];
    }
  }

  /** Two tags with one id can make a node its own child below a root: the walk then never ends. */
  lemma {:induction false} RepeatedIdsCanLoop(nodes: seq<Node>, roots: seq<Node>, depth: nat)
    requires Built(LOOP, nodes, roots)
    ensures |WalkNodes(roots, depth)| == depth
  {
    hide Walk, WalkNodes, Built, Roots;
    BuiltIsWalked(LOOP, nodes, roots, depth);
    LoopLinks();
    LoopWalk([0], depth);
  }

  // ---------------------------------------------------------------- the exact condition

  lemma {:induction false} OnceMeansDistinct(list: seq<Tag>, nodes: seq<Node>, roots: seq<Node>, depth: nat)
    requires Built(list, nodes, roots) && multiset(WalkNodes(roots, depth)) == multiset(nodes)
    ensures DistinctIds(list)
  {
    hide WalkNodes, Home;
    if !DistinctIds(list) {
      var x := RepeatedHasReplaced(list);
      assert nodes[x] in multiset(nodes) && nodes[x] in multiset(WalkNodes(roots, depth));
      ReplacedNeverVisited(list, nodes, roots, depth, x);
    }
  }

  lemma {:induction false} DistinctOnceIff(list: seq<Tag>, nodes: seq<Node>, roots: seq<Node>, depth: nat)
    requires Built(list, nodes, roots) && DistinctIds(list) && depth >= |list|
    ensures multiset(WalkNodes(roots, depth)) == multiset(nodes) <==> Acyclic(list)
  {
    hide WalkNodes, Walk, FlattenAll, Acyclic, Picked;
    BuiltIsWalked(list, nodes, roots, depth);
    TreeIsFlatten(list, depth);
    FlattenIsPermutationIffAcyclic(list);
    NodesArePicked(nodes);
    PickedSame(nodes, Walk(list, Roots(list), depth), Positions(|nodes|));
  }

  /** However deep one goes, at least as deep as there are tags, the walk holds every node exactly once. */
  ghost predicate HoldsEachOnce(nodes: seq<Node>, roots: seq<Node>)
    reads *
  {
    forall depth: nat :: depth >= |nodes| ==> multiset(WalkNodes(roots, depth)) == multiset(nodes)
  }

  /**
   The walk of the built tree holds every node once if and only if ids are distinct and no tag is its own ancestor.
   */
  lemma {:induction false} EveryNodeOnceIff(list: seq<Tag>, nodes: seq<Node>, roots: seq<Node>)
    requires Built(list, nodes, roots)
    ensures HoldsEachOnce(nodes, roots) <==> DistinctIds(list) && Acyclic(list)
  {
    hide WalkNodes, DistinctIds, Acyclic;
    assert |nodes| == |list|;
    if HoldsEachOnce(nodes, roots) {
      assert multiset(WalkNodes(roots, |nodes|)) == multiset(nodes);
      OnceMeansDistinct(list, nodes, roots, |nodes|);
      DistinctOnceIff(list, nodes, roots, |nodes|);
    }
    if DistinctIds(list) && Acyclic(list) {
      forall depth: nat | depth >= |nodes| ensures multiset(WalkNodes(roots, depth)) == multiset(nodes) {
        DistinctOnceIff(list, nodes, roots, depth);
      }
    }
  }
}
