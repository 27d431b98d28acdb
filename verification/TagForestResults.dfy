/** The forest of tags by position: climbing to the root, cycles, and the walk down from the roots. */
module TagForestResults {
  import opened Wrappers
  import opened TagForest

  // ---------------------------------------------------------------- climbing to the root

  /** k parents up from tag i. */
  ghost function Climb(list: seq<Tag>, i: nat, k: nat): (r: Option<nat>)
    requires i < |list|
    ensures r.Some? ==> r.value < |list|
    decreases k
  {
    if k == 0 then Some(i)
    else match Parent(list, i)
      case None => None
      case Some(p) => Climb(list, p, k - 1)
  }

  ghost predicate AtDepth(list: seq<Tag>, i: nat, d: nat)
    requires i < |list|
    decreases d
  {
    if d == 0 then Parent(list, i).None? else Parent(list, i).Some? && AtDepth(list, Parent(list, i).value, d - 1)
  }

  ghost predicate Rooted(list: seq<Tag>, i: nat)
    requires i < |list|
  {
    exists d: nat :: AtDepth(list, i, d)
  }

  /** No tag is its own ancestor. */
  ghost predicate Acyclic(list: seq<Tag>) {
    forall i: nat, k: nat :: i < |list| && k > 0 ==> Climb(list, i, k) != Some(i)
  }

  lemma {:induction false} DepthUnique(list: seq<Tag>, i: nat, d: nat, e: nat)
    requires i < |list| && AtDepth(list, i, d) && AtDepth(list, i, e)
    ensures d == e
    decreases d
  {
    hide Parent;
    if d > 0 && e > 0 { DepthUnique(list, Parent(list, i).value, d - 1, e - 1); }
  }

  lemma {:induction false} ClimbDepth(list: seq<Tag>, x: nat, k: nat, d: nat)
    requires x < |list| && Climb(list, x, k).Some? && AtDepth(list, Climb(list, x, k).value, d)
    ensures AtDepth(list, x, d + k)
    decreases k
  {
    hide Parent;
    if k > 0 { ClimbDepth(list, Parent(list, x).value, k - 1, d); }
  }

  lemma {:induction false} ClimbToRoot(list: seq<Tag>, x: nat, d: nat)
    requires x < |list| && AtDepth(list, x, d)
    ensures Climb(list, x, d).Some? && Parent(list, Climb(list, x, d).value).None?
    decreases d
  {
    hide Parent;
    if d > 0 { ClimbToRoot(list, Parent(list, x).value, d - 1); }
  }

  lemma {:induction false} ClimbOn(list: seq<Tag>, x: nat, a: nat, b: nat)
    requires x < |list| && Climb(list, x, a).Some?
    ensures Climb(list, x, a + b) == Climb(list, Climb(list, x, a).value, b)
    decreases a
  {
    hide Parent;
    if a > 0 { ClimbOn(list, Parent(list, x).value, a - 1, b); }
  }

  // ---------------------------------------------------------------- depths are bounded

  lemma {:induction false} DistinctFits(s: seq<nat>, n: nat)
    requires forall k :: 0 <= k < |s| ==> s[k] < n
    requires forall a, b :: 0 <= a < b < |s| ==> s[a] != s[b]
    ensures |s| <= n
    decreases n
  {
    if |s| > 0 { assert s[0] < n; }
    if n > 0 {
      if k :| 0 <= k < |s| && s[k] == n - 1 {
        var rest := s[..k] + s[k + 1..];
        DistinctFits(rest, n - 1);
      } else {
        DistinctFits(s, n - 1);
      }
    }
  }

  lemma {:induction false} DepthBound(list: seq<Tag>, i: nat, d: nat)
    requires i < |list| && AtDepth(list, i, d)
    ensures d < |list|
  {
    hide Parent, Climb;
    var chain: seq<nat> := [];
    for k := 0 to d + 1
      invariant |chain| == k
      invariant forall h :: 0 <= h < k ==> chain[h] < |list| && AtDepth(list, chain[h], d - h)
    {
      StepDepth(list, i, d, k);
      chain := chain + [Climb(list, i, k).value];
    }
    forall a, b | 0 <= a < b < |chain| ensures chain[a] != chain[b] {
      if chain[a] == chain[b] { DepthUnique(list, chain[a], d - a, d - b); }
    }
    DistinctFits(chain, |list|);
  }

  lemma {:induction false} StepDepth(list: seq<Tag>, i: nat, d: nat, k: nat)
    requires i < |list| && AtDepth(list, i, d) && k <= d
    ensures Climb(list, i, k).Some? && AtDepth(list, Climb(list, i, k).value, d - k)
    decreases k
  {
    hide Parent;
    if k > 0 { StepDepth(list, Parent(list, i).value, d - 1, k - 1); }
  }

  // ---------------------------------------------------------------- walking the tree

  ghost predicate RowAt(list: seq<Tag>, row: seq<nat>, d: nat) {
    && (forall k :: 0 <= k < |row| ==> row[k] < |list| && AtDepth(list, row[k], d))
    && (forall a, b :: 0 <= a < b < |row| ==> row[a] != row[b])
  }

  lemma KidsAt(list: seq<Tag>, i: nat, d: nat)
    requires i < |list| && AtDepth(list, i, d)
    ensures RowAt(list, Kids(list, i), d + 1)
  {
    hide Parent, Placed;
  }

  lemma RootsAt(list: seq<Tag>)
    ensures RowAt(list, Roots(list), 0)
  {
    hide Parent, Placed;
  }

  /** A node, then each of its children in turn: the walk ends, since every step down is one deeper. */
  ghost function Flatten(list: seq<Tag>, i: nat, d: nat): seq<nat>
    requires i < |list| && AtDepth(list, i, d)
    decreases if d <= |list| then |list| - d else 0, 0, 0
  {
    DepthBound(list, i, d);
    KidsAt(list, i, d);
    [i] + FlattenRow(list, Kids(list, i), |Kids(list, i)|, d + 1)
  }

  ghost function FlattenRow(list: seq<Tag>, row: seq<nat>, n: nat, d: nat): seq<nat>
    requires n <= |row| && RowAt(list, row, d)
    decreases if d <= |list| then |list| - d else 0, 1, n
  {
    if n == 0 then [] else FlattenRow(list, row, n - 1, d) + Flatten(list, row[n - 1], d)
  }

  /** All roots in turn. */
  ghost function FlattenAll(list: seq<Tag>): seq<nat> {
    RootsAt(list);
    FlattenRow(list, Roots(list), |Roots(list)|, 0)
  }

  ghost predicate Under(list: seq<Tag>, x: nat, i: nat)
    requires x < |list|
  {
    exists k: nat :: Climb(list, x, k) == Some(i)
  }

  ghost predicate UnderRow(list: seq<Tag>, x: nat, row: seq<nat>, n: nat)
    requires x < |list| && n <= |row|
  {
    exists m :: 0 <= m < n && Under(list, x, row[m])
  }

  // A tag is under at most one of several tags of the same depth.
  lemma {:induction false} UnderOne(list: seq<Tag>, x: nat, i: nat, j: nat, d: nat)
    requires x < |list| && i < |list| && j < |list| && AtDepth(list, i, d) && AtDepth(list, j, d)
    requires Under(list, x, i) && Under(list, x, j)
    ensures i == j
  {
    hide Parent, Climb, AtDepth;
    var k: nat :| Climb(list, x, k) == Some(i);
    var l: nat :| Climb(list, x, l) == Some(j);
    ClimbDepth(list, x, k, d);
    ClimbDepth(list, x, l, d);
    DepthUnique(list, x, d + k, d + l);
  }

  lemma {:induction false} UnderSelf(list: seq<Tag>, i: nat)
    requires i < |list|
    ensures Under(list, i, i)
  {
    assert Climb(list, i, 0) == Some(i);
  }

  // Under a node is the node itself or a tag under one of its children, never both.
  lemma {:induction false} UnderKids(list: seq<Tag>, x: nat, i: nat, d: nat)
    requires x < |list| && i < |list| && AtDepth(list, i, d)
    ensures UnderRow(list, x, Kids(list, i), |Kids(list, i)|) <==> Under(list, x, i) && x != i
  {
    hide Parent, AtDepth, Placed;
    var kids := Kids(list, i);
    if Under(list, x, i) && x != i {
      var k: nat :| Climb(list, x, k) == Some(i);
      assert k != 0;
      LastStep(list, x, k, i);
      var kid := Climb(list, x, k - 1).value;
      assert kid in kids;
      assert Under(list, x, kid);
    }
    if UnderRow(list, x, kids, |kids|) {
      var m :| 0 <= m < |kids| && Under(list, x, kids[m]);
      var k: nat :| Climb(list, x, k) == Some(kids[m]);
      ClimbOn(list, x, k, 1);
      OneUp(list, kids[m], i);
      assert Climb(list, x, k + 1) == Some(i);
      ClimbDepth(list, x, k + 1, d);
      if x == i { DepthUnique(list, x, d, d + k + 1); }
    }
  }

  lemma OneUp(list: seq<Tag>, j: nat, i: nat)
    requires j < |list| && Parent(list, j) == Some(i)
    ensures Climb(list, j, 1) == Some(i)
  {
    assert Climb(list, i, 0) == Some(i);
  }

  lemma {:induction false} LastStep(list: seq<Tag>, x: nat, k: nat, i: nat)
    requires x < |list| && k > 0 && Climb(list, x, k) == Some(i)
    ensures Climb(list, x, k - 1).Some? && Parent(list, Climb(list, x, k - 1).value) == Some(i)
    decreases k
  {
    hide Parent;
    if k > 1 { LastStep(list, Parent(list, x).value, k - 1, i); }
  }

  ghost function Once(b: bool): nat {
    if b then 1 else 0
  }

  lemma {:induction false} FlattenCounts(list: seq<Tag>, i: nat, d: nat, x: nat)
    requires i < |list| && AtDepth(list, i, d) && x < |list|
    ensures multiset(Flatten(list, i, d))[x] == Once(Under(list, x, i))
    decreases if d <= |list| then |list| - d else 0, 0, 0
  {
    hide Under, UnderRow, Parent, AtDepth;
    DepthBound(list, i, d);
    KidsAt(list, i, d);
    var kids := Kids(list, i);
    FlattenRowCounts(list, kids, |kids|, d + 1, x);
    UnderKids(list, x, i, d);
    UnderSelf(list, i);
    assert multiset(Flatten(list, i, d)) == multiset([i]) + multiset(FlattenRow(list, kids, |kids|, d + 1));
  }

  lemma UnderRowStep(list: seq<Tag>, x: nat, row: seq<nat>, n: nat)
    requires x < |list| && n < |row|
    ensures UnderRow(list, x, row, n + 1) <==> UnderRow(list, x, row, n) || Under(list, x, row[n])
  {
    hide Under;
  }

  lemma {:induction false} UnderRowOne(list: seq<Tag>, x: nat, row: seq<nat>, n: nat, d: nat)
    requires x < |list| && n < |row| && RowAt(list, row, d)
    ensures !(UnderRow(list, x, row, n) && Under(list, x, row[n]))
  {
    hide Under, AtDepth;
    if UnderRow(list, x, row, n) && Under(list, x, row[n]) {
      var m :| 0 <= m < n && Under(list, x, row[m]);
      UnderOne(list, x, row[m], row[n], d);
    }
  }

  lemma {:induction false} FlattenRowCounts(list: seq<Tag>, row: seq<nat>, n: nat, d: nat, x: nat)
    requires n <= |row| && RowAt(list, row, d) && x < |list|
    ensures multiset(FlattenRow(list, row, n, d))[x] == Once(UnderRow(list, x, row, n))
    decreases if d <= |list| then |list| - d else 0, 1, n
  {
    hide Under, AtDepth, Flatten;
    if n > 0 {
      hide UnderRow;
      FlattenRowCounts(list, row, n - 1, d, x);
      FlattenCounts(list, row[n - 1], d, x);
      UnderRowStep(list, x, row, n - 1);
      UnderRowOne(list, x, row, n - 1, d);
      assert multiset(FlattenRow(list, row, n, d)) ==
               multiset(FlattenRow(list, row, n - 1, d)) + multiset(Flatten(list, row[n - 1], d));
    }
  }

  /** The walk over positions visits every tag whose ancestors end at a root exactly once, and no other. */
  lemma {:induction false} FlattenVisitsRooted(list: seq<Tag>, x: nat)
    requires x < |list|
    ensures multiset(FlattenAll(list))[x] == Once(Rooted(list, x))
  {
    hide Parent, AtDepth, Climb, Placed, FlattenRow;
    RootsAt(list);
    var roots := Roots(list);
    FlattenRowCounts(list, roots, |roots|, 0, x);
    if Rooted(list, x) {
      var d: nat :| AtDepth(list, x, d);
      ClimbToRoot(list, x, d);
      var r := Climb(list, x, d).value;
      assert r in roots;
      assert Under(list, x, r);
    }
    if UnderRow(list, x, roots, |roots|) {
      var m :| 0 <= m < |roots| && Under(list, x, roots[m]);
      var k: nat :| Climb(list, x, k) == Some(roots[m]);
      ClimbDepth(list, x, k, 0);
      assert AtDepth(list, x, k);
    }
  }

  // ---------------------------------------------------------------- cycles

  lemma {:induction false} UnrootedClimbs(list: seq<Tag>, i: nat, k: nat)
    requires i < |list| && !Rooted(list, i)
    ensures Climb(list, i, k).Some?
  {
    hide Parent;
    if k > 0 {
      UnrootedClimbs(list, i, k - 1);
      var j := Climb(list, i, k - 1).value;
      ClimbOn(list, i, k - 1, 1);
      if Parent(list, j).None? {
        assert AtDepth(list, j, 0);
        ClimbDepth(list, i, k - 1, 0);
      } else {
        OneUp(list, j, Parent(list, j).value);
      }
    }
  }

  lemma {:induction false} UnrootedHasCycle(list: seq<Tag>, i: nat)
    requires i < |list| && !Rooted(list, i)
    ensures !Acyclic(list)
  {
    hide Climb, Rooted;
    var chain: seq<nat> := [];
    for k := 0 to |list| + 1
      invariant |chain| == k
      invariant forall h :: 0 <= h < k ==> chain[h] < |list| && Climb(list, i, h) == Some(chain[h])
    {
      UnrootedClimbs(list, i, k);
      chain := chain + [Climb(list, i, k).value];
    }
    if forall a, b :: 0 <= a < b < |chain| ==> chain[a] != chain[b] {
      DistinctFits(chain, |list|);
    } else {
      var a, b :| 0 <= a < b < |chain| && chain[a] == chain[b];
      ClimbOn(list, i, a, b - a);
      assert Climb(list, chain[a], b - a) == Some(chain[a]);
    }
  }

  lemma {:induction false} CycleIsUnrooted(list: seq<Tag>, i: nat, k: nat)
    requires i < |list| && k > 0 && Climb(list, i, k) == Some(i)
    ensures !Rooted(list, i)
  {
    hide Climb, AtDepth;
    if Rooted(list, i) {
      var d: nat :| AtDepth(list, i, d);
      ClimbDepth(list, i, k, d);
      DepthUnique(list, i, d, d + k);
    }
  }

  lemma {:induction false} AcyclicIffRooted(list: seq<Tag>)
    ensures Acyclic(list) <==> forall i: nat :: i < |list| ==> Rooted(list, i)
  {
    hide Climb, Rooted;
    if !Acyclic(list) {
      var i: nat, k: nat :| i < |list| && k > 0 && Climb(list, i, k) == Some(i);
      CycleIsUnrooted(list, i, k);
    } else {
      forall i: nat | i < |list| ensures Rooted(list, i) {
        if !Rooted(list, i) { UnrootedHasCycle(list, i); }
      }
    }
  }

  ghost function Positions(n: nat): (s: seq<nat>)
    ensures |s| == n && forall i :: 0 <= i < n ==> s[i] == i
  {
    seq(n, i => i)
  }

  lemma {:induction false} PositionsOnce(n: nat, x: nat)
    ensures multiset(Positions(n))[x] == Once(x < n)
  {
    if n > 0 {
      PositionsOnce(n - 1, x);
      assert Positions(n) == Positions(n - 1) + [n - 1];
    }
  }

  lemma {:induction false} FlattenInRange(list: seq<Tag>, i: nat, d: nat)
    requires i < |list| && AtDepth(list, i, d)
    ensures forall x :: x in Flatten(list, i, d) ==> x < |list|
    decreases if d <= |list| then |list| - d else 0, 0, 0
  {
    DepthBound(list, i, d);
    KidsAt(list, i, d);
    FlattenRowInRange(list, Kids(list, i), |Kids(list, i)|, d + 1);
  }

  lemma {:induction false} FlattenRowInRange(list: seq<Tag>, row: seq<nat>, n: nat, d: nat)
    requires n <= |row| && RowAt(list, row, d)
    ensures forall x :: x in FlattenRow(list, row, n, d) ==> x < |list|
    decreases if d <= |list| then |list| - d else 0, 1, n
  {
    if n > 0 {
      FlattenRowInRange(list, row, n - 1, d);
      FlattenInRange(list, row[n - 1], d);
    }
  }

  /** The walk over positions is a permutation of the input exactly when no tag is its own ancestor. */
  lemma {:induction false} FlattenIsPermutationIffAcyclic(list: seq<Tag>)
    ensures multiset(FlattenAll(list)) == multiset(Positions(|list|)) <==> Acyclic(list)
  {
    hide Acyclic, Rooted, FlattenRow, Positions, Roots;
    AcyclicIffRooted(list);
    RootsAt(list);
    FlattenRowInRange(list, Roots(list), |Roots(list)|, 0);
    forall x: nat ensures x < |list| ==> multiset(FlattenAll(list))[x] == Once(Rooted(list, x))
                  ensures multiset(Positions(|list|))[x] == Once(x < |list|)
                  ensures x >= |list| ==> multiset(FlattenAll(list))[x] == 0
    {
      if x < |list| { FlattenVisitsRooted(list, x); } else { assert x !in FlattenAll(list); }
      PositionsOnce(|list|, x);
    }
    if multiset(FlattenAll(list)) == multiset(Positions(|list|)) {
      forall x: nat | x < |list| ensures Rooted(list, x) {
        assert multiset(FlattenAll(list))[x] == 1;
      }
    }
  }

  // ---------------------------------------------------------------- every tag is placed once

  /** The lengths of the children lists of the first n nodes, counting the first m tags. */
  ghost function ChildTotal(list: seq<Tag>, m: nat, n: nat): nat
    requires m <= |list|
  {
    if n == 0 then 0 else ChildTotal(list, m, n - 1) + |Placed(list, Some(n - 1), m)|
  }

  lemma {:induction false} ChildTotalStep(list: seq<Tag>, m: nat, n: nat)
    requires m < |list|
    ensures ChildTotal(list, m + 1, n) ==
              ChildTotal(list, m, n) + Once(Parent(list, m).Some? && Parent(list, m).value < n)
  {
    hide Parent;
    if n > 0 { ChildTotalStep(list, m, n - 1); }
  }

  lemma {:induction false} PlacedCount(list: seq<Tag>, m: nat)
    requires m <= |list|
    ensures |Placed(list, None, m)| + ChildTotal(list, m, |list|) == m
  {
    hide Parent, ChildTotal;
    if m == 0 {
      NoChildren(list, |list|);
    } else {
      PlacedCount(list, m - 1);
      ChildTotalStep(list, m - 1, |list|);
    }
  }

  lemma {:induction false} NoChildren(list: seq<Tag>, n: nat)
    ensures ChildTotal(list, 0, n) == 0
  {
    if n > 0 { NoChildren(list, n - 1); }
  }

  /** The roots and all children lists together hold as many entries as there are tags. */
  lemma {:induction false} EveryTagPlaced(list: seq<Tag>)
    ensures |Roots(list)| + ChildTotal(list, |list|, |list|) == |list|
  {
    PlacedCount(list, |list|);
  }

  lemma {:induction false} DistinctOnce(s: seq<nat>, j: nat)
    requires forall a, b :: 0 <= a < b < |s| ==> s[a] != s[b]
    ensures multiset(s)[j] == Once(j in s)
  {
    if |s| > 0 {
      var rest, last := s[..|s| - 1], s[|s| - 1];
      DistinctOnce(rest, j);
      assert s == rest + [last];
      assert last !in rest;
    }
  }

  /** Each tag is in exactly one of those lists, once: the children of its parent, or the roots. */
  lemma {:induction false} PlacedOnce(list: seq<Tag>, j: nat, p: Option<nat>)
    requires j < |list|
    ensures multiset(Placed(list, p, |list|))[j] == Once(Parent(list, j) == p)
  {
    hide Parent, Placed;
    DistinctOnce(Placed(list, p, |list|), j);
  }
}
