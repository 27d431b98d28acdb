/**
 The tag tree builder: every tag is appended to the children of its parent, or to the roots when it
 names no parent or an absent one. The children lists are described by positions in the input.
 */
module TagForest {
  import opened Wrappers

  datatype Tag = Tag(id: int, parent: int, name: string)

  class Node {
    const tag: Tag
    var children: seq<Node>

    constructor (tag: Tag)
      ensures this.tag == tag && children == []
    {
      this.tag := tag;
      children := [];
    }
  }

  // ---------------------------------------------------------------- positions

  ghost predicate DistinctIds(list: seq<Tag>) {
    forall i, j :: 0 <= i < j < |list| ==> list[i].id != list[j].id
  }

  /** The last of the first n tags with the given id: its node is the one the map keeps. */
  function LastWith(list: seq<Tag>, n: nat, id: int): (p: Option<nat>)
    requires n <= |list|
    ensures p.Some? ==> p.value < n && list[p.value].id == id
    ensures p.None? ==> forall i :: 0 <= i < n ==> list[i].id != id
  {
    if n == 0 then None else if list[n - 1].id == id then Some(n - 1) else LastWith(list, n - 1, id)
  }

  /** Whose node stands for tag j: its own, unless a later tag has the same id. */
  function Home(list: seq<Tag>, j: nat): (i: nat)
    requires j < |list|
    ensures i < |list| && list[i].id == list[j].id
  {
    LastWith(list, |list|, list[j].id).value
  }

  lemma {:induction false} DistinctHome(list: seq<Tag>, j: nat)
    requires DistinctIds(list) && j < |list|
    ensures Home(list, j) == j
  {
  }

  /** The position of the parent of tag j; none for a root. */
  function Parent(list: seq<Tag>, j: nat): (p: Option<nat>)
    requires j < |list|
    ensures p.Some? ==> p.value < |list| && list[p.value].id == list[j].parent
  {
    if list[j].parent == 0 then None else LastWith(list, |list|, list[j].parent)
  }

  /** The tags with parent p among the first n, in input order. */
  ghost function Placed(list: seq<Tag>, p: Option<nat>, n: nat): (js: seq<nat>)
    requires n <= |list|
    ensures forall k :: 0 <= k < |js| ==> js[k] < n && Parent(list, js[k]) == p
    ensures forall a, b :: 0 <= a < b < |js| ==> js[a] < js[b]
    ensures forall j :: 0 <= j < n && Parent(list, j) == p ==> j in js
  {
    if n == 0 then []
    else
      var before := Placed(list, p, n - 1);
      if Parent(list, n - 1) == p then before + [n - 1] else before
  }

  ghost function Roots(list: seq<Tag>): seq<nat> {
    Placed(list, None, |list|)
  }

  ghost function Kids(list: seq<Tag>, i: nat): seq<nat> {
    Placed(list, Some(i), |list|)
  }

  // ---------------------------------------------------------------- building

  /** The nodes that stand for the tags at the given positions. */
  ghost function NodesAt(list: seq<Tag>, nodes: seq<Node>, js: seq<nat>): seq<Node>
    requires |nodes| == |list| && forall k :: 0 <= k < |js| ==> js[k] < |list|
  {
    seq(|js|, k requires 0 <= k < |js| => nodes[Home(list, js[k])])
  }

  // The node of tag i holds its children among the first n tags.
  ghost predicate Filled(list: seq<Tag>, nodes: seq<Node>, i: nat, n: nat)
    requires n <= |list| == |nodes| && i < |nodes|
    reads nodes[i]
  {
    nodes[i].children == NodesAt(list, nodes, Placed(list, Some(i), n))
  }

  ghost predicate AllFilled(list: seq<Tag>, nodes: seq<Node>, n: nat)
    requires n <= |list| == |nodes|
    reads nodes
  {
    forall i :: 0 <= i < |nodes| ==> Filled(list, nodes, i, n)
  }

  ghost predicate NodesFor(list: seq<Tag>, nodes: seq<Node>) {
    && |nodes| == |list|
    && (forall i :: 0 <= i < |nodes| ==> nodes[i].tag == list[i])
    && (forall i, j :: 0 <= i < j < |nodes| ==> nodes[i] != nodes[j])
  }

  ghost predicate Maps(list: seq<Tag>, nodes: seq<Node>, n: nat, nodeMap: map<int, Node>)
    requires n <= |list| && n <= |nodes|
  {
    forall id ::
      if LastWith(list, n, id).Some? then id in nodeMap && nodeMap[id] == nodes[LastWith(list, n, id).value]
      else id !in nodeMap
  }

  lemma {:induction false} ParentFound(list: seq<Tag>, nodes: seq<Node>, nodeMap: map<int, Node>, j: nat)
    requires NodesFor(list, nodes) && Maps(list, nodes, |list|, nodeMap) && j < |list|
    ensures Parent(list, j).Some? <==> list[j].parent != 0 && list[j].parent in nodeMap
    ensures Parent(list, j).Some? ==> nodeMap[list[j].parent] == nodes[Parent(list, j).value]
    ensures list[j].id in nodeMap && nodeMap[list[j].id] == nodes[Home(list, j)]
  {
    hide LastWith;
    var id := list[j].id;
    assert LastWith(list, |list|, id).Some?;
  }

  lemma PlaceOne(list: seq<Tag>, nodes: seq<Node>, p: Option<nat>, n: nat)
    requires n < |list| == |nodes|
    ensures NodesAt(list, nodes, Placed(list, p, n + 1)) ==
            if Parent(list, n) == p then NodesAt(list, nodes, Placed(list, p, n)) + [nodes[Home(list, n)]]
            else NodesAt(list, nodes, Placed(list, p, n))
  {
  }

  /** The nodes, by position, with the children each holds; the roots are returned in input order. */
  method MakeNodes(list: seq<Tag>) returns (nodes: seq<Node>, nodeMap: map<int, Node>)
    ensures NodesFor(list, nodes) && Maps(list, nodes, |list|, nodeMap) && fresh(set i | 0 <= i < |nodes| :: nodes[i])
    ensures forall i :: 0 <= i < |nodes| ==> nodes[i].children == []
  {
    nodes, nodeMap := [], map[];
    for i := 0 to |list|
      invariant |nodes| == i && Maps(list, nodes, i, nodeMap)
      invariant forall k :: 0 <= k < i ==> nodes[k].tag == list[k] && nodes[k].children == [] && fresh(nodes[k])
      invariant forall k, l :: 0 <= k < l < i ==> nodes[k] != nodes[l]
    {
      var node := new Node(list[i]);
      nodes := nodes + [node];
      nodeMap := nodeMap[list[i].id := node];
    }
  }

  /** One tag placed under its parent, or among the roots. */
  method Place(
    list: seq<Tag>, ghost nodes: seq<Node>, nodeMap: map<int, Node>, j: nat, roots: seq<Node>)
    returns (grown: seq<Node>)
    requires NodesFor(list, nodes) && Maps(list, nodes, |list|, nodeMap) && j < |list|
    requires roots == NodesAt(list, nodes, Placed(list, None, j))
    requires AllFilled(list, nodes, j)
    modifies set i | 0 <= i < |nodes| :: nodes[i]
    ensures grown == NodesAt(list, nodes, Placed(list, None, j + 1))
    ensures AllFilled(list, nodes, j + 1)
  {
    hide Parent, NodesAt, Placed, LastWith, Home;
    ParentFound(list, nodes, nodeMap, j);
    PlaceOne(list, nodes, None, j);
    ghost var m := j + 1;
    var item := list[j];
    var node := nodeMap[item.id];
    if item.parent == 0 || item.parent !in nodeMap {
      grown := roots + [node];
      forall i | 0 <= i < |nodes| ensures Filled(list, nodes, i, m) {
        PlaceOne(list, nodes, Some(i), j);
        assert Filled(list, nodes, i, j);
      }
    } else {
      var parent := nodeMap[item.parent];
      ghost var p := Parent(list, j).value;
      assert parent == nodes[p];
      grown := roots;
      label before:
      parent.children := parent.children + [node];
      forall i | 0 <= i < |nodes| ensures Filled(list, nodes, i, m) {
        PlaceOne(list, nodes, Some(i), j);
        assert old@before(Filled(list, nodes, i, j));
        assert i != p ==> nodes[i] != parent;
      }
    }
  }

  lemma NothingPlaced(list: seq<Tag>, nodes: seq<Node>, p: Option<nat>)
    requires |nodes| == |list|
    ensures NodesAt(list, nodes, Placed(list, p, 0)) == []
  {
  }

  /** The result: roots and children lists hold the nodes that stand for the tags placed there. */
  ghost predicate Built(list: seq<Tag>, nodes: seq<Node>, roots: seq<Node>)
    reads nodes
  {
    && NodesFor(list, nodes)
    && roots == NodesAt(list, nodes, Roots(list))
    && forall i :: 0 <= i < |nodes| ==> nodes[i].children == NodesAt(list, nodes, Kids(list, i))
  }

  method BuildTree(list: seq<Tag>) returns (roots: seq<Node>, ghost nodes: seq<Node>)
    ensures Built(list, nodes, roots) && fresh(set i | 0 <= i < |nodes| :: nodes[i])
    ensures |nodes| == |list| && forall i :: 0 <= i < |list| ==> nodes[i].tag == list[i]
  {
    hide Parent, NodesAt, Placed, LastWith, Home;
    var made, nodeMap := MakeNodes(list);
    nodes := made;
    roots := [];
    NothingPlaced(list, nodes, None);
    forall i | 0 <= i < |nodes| ensures Filled(list, nodes, i, 0) { NothingPlaced(list, nodes, Some(i)); }
    for j := 0 to |list|
      invariant roots == NodesAt(list, nodes, Placed(list, None, j))
      invariant AllFilled(list, nodes, j)
    {
      roots := Place(list, nodes, nodeMap, j, roots);
    }
    forall i | 0 <= i < |nodes| ensures nodes[i].children == NodesAt(list, nodes, Kids(list, i)) {
      assert Filled(list, nodes, i, |list|);
    }
  }
}
