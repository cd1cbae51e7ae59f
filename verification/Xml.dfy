/** The part of the XML binding the API loader relies on: attributes, and the children of a node
    filtered by name. */
module Xml {
  import opened Common

  /** An element, or any other node (text, comment, ...), which the loader never looks into. */
  datatype Node = Element(tag: string, attrs: map<string, string>, children: seq<Node>) | Other

  function Attr(node: Node, name: string): Option<string> {
    if node.Element? && name in node.attrs then Some(node.attrs[name]) else None
  }

  predicate Matches(node: Node, filter: Option<string>) {
    node.Element? && (filter.None? || node.tag == filter.value)
  }

  /** The matching nodes of a list, in order. */
  function Matching(nodes: seq<Node>, filter: Option<string>): seq<Node> {
    if nodes == [] then [] else
    var front, last := Matching(nodes[..|nodes| - 1], filter), nodes[|nodes| - 1];
    if Matches(last, filter) then front + [last] else front
  }

  function Named(node: Node, tag: string): seq<Node> {
    if node.Element? then Matching(node.children, Some(tag)) else []
  }

  /** `node_children`: the walk along the siblings fills consecutive slots of the list; a node that
      is not an element has no list at all. */
  method NodeChildren(node: Node, filter: Option<string>) returns (list: Option<seq<Node>>)
    ensures list.Some? <==> node.Element?
    ensures node.Element? ==> list.value == Matching(node.children, filter)
  {
    if node.Other? {
      return None;
    }
    var n, filled := 0, [];
    while n < |node.children|
      invariant 0 <= n <= |node.children|
      invariant filled == Matching(node.children[..n], filter)
    {
      if node.children[n].Element? {
        if filter.None? || node.children[n].tag == filter.value {
          filled := filled + [node.children[n]];
        }
      }
      n := n + 1;
      assert node.children[..n][..n - 1] == node.children[..n - 1];
    }
    assert node.children[..n] == node.children;
    list := Some(filled);
  }

  /** Where the matching nodes are. */
  ghost function Places(nodes: seq<Node>, filter: Option<string>): seq<nat> {
    if nodes == [] then [] else
    var front, last := Places(nodes[..|nodes| - 1], filter), |nodes| - 1;
    if Matches(nodes[last], filter) then front + [last] else front
  }

  /** The list is dense and in order: it enumerates, by increasing place, exactly the nodes that
      match. */
  lemma {:induction false} MatchingIsDenseAndOrdered(nodes: seq<Node>, filter: Option<string>)
    ensures var list, places := Matching(nodes, filter), Places(nodes, filter);
            && |list| == |places|
            && (forall k :: 0 <= k < |places| ==> places[k] < |nodes| && list[k] == nodes[places[k]])
            && (forall j, k :: 0 <= j < k < |places| ==> places[j] < places[k])
            && (forall i :: 0 <= i < |nodes| ==> (Matches(nodes[i], filter) <==> i in places))
  {
    if nodes != [] {
      var front := nodes[..|nodes| - 1];
      MatchingIsDenseAndOrdered(front, filter);
      assert forall i :: 0 <= i < |front| ==> front[i] == nodes[i];
    }
  }

  lemma {:induction false} MatchingAreElements(nodes: seq<Node>, filter: Option<string>, k: nat)
    requires k < |Matching(nodes, filter)|
    ensures Matches(Matching(nodes, filter)[k], filter)
  {
    MatchingIsDenseAndOrdered(nodes, filter);
    assert Places(nodes, filter)[k] in Places(nodes, filter);
  }

  /** A node and everything below it, in document order. */
  function DocumentOrder(node: Node): seq<Node> {
    [node] + if node.Element? then ForestOrder(node.children) else []
  }

  function ForestOrder(nodes: seq<Node>): seq<Node> {
    if nodes == [] then [] else DocumentOrder(nodes[0]) + ForestOrder(nodes[1..])
  }

  // ---------- document order ----------

  /** A node by the child numbers that lead to it. */
  predicate IsPath(node: Node, path: seq<nat>)
    decreases path
  {
    path == [] || (node.Element? && path[0] < |node.children| && IsPath(node.children[path[0]], path[1..]))
  }

  function NodeAt(node: Node, path: seq<nat>): Node
    requires IsPath(node, path)
    decreases path
  {
    if path == [] then node else NodeAt(node.children[path[0]], path[1..])
  }

  /** Its place: behind its ancestors, and behind everything below the earlier siblings of these and its
      own. */
  function PlaceOf(node: Node, path: seq<nat>): nat
    requires IsPath(node, path)
    decreases path
  {
    if path == [] then 0
    else 1 + |ForestOrder(node.children[..path[0]])| + PlaceOf(node.children[path[0]], path[1..])
  }

  lemma {:induction false} ForestSplits(nodes: seq<Node>, i: nat)
    requires i < |nodes|
    ensures ForestOrder(nodes) == ForestOrder(nodes[..i]) + (DocumentOrder(nodes[i]) + ForestOrder(nodes[i + 1..]))
  {
    if i > 0 {
      ForestSplits(nodes[1..], i - 1);
      assert nodes[1..][..i - 1] == nodes[..i][1..] && nodes[1..][i..] == nodes[i + 1..];
    }
  }

  /** Every node below stands at its place. */
  lemma {:induction false} NodeHasPlace(node: Node, path: seq<nat>)
    requires IsPath(node, path)
    ensures PlaceOf(node, path) < |DocumentOrder(node)|
    ensures DocumentOrder(node)[PlaceOf(node, path)] == NodeAt(node, path)
    decreases path
  {
    if path != [] {
      NodeHasPlace(node.children[path[0]], path[1..]);
      ForestSplits(node.children, path[0]);
    }
  }

  /** And there is nothing else. */
  lemma {:induction false} PlaceHasNode(node: Node, k: nat) returns (path: seq<nat>)
    requires k < |DocumentOrder(node)|
    ensures IsPath(node, path) && PlaceOf(node, path) == k
    decreases node
  {
    path := [];
    if k > 0 {
      var i, rest := ForestPlace(node.children, k - 1);
      path := [i] + rest;
      assert path[1..] == rest;
    }
  }

  lemma {:induction false} ForestPlace(nodes: seq<Node>, k: nat) returns (i: nat, path: seq<nat>)
    requires k < |ForestOrder(nodes)|
    ensures i < |nodes| && IsPath(nodes[i], path) && |ForestOrder(nodes[..i])| + PlaceOf(nodes[i], path) == k
    decreases nodes
  {
    var first := |DocumentOrder(nodes[0])|;
    if k < first {
      i := 0;
      path := PlaceHasNode(nodes[0], k);
    } else {
      var j, rest := ForestPlace(nodes[1..], k - first);
      i, path := j + 1, rest;
      assert nodes[..i][1..] == nodes[1..][..j];
    }
  }
}
