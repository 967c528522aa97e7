/**
 * The elements both request builders scan: every element of the document
 * (the root included, in document order) that has no child element, or
 * exactly one child element that is an `a` link. Each comes with the
 * nearest element before it among its siblings, which is where its label
 * stands.
 */
module Leaves {
  import opened Base
  import opened Dom
  import opened PrevElementRefTrait

  /** A scanned element and the element sibling before it. */
  datatype Leaf = Leaf(node: Node, prev: Option<Node>)

  /** The filter of the builders' scan. */
  predicate IsLeafElement(n: Node)
  {
    n.Element?
    && (|ChildElements(n)| == 0 || (|ChildElements(n)| == 1 && ChildElements(n)[0].tag == "a"))
  }

  predicate WellFormedLeaf(l: Leaf)
  {
    IsLeafElement(l.node) && (l.prev.Some? ==> l.prev.value.Element?)
  }

  /**
   * `descendent_elements()`: every element among `siblings[i..]` and below
   * them, in pre-order (each element before its children, its children
   * before its next sibling), each with its element sibling before it.
   */
  function ElementsIn(siblings: seq<Node>, i: nat): (r: seq<Leaf>)
    requires i <= |siblings|
    ensures forall k :: 0 <= k < |r| ==> r[k].node.Element?
    ensures i < |siblings| && siblings[i].Element? ==> r != [] && r[0] == Leaf(siblings[i], PrevElementRef(siblings, i))
    decreases siblings, |siblings| - i
  {
    if i == |siblings| then []
    else
      var n := siblings[i];
      (if n.Element? then [Leaf(n, PrevElementRef(siblings, i))] + ElementsIn(n.children, 0) else [])
      + ElementsIn(siblings, i + 1)
  }

  /** The document's elements in pre-order, the root first; the root has no siblings. */
  function DocumentElements(root: Node): (r: seq<Leaf>)
    ensures forall k :: 0 <= k < |r| ==> r[k].node.Element?
    ensures root.Element? <==> r != []
    ensures root.Element? ==> r[0] == Leaf(root, None)
  {
    if root.Element? then [Leaf(root, None)] + ElementsIn(root.children, 0) else []
  }

  /** `filter_map` with the builders' test: the visited elements that are leaves, in order. */
  function KeepLeaves(visits: seq<Leaf>): (r: seq<Leaf>)
    ensures forall k :: 0 <= k < |r| ==> IsLeafElement(r[k].node) && r[k] in visits
    ensures forall k :: 0 <= k < |visits| && IsLeafElement(visits[k].node) ==> visits[k] in r
  {
    if visits == [] then []
    else (if IsLeafElement(visits[0].node) then [visits[0]] else []) + KeepLeaves(visits[1..])
  }

  lemma {:induction false} KeepLeavesAppend(a: seq<Leaf>, b: seq<Leaf>)
    ensures KeepLeaves(a + b) == KeepLeaves(a) + KeepLeaves(b)
    decreases |a|
  {
    if a == [] {
      assert a + b == b;
    } else {
      assert (a + b)[1..] == a[1..] + b;
      KeepLeavesAppend(a[1..], b);
    }
  }

  /** The leaves among `siblings[i..]` and below them, in document order. */
  function LeavesIn(siblings: seq<Node>, i: nat): (r: seq<Leaf>)
    requires i <= |siblings|
    ensures forall k :: 0 <= k < |r| ==> WellFormedLeaf(r[k])
    ensures i < |siblings| && IsLeafElement(siblings[i]) ==> r != [] && r[0] == Leaf(siblings[i], PrevElementRef(siblings, i))
    decreases siblings, |siblings| - i
  {
    if i == |siblings| then []
    else
      var n := siblings[i];
      var here := if IsLeafElement(n) then [Leaf(n, PrevElementRef(siblings, i))] else [];
      var below := if n.Element? then LeavesIn(n.children, 0) else [];
      here + below + LeavesIn(siblings, i + 1)
  }

  /**
   * The scan in one pass is the pre-order walk over all elements followed
   * by the leaf filter: every leaf element is listed, in document order,
   * with its earlier element sibling, and nothing else is.
   */
  lemma {:induction false} LeavesInFiltersElements(siblings: seq<Node>, i: nat)
    requires i <= |siblings|
    ensures LeavesIn(siblings, i) == KeepLeaves(ElementsIn(siblings, i))
    decreases siblings, |siblings| - i
  {
    if i < |siblings| {
      var n := siblings[i];
      var visit := Leaf(n, PrevElementRef(siblings, i));
      LeavesInFiltersElements(siblings, i + 1);
      if n.Element? {
        LeavesInFiltersElements(n.children, 0);
        var below := ElementsIn(n.children, 0);
        var rest := ElementsIn(siblings, i + 1);
        KeepLeavesAppend([visit] + below, rest);
        KeepLeavesAppend([visit], below);
        assert KeepLeaves([visit]) == if IsLeafElement(n) then [visit] else [] by {
          assert [visit][1..] == [];
        }
      } else {
        assert ElementsIn(siblings, i) == ElementsIn(siblings, i + 1);
      }
    }
  }

  /** `root_element().descendent_elements()` filtered to leaves; the root has no siblings. */
  function DocumentLeaves(root: Node): (r: seq<Leaf>)
    ensures forall k :: 0 <= k < |r| ==> WellFormedLeaf(r[k])
    ensures IsLeafElement(root) ==> r != [] && r[0] == Leaf(root, None)
  {
    (if IsLeafElement(root) then [Leaf(root, None)] else [])
    + (if root.Element? then LeavesIn(root.children, 0) else [])
  }

  /** The document's leaves are exactly its leaf elements in pre-order, the root first. */
  lemma DocumentLeavesFilterElements(root: Node)
    ensures DocumentLeaves(root) == KeepLeaves(DocumentElements(root))
  {
    if root.Element? {
      var visit := Leaf(root, None);
      LeavesInFiltersElements(root.children, 0);
      KeepLeavesAppend([visit], ElementsIn(root.children, 0));
      assert KeepLeaves([visit]) == if IsLeafElement(root) then [visit] else [] by {
        assert [visit][1..] == [];
      }
    }
  }
}
