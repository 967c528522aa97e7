/**
 * `PrevElementRef::get_prev_element_ref`: the nearest element that comes
 * before a node among its parent's children. The node is `siblings[i]`.
 */
module PrevElementRefTrait {
  import opened Base
  import opened Dom

  /** Index of the nearest element sibling before `siblings[i]`, skipping text and other nodes. */
  function PrevElement(siblings: seq<Node>, i: nat): (r: Option<nat>)
    requires i <= |siblings|
    ensures r.Some? ==> r.value < i && siblings[r.value].Element?
    ensures r.Some? ==> forall k :: r.value < k < i ==> !siblings[k].Element?
    ensures r.None? <==> forall k :: 0 <= k < i ==> !siblings[k].Element?
  {
    if i == 0 then None
    else if siblings[i - 1].Element? then Some(i - 1)
    else PrevElement(siblings, i - 1)
  }

  /** The element found by `PrevElement`, as the node itself. */
  function PrevElementRef(siblings: seq<Node>, i: nat): (r: Option<Node>)
    requires i <= |siblings|
    ensures r.Some? <==> PrevElement(siblings, i).Some?
    ensures r.Some? ==> r.value.Element? && r.value == siblings[PrevElement(siblings, i).value]
  {
    match PrevElement(siblings, i)
    case None => None
    case Some(k) => Some(siblings[k])
  }

  /** Only the siblings before the node are looked at: what follows it, and the node itself, do not matter. */
  lemma {:induction false} PrevElementIgnoresFollowing(a: seq<Node>, b: seq<Node>, i: nat)
    requires i <= |a| && i <= |b| && a[..i] == b[..i]
    ensures PrevElement(a, i) == PrevElement(b, i)
  {
    if i > 0 {
      assert a[i - 1] == a[..i][i - 1] == b[..i][i - 1] == b[i - 1];
      assert a[..i - 1] == a[..i][..i - 1] && b[..i - 1] == b[..i][..i - 1];
      PrevElementIgnoresFollowing(a, b, i - 1);
    }
  }
}
