/** The values the client hands to its callers: nodes and watch updates. */
module Nodes {
  import opened Wrappers

  /**
   * One stored key at one point of the store's history. `expires` is
   * `None` for the time point `system_clock::time_point::max()`, i.e.
   * "never expires".
   */
  datatype Node = Node(
    createdIndex: int,
    modifiedIndex: int,
    key: string,
    value: string,
    expires: Option<int>,
    deleted: bool)

  /** `Node(created_index, modified_index, key, value)`. */
  function MakeNode(createdIndex: int, modifiedIndex: int, key: string, value: string): (n: Node)
    ensures n.createdIndex == createdIndex && n.modifiedIndex == modifiedIndex
    ensures n.key == key && n.value == value
    ensures !HasExpiry(n) && !n.deleted
  {
    Node(createdIndex, modifiedIndex, key, value, None, false)
  }

  /** `expires_ < time_point::max()`. */
  predicate HasExpiry(n: Node) {
    n.expires.Some?
  }

  /** A node as the constructor builds it: no expiry, not deleted. */
  predicate IsPlain(n: Node) {
    !HasExpiry(n) && !n.deleted
  }

  /** The sentinel passed to callers on error paths. */
  function InvalidNode(): (n: Node)
    ensures n.createdIndex == -1 && n.modifiedIndex == -1 && n.key == "" && n.value == ""
    ensures IsPlain(n)
  {
    MakeNode(-1, -1, "", "")
  }

  /** One observed change; `keyExists == false` reports a deletion or expiry. */
  datatype WatchUpdate = WatchUpdate(node: Node, keyExists: bool)

  /** `WatchUpdate()`. */
  function DefaultWatchUpdate(): (u: WatchUpdate)
    ensures u.node == InvalidNode() && !u.keyExists
  {
    WatchUpdate(InvalidNode(), false)
  }

  /** Every node a constructor call produces is plain, and plain nodes are exactly those. */
  lemma PlainIffConstructed(n: Node)
    ensures IsPlain(n) <==> n == MakeNode(n.createdIndex, n.modifiedIndex, n.key, n.value)
  {
  }
}
