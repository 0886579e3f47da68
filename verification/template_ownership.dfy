/** Ownership and list maintenance in the template engine
    (include/qpromise/private/qpromiseimpl.h): the three ownership bits,
    deletion of a `Detail` when its last owner lets go, destruction of
    chain nodes, and installation of a node at the head's successor. */
module TemplateOwnership {
  import opened Payload
  import opened TemplateLayout

  /** The number of cells not yet deleted; every deletion lowers it. */
  function Live(s: Store): nat
  {
    |set i | 0 <= i < |s.cells| && i !in s.deleted|
  }

  lemma LiveShrinks(s: Store, id: nat)
    requires id < |s.cells| && id !in s.deleted
    ensures Live(s.(deleted := s.deleted + {id})) < Live(s)
  {
    var a := set i | 0 <= i < |s.cells| && i !in s.deleted;
    var b := set i | 0 <= i < |s.cells| && i !in s.deleted + {id};
    assert b == a - {id};
  }

  lemma LiveMonotone(s: Store, r: Store)
    requires |r.cells| == |s.cells| && s.deleted <= r.deleted
    ensures Live(r) <= Live(s)
  {
    var a := set i | 0 <= i < |s.cells| && i !in s.deleted;
    var b := set i | 0 <= i < |r.cells| && i !in r.deleted;
    assert a == b + (a - b);
    assert b * (a - b) == {};
  }

  /** What a destruction may do to one cell: only its `hasParent` bit may
      be cleared. */
  ghost predicate Trimmed(a: Cell, b: Cell)
  {
    && b.chain == a.chain
    && b.reason == a.reason
    && b.exception == a.exception
    && b.state.(hasParent := a.state.hasParent) == a.state
    && (b.state.hasParent ==> a.state.hasParent)
  }

  /** `r` is `s` after a destruction: cells are only trimmed, deleted
      addresses are only added, and no handler runs. */
  ghost predicate Shrinks(s: Store, r: Store)
  {
    && |r.cells| == |s.cells|
    && r.trace == s.trace
    && s.deleted <= r.deleted
    && (forall i :: 0 <= i < |s.cells| ==> Trimmed(s.cells[i], r.cells[i]))
  }

  /** Every node of `nodes` is destroyed in `r`: each `Chain`'s downstream
      cell is deleted, and each `ChildChain`'s adopting cell is no longer
      held by a parent. */
  ghost predicate DestroysList(nodes: seq<Node>, n: nat, r: Store)
    requires |r.cells| == n
  {
    && (forall k :: 0 <= k < |nodes| && nodes[k].Chain? && nodes[k].downstream < n ==>
          nodes[k].downstream in r.deleted)
    && (forall k :: 0 <= k < |nodes| && nodes[k].ChildChain? && nodes[k].child < n ==>
          !r.cells[nodes[k].child].state.hasParent)
  }

  /** `delete` of a `Detail`: it is marked deleted and its chain is
      destroyed with it. Deleting an address twice is undefined behaviour
      in the source; here it does nothing. */
  function Deleted(s: Store, id: nat): (r: Store)
    decreases Live(s), 0
    ensures Shrinks(s, r) && Live(r) <= Live(s)
    ensures id < |s.cells| ==> id in r.deleted
    ensures id < |s.cells| && id !in s.deleted ==> DestroysList(s.cells[id].chain, |s.cells|, r)
  {
    if id >= |s.cells| || id in s.deleted then s
    else
      var s1 := s.(deleted := s.deleted + {id});
      LiveShrinks(s, id);
      DestroyedNodes(s1, s.cells[id].chain)
  }

  /** Destruction of a list of nodes (a node owns its successor). */
  function DestroyedNodes(s: Store, nodes: seq<Node>): (r: Store)
    decreases Live(s), 2, |nodes|
    ensures Shrinks(s, r) && Live(r) <= Live(s)
    ensures DestroysList(nodes, |s.cells|, r)
  {
    if nodes == [] then s
    else
      var s1 := DestroyedNode(s, nodes[0]);
      DestroyedNodes(s1, nodes[1..])
  }

  /** Destruction of one node. A `Chain` holds its downstream `Detail` by
      value, so that `Detail` goes with it. A `ChildChain`'s destructor
      clears the adopting cell's `hasParent` bit and deletes that cell when
      neither its deferred nor its promise holds it any more. */
  function DestroyedNode(s: Store, n: Node): (r: Store)
    decreases Live(s), 1
    ensures Shrinks(s, r) && Live(r) <= Live(s)
    ensures n.Chain? && n.downstream < |s.cells| ==> n.downstream in r.deleted
    ensures n.ChildChain? && n.child < |s.cells| ==>
              !r.cells[n.child].state.hasParent &&
              (n.child in r.deleted <==>
                 n.child in s.deleted || (!s.cells[n.child].state.hasDeferred && !s.cells[n.child].state.hasPromise))
  {
    match n
    case Chain(d, _, _, _) => Deleted(s, d)
    case ChildChain(child) =>
      if child >= |s.cells| then s
      else
        var c := s.cells[child];
        var s1 := s.(cells := s.cells[child := c.(state := c.state.(hasParent := false))]);
        assert Live(s1) == Live(s);
        if !c.state.hasDeferred && !c.state.hasPromise then Deleted(s1, child) else s1
  }

  /** `~QPromise`: clear `hasPromise`; delete the cell unless its deferred
      or a parent still holds it. */
  function ReleasedPromise(s: Store, id: nat): (r: Store)
    requires id < |s.cells|
    ensures |r.cells| == |s.cells| && r.trace == s.trace && s.deleted <= r.deleted
    ensures !r.cells[id].state.hasPromise
    ensures id !in s.deleted ==>
              (id in r.deleted <==> !s.cells[id].state.hasDeferred && !s.cells[id].state.hasParent)
    ensures s.cells[id].state.hasDeferred || s.cells[id].state.hasParent ==>
              r.deleted == s.deleted && forall i :: 0 <= i < |s.cells| && i != id ==> r.cells[i] == s.cells[i]
  {
    var c := s.cells[id];
    var s1 := s.(cells := s.cells[id := c.(state := c.state.(hasPromise := false))]);
    if c.state.hasDeferred || c.state.hasParent then s1 else Deleted(s1, id)
  }

  /** `~QDeferred`: clear `hasDeferred`; delete the cell unless a parent or
      its promise still holds it. */
  function ReleasedDeferred(s: Store, id: nat): (r: Store)
    requires id < |s.cells|
    ensures |r.cells| == |s.cells| && r.trace == s.trace && s.deleted <= r.deleted
    ensures !r.cells[id].state.hasDeferred
    ensures id !in s.deleted ==>
              (id in r.deleted <==> !s.cells[id].state.hasParent && !s.cells[id].state.hasPromise)
    ensures s.cells[id].state.hasParent || s.cells[id].state.hasPromise ==>
              r.deleted == s.deleted && forall i :: 0 <= i < |s.cells| && i != id ==> r.cells[i] == s.cells[i]
  {
    var c := s.cells[id];
    var s1 := s.(cells := s.cells[id := c.(state := c.state.(hasDeferred := false))]);
    if c.state.hasParent || c.state.hasPromise then s1 else Deleted(s1, id)
  }

  /** The list after a node is installed: the head when there is none,
      otherwise the head's successor, replacing the earlier one. */
  function Linked(chain: seq<Node>, n: Node): (r: seq<Node>)
    ensures 1 <= |r| <= 2 && r[|r| - 1] == n
    ensures chain == [] ==> r == [n]
    ensures chain != [] ==> r[0] == chain[0] && |r| == 2
  {
    if chain == [] then [n] else [chain[0], n]
  }

  /** `mChain.reset(c)` or `mChain->mNext.reset(c)` in `Detail::then` and
      `Detail::addChild`: the replaced successor, with whatever follows it,
      is destroyed. */
  function Installed(s: Store, at: nat, n: Node): (r: Store)
    requires at < |s.cells|
    ensures |r.cells| == |s.cells| && r.trace == s.trace && s.deleted <= r.deleted
    ensures r.cells[at].chain == Linked(s.cells[at].chain, n)
    ensures forall i :: 0 <= i < |s.cells| && i != at ==> Trimmed(s.cells[i], r.cells[i])
    ensures |s.cells[at].chain| >= 2 ==> DestroysList(s.cells[at].chain[1..], |s.cells|, r)
  {
    var c := s.cells[at];
    var s1 := s.(cells := s.cells[at := c.(chain := Linked(c.chain, n))]);
    if |c.chain| <= 1 then s1 else DestroyedNodes(s1, c.chain[1..])
  }
}
