/** Properties of synchronous delivery in the template engine. */
module TemplateProperties {
  import opened Payload
  import opened TemplateLayout
  import opened TemplateDelivery

  /** The downstream cell of a `Chain` node after its handler produced `o`:
      resolved with the returned value, or rejected with the thrown error. */
  function Settle(c: Cell, o: Outcome): Cell
  {
    match o
    case Ok(w) => Fulfil(c, w)
    case Err(e) => Refuse(c, e)
  }

  /** A cell with no chain: delivering to it touches nothing else. */
  predicate IsLeaf(s: Store, id: nat)
  {
    id < |s.cells| && s.cells[id].chain == []
  }

  /** The calls one fulfilment makes on a list of `Chain` nodes. */
  function FulfilledCalls(nodes: seq<Node>, v: Value): seq<Call>
    requires forall k :: 0 <= k < |nodes| ==> nodes[k].Chain?
  {
    if nodes == [] then [] else [FulfilledCall(nodes[0].downstream, v)] + FulfilledCalls(nodes[1..], v)
  }

  /** The `k`-th call of a fulfilment is the `k`-th node's handler, with
      the delivered value. */
  lemma {:induction false} FulfilledCallsMatch(nodes: seq<Node>, v: Value)
    requires forall k :: 0 <= k < |nodes| ==> nodes[k].Chain?
    ensures |FulfilledCalls(nodes, v)| == |nodes|
    ensures forall k :: 0 <= k < |nodes| ==> FulfilledCalls(nodes, v)[k] == FulfilledCall(nodes[k].downstream, v)
  {
    if nodes != [] {
      FulfilledCallsMatch(nodes[1..], v);
    }
  }

  /** Resolving a leaf sets its bit and stores the value, and nothing else. */
  lemma {:induction false} ResolveLeaf(s: Store, id: nat, v: Value, fuel: nat)
    requires fuel > 0 && IsLeaf(s, id)
    ensures Resolved(s, id, v, fuel) == s.(cells := s.cells[id := Fulfil(s.cells[id], v)])
  {
    var s1 := s.(cells := s.cells[id := Fulfil(s.cells[id], v)]);
    assert DeliverFulfilment(s1, [], v, fuel - 1) == s1;
  }

  /** Rejecting a leaf sets its bit and stores the error, and nothing else. */
  lemma {:induction false} RejectLeaf(s: Store, id: nat, e: Exception, fuel: nat)
    requires fuel > 0 && IsLeaf(s, id)
    ensures Rejected(s, id, e, fuel) == s.(cells := s.cells[id := Refuse(s.cells[id], e)])
  {
  }

  /** Chain fulfilment: the handler is called once with the delivered value
      and the downstream is resolved with what it returns, or rejected with
      what it throws. */
  lemma {:induction false} ChainFulfilment(s: Store, d: nat, f: Value -> Outcome,
                                           onRejected: Option<Exception -> Outcome>,
                                           onProgress: Option<Value -> Outcome>,
                                           v: Value, fuel: nat)
    requires fuel > 0 && IsLeaf(s, d)
    ensures var r := NodeResolved(s, Chain(d, f, onRejected, onProgress), v, fuel);
            && r.trace == s.trace + [FulfilledCall(d, v)]
            && r.cells == s.cells[d := Settle(s.cells[d], f(v))]
            && r.deleted == s.deleted
  {
    var s1 := s.(trace := s.trace + [FulfilledCall(d, v)]);
    match f(v)
    case Ok(w) => ResolveLeaf(s1, d, w, fuel);
    case Err(e) => RejectLeaf(s1, d, e, fuel);
  }

  /** Chain rejection: without a rejection handler the downstream is
      rejected with the same error; a handler that throws rejects it with
      the new error; a handler that returns normally leaves every cell as it
      was, so a pending downstream stays pending. */
  lemma {:induction false} ChainRejection(s: Store, d: nat, f: Value -> Outcome,
                                          onRejected: Option<Exception -> Outcome>,
                                          onProgress: Option<Value -> Outcome>,
                                          e: Exception, fuel: nat)
    requires fuel > 0 && IsLeaf(s, d)
    ensures var r := NodeRejected(s, Chain(d, f, onRejected, onProgress), e, fuel);
            && r.deleted == s.deleted
            && (onRejected.None? ==> r.trace == s.trace && r.cells == s.cells[d := Refuse(s.cells[d], e)])
            && (onRejected.Some? ==> r.trace == s.trace + [RejectedCall(d, e)])
            && (onRejected.Some? && onRejected.value(e).Err? ==>
                  r.cells == s.cells[d := Refuse(s.cells[d], onRejected.value(e).error)])
            && (onRejected.Some? && onRejected.value(e).Ok? ==> r.cells == s.cells)
  {
    match onRejected
    case None => RejectLeaf(s, d, e, fuel);
    case Some(h) =>
      var s1 := s.(trace := s.trace + [RejectedCall(d, e)]);
      if h(e).Err? { RejectLeaf(s1, d, h(e).error, fuel); }
  }

  /** Every node is a `Chain` whose downstream is a leaf, and no two nodes
      share a downstream. */
  predicate LeafChains(s: Store, nodes: seq<Node>)
  {
    && (forall k :: 0 <= k < |nodes| ==> nodes[k].Chain? && IsLeaf(s, nodes[k].downstream))
    && (forall j, k :: 0 <= j < k < |nodes| ==> nodes[j].downstream != nodes[k].downstream)
  }

  /** `r` settles the downstream of every node by its handler's outcome on
      `v` and leaves every other cell of `s` as it was. */
  ghost predicate SettlesDownstreams(s: Store, r: Store, nodes: seq<Node>, v: Value)
    requires LeafChains(s, nodes) && |r.cells| == |s.cells|
  {
    && (forall k :: 0 <= k < |nodes| ==>
          r.cells[nodes[k].downstream] == Settle(s.cells[nodes[k].downstream], nodes[k].onFulfilled(v)))
    && (forall i :: 0 <= i < |s.cells| && (forall k :: 0 <= k < |nodes| ==> nodes[k].downstream != i) ==>
          r.cells[i] == s.cells[i])
  }

  /** After the head's downstream is settled, the rest of the list still
      consists of chains with distinct leaf downstreams. */
  lemma LeafChainsTail(s: Store, s1: Store, nodes: seq<Node>, v: Value)
    requires LeafChains(s, nodes) && nodes != []
    requires s1.cells == s.cells[nodes[0].downstream := Settle(s.cells[nodes[0].downstream], nodes[0].onFulfilled(v))]
    ensures LeafChains(s1, nodes[1..])
  {
    var rest := nodes[1..];
    forall k | 0 <= k < |rest| ensures rest[k].Chain? && IsLeaf(s1, rest[k].downstream) {
      assert rest[k] == nodes[k + 1];
    }
  }

  /** Settling the head's downstream and then the rest settles them all. */
  lemma SettlesCons(s: Store, s1: Store, r: Store, nodes: seq<Node>, v: Value)
    requires LeafChains(s, nodes) && nodes != []
    requires s1.cells == s.cells[nodes[0].downstream := Settle(s.cells[nodes[0].downstream], nodes[0].onFulfilled(v))]
    requires LeafChains(s1, nodes[1..]) && |r.cells| == |s.cells|
    requires SettlesDownstreams(s1, r, nodes[1..], v)
    ensures SettlesDownstreams(s, r, nodes, v)
  {
    var n, rest := nodes[0], nodes[1..];
    forall k | 0 <= k < |nodes|
      ensures r.cells[nodes[k].downstream] == Settle(s.cells[nodes[k].downstream], nodes[k].onFulfilled(v))
    {
      if k > 0 {
        assert rest[k - 1] == nodes[k];
      } else {
        forall j | 0 <= j < |rest| ensures rest[j].downstream != n.downstream {
          assert rest[j] == nodes[j + 1];
        }
      }
    }
    forall i | 0 <= i < |s.cells| && (forall k :: 0 <= k < |nodes| ==> nodes[k].downstream != i)
      ensures r.cells[i] == s.cells[i]
    {
      assert nodes[0].downstream != i;
      forall j | 0 <= j < |rest| ensures rest[j].downstream != i {
        assert rest[j] == nodes[j + 1];
      }
    }
  }

  /** Delivering a fulfilment along a list of `Chain` nodes whose downstream
      cells are distinct leaves calls every handler with the same value, in
      list order, and settles each downstream by its handler's outcome. */
  lemma {:induction false} DeliverToLeaves(s: Store, nodes: seq<Node>, v: Value, fuel: nat)
    requires fuel > 0 && LeafChains(s, nodes)
    decreases |nodes|
    ensures var r := DeliverFulfilment(s, nodes, v, fuel);
            && r.trace == s.trace + FulfilledCalls(nodes, v)
            && r.deleted == s.deleted
            && |r.cells| == |s.cells|
            && SettlesDownstreams(s, r, nodes, v)
  {
    if nodes != [] {
      var n, rest := nodes[0], nodes[1..];
      var s1 := NodeResolved(s, n, v, fuel);
      HeadStep(s, nodes, v, fuel);
      DeliverToLeaves(s1, rest, v, fuel);
      var r := DeliverFulfilment(s1, rest, v, fuel);
      SettlesCons(s, s1, r, nodes, v);
    }
  }

  /** One step of `DeliverToLeaves`: the head's handler runs first. */
  lemma HeadStep(s: Store, nodes: seq<Node>, v: Value, fuel: nat)
    requires fuel > 0 && LeafChains(s, nodes) && nodes != []
    ensures var n := nodes[0];
            var s1 := NodeResolved(s, n, v, fuel);
            && DeliverFulfilment(s, nodes, v, fuel) == DeliverFulfilment(s1, nodes[1..], v, fuel)
            && s1.cells == s.cells[n.downstream := Settle(s.cells[n.downstream], n.onFulfilled(v))]
            && s1.trace == s.trace + [FulfilledCall(n.downstream, v)]
            && s1.deleted == s.deleted
            && LeafChains(s1, nodes[1..])
            && FulfilledCalls(nodes, v) == [FulfilledCall(n.downstream, v)] + FulfilledCalls(nodes[1..], v)
  {
    var n := nodes[0];
    ChainFulfilment(s, n.downstream, n.onFulfilled, n.onRejected, n.onProgress, v, fuel);
    LeafChainsTail(s, NodeResolved(s, n, v, fuel), nodes, v);
  }

  /** `Detail::resolve` on a cell whose list holds only `Chain` nodes with
      distinct leaf downstreams: the trace gains exactly their handler calls,
      in list order, and each downstream is settled by its handler's
      outcome by the time the call is over. */
  lemma ResolveSettlesLeafDownstreams(s: Store, id: nat, v: Value, fuel: nat)
    requires fuel > 1 && id < |s.cells|
    requires LeafChains(s, s.cells[id].chain)
    requires forall k :: 0 <= k < |s.cells[id].chain| ==> s.cells[id].chain[k].downstream != id
    ensures var nodes := s.cells[id].chain;
            var r := Resolved(s, id, v, fuel);
            && r.trace == s.trace + FulfilledCalls(nodes, v)
            && r.cells[id] == Fulfil(s.cells[id], v)
            && (forall k :: 0 <= k < |nodes| ==>
                  r.cells[nodes[k].downstream]
                    == Settle(s.cells[nodes[k].downstream], nodes[k].onFulfilled(v)))
  {
    var nodes := s.cells[id].chain;
    var s1 := s.(cells := s.cells[id := Fulfil(s.cells[id], v)]);
    assert forall k :: 0 <= k < |nodes| ==> s1.cells[nodes[k].downstream] == s.cells[nodes[k].downstream];
    assert LeafChains(s1, nodes);
    DeliverToLeaves(s1, nodes, v, fuel - 1);
  }

  /** Where the loop of `Detail::resolve` stands in the trace when it
      reaches each node: the trace length before that node is resolved. */
  ghost function DeliveryStarts(s: Store, nodes: seq<Node>, v: Value, fuel: nat): seq<nat>
    decreases |nodes|
  {
    if nodes == [] then []
    else [|s.trace|] + DeliveryStarts(NodeResolved(s, nodes[0], v, fuel), nodes[1..], v, fuel)
  }

  /** Delivery along any list, forwarders and downstreams with lists of
      their own included: node `k`'s delivery starts at position
      `DeliveryStarts(..)[k]` of the final trace, a `Chain` node's handler
      call with `v` is recorded there, and a `Chain` node's handler is
      called before anything the later nodes do. */
  lemma {:induction false} DeliveryOrder(s: Store, nodes: seq<Node>, v: Value, fuel: nat)
    decreases |nodes|
    ensures var p := DeliveryStarts(s, nodes, v, fuel);
            var r := DeliverFulfilment(s, nodes, v, fuel);
            && |p| == |nodes|
            && (forall k :: 0 <= k < |nodes| ==> |s.trace| <= p[k] <= |r.trace|)
            && (forall k :: 0 <= k < |nodes| && nodes[k].Chain? ==>
                  p[k] < |r.trace| && r.trace[p[k]] == FulfilledCall(nodes[k].downstream, v))
            && (forall j, k :: 0 <= j < k < |nodes| && nodes[j].Chain? ==> p[j] < p[k])
  {
    if nodes != [] {
      var n, rest := nodes[0], nodes[1..];
      var s1 := NodeResolved(s, n, v, fuel);
      DeliveryOrder(s1, rest, v, fuel);
      var p := DeliveryStarts(s, nodes, v, fuel);
      var p1 := DeliveryStarts(s1, rest, v, fuel);
      var r := DeliverFulfilment(s, nodes, v, fuel);
      assert r == DeliverFulfilment(s1, rest, v, fuel);
      assert p == [|s.trace|] + p1;
      assert s.trace <= s1.trace && s1.trace <= r.trace;
      if n.Chain? {
        var s0 := s.(trace := s.trace + [FulfilledCall(n.downstream, v)]);
        assert s0.trace <= s1.trace;
        assert r.trace[|s.trace|] == s0.trace[|s.trace|];
      }
      forall k | 1 <= k < |nodes|
        ensures p[k] == p1[k - 1] && nodes[k] == rest[k - 1]
      {
      }
    }
  }

  /** `Detail::resolve` hands the value to every node of its list, in list
      order, before it returns, whatever the nodes are: the cell is
      fulfilled, the trace only grows, and each `Chain` node's handler is
      called with `v` at a position of the trace that increases along the
      list. */
  lemma ResolveDeliversToEveryNode(s: Store, id: nat, v: Value, fuel: nat)
    requires fuel > 0 && id < |s.cells|
    ensures var nodes := s.cells[id].chain;
            var r := Resolved(s, id, v, fuel);
            && r.cells[id].state.isFulfilled
            && s.trace <= r.trace
            && exists p: seq<nat> ::
                 && |p| == |nodes|
                 && (forall k :: 0 <= k < |nodes| && nodes[k].Chain? ==>
                       |s.trace| <= p[k] < |r.trace| && r.trace[p[k]] == FulfilledCall(nodes[k].downstream, v))
                 && (forall j, k :: 0 <= j < k < |nodes| && nodes[j].Chain? ==> p[j] < p[k])
  {
    var nodes := s.cells[id].chain;
    var s1 := s.(cells := s.cells[id := Fulfil(s.cells[id], v)]);
    var r := Resolved(s, id, v, fuel);
    assert r == DeliverFulfilment(s1, nodes, v, fuel - 1);
    DeliveryOrder(s1, nodes, v, fuel - 1);
    var p := DeliveryStarts(s1, nodes, v, fuel - 1);
    assert forall k :: 0 <= k < |nodes| && nodes[k].Chain? ==>
             |s.trace| <= p[k] < |r.trace| && r.trace[p[k]] == FulfilledCall(nodes[k].downstream, v);
    assert forall j, k :: 0 <= j < k < |nodes| && nodes[j].Chain? ==> p[j] < p[k];
  }

  /** `Detail::reject` reaches the head node only: the successor's handler
      is never called and the successor's downstream is left untouched. */
  lemma RejectReachesHeadOnly(s: Store, id: nat, e: Exception, fuel: nat)
    requires fuel > 1 && id < |s.cells| && |s.cells[id].chain| == 2
    requires var nodes := s.cells[id].chain;
             && nodes[0].Chain? && nodes[1].Chain?
             && nodes[0].downstream != id && nodes[1].downstream != id
             && nodes[0].downstream != nodes[1].downstream
             && IsLeaf(s, nodes[0].downstream) && nodes[1].downstream < |s.cells|
    ensures var d1 := s.cells[id].chain[1].downstream;
            var r := Rejected(s, id, e, fuel);
            && r.cells[d1] == s.cells[d1]
            && (forall c :: c in r.trace[|s.trace|..] ==> c.node != d1)
  {
    var nodes := s.cells[id].chain;
    var s1 := s.(cells := s.cells[id := Refuse(s.cells[id], e)]);
    var n := nodes[0];
    ChainRejection(s1, n.downstream, n.onFulfilled, n.onRejected, n.onProgress, e, fuel - 1);
  }

  /** `Detail::notify` reaches the head node only. */
  lemma NotifyReachesHeadOnly(s: Store, id: nat, u: Value, fuel: nat)
    requires fuel > 1 && id < |s.cells| && 1 <= |s.cells[id].chain|
    requires s.cells[id].chain[0].Chain? && s.cells[id].chain[0].onProgress.Some?
    ensures var n := s.cells[id].chain[0];
            var r := Notified(s, id, u, fuel);
            && r.store == s.(trace := s.trace + [ProgressCall(n.downstream, u)])
            && r.escaped == (match n.onProgress.value(u) case Ok(_) => None case Err(x) => Some(x))
  {
  }

  /** Adoption: the forwarder a `ChildChain` hangs on the adopted cell
      passes a fulfilment on to the adopting cell with the same value. */
  lemma ForwarderPassesResolve(s: Store, b: nat, a: nat, v: Value, fuel: nat)
    requires fuel > 1 && b < |s.cells| && a != b
    requires s.cells[b].chain == [ChildChain(a)] && IsLeaf(s, a)
    ensures var r := Resolved(s, b, v, fuel);
            r.cells == s.cells[b := Fulfil(s.cells[b], v)][a := Fulfil(s.cells[a], v)]
            && r.trace == s.trace
  {
    var s1 := s.(cells := s.cells[b := Fulfil(s.cells[b], v)]);
    ResolveLeaf(s1, a, v, fuel - 1);
    assert DeliverFulfilment(s1, [ChildChain(a)], v, fuel - 1)
        == DeliverFulfilment(NodeResolved(s1, ChildChain(a), v, fuel - 1), [], v, fuel - 1);
  }

  /** Adoption: the forwarder passes a rejection on with the same error. */
  lemma ForwarderPassesReject(s: Store, b: nat, a: nat, e: Exception, fuel: nat)
    requires fuel > 1 && b < |s.cells| && a != b
    requires s.cells[b].chain == [ChildChain(a)] && IsLeaf(s, a)
    ensures var r := Rejected(s, b, e, fuel);
            r.cells == s.cells[b := Refuse(s.cells[b], e)][a := Refuse(s.cells[a], e)]
            && r.trace == s.trace
  {
    var s1 := s.(cells := s.cells[b := Refuse(s.cells[b], e)]);
    RejectLeaf(s1, a, e, fuel - 1);
  }

  /** Adoption: the forwarder passes a notification on to the adopting
      cell, where again only the head node hears of it. */
  lemma ForwarderPassesNotify(s: Store, b: nat, a: nat, u: Value, fuel: nat)
    requires fuel > 1 && b < |s.cells| && s.cells[b].chain == [ChildChain(a)]
    ensures Notified(s, b, u, fuel) == Notified(s, a, u, fuel - 1)
  {
  }

  /** `p.then(f1).then(f2)` on a pending cell, then `resolve(v)`: both
      handlers run during the call, `f1` with `v` first, then `f2` with what
      `f1` returned, and both downstream cells end up fulfilled. */
  lemma ChainedHandlersRunInOrder(s: Store, a: nat, b: nat, c: nat, f1: Value -> Outcome,
                                  f2: Value -> Outcome, v: Value, fuel: nat)
    requires fuel > 2 && a < |s.cells| && b < |s.cells| && IsLeaf(s, c)
    requires a != b && b != c && a != c
    requires s.cells[a].chain == [Chain(b, f1, None, None)]
    requires s.cells[b].chain == [Chain(c, f2, None, None)]
    requires f1(v).Ok? && f2(f1(v).value).Ok?
    ensures var r := Resolved(s, a, v, fuel);
            && r.trace == s.trace + [FulfilledCall(b, v), FulfilledCall(c, f1(v).value)]
            && r.cells[a].state.isFulfilled && r.cells[b].state.isFulfilled && r.cells[c].state.isFulfilled
  {
    var w := f1(v).value;
    var s1 := s.(cells := s.cells[a := Fulfil(s.cells[a], v)]);
    var n1 := Chain(b, f1, None, None);
    assert DeliverFulfilment(s1, [n1], v, fuel - 1)
        == DeliverFulfilment(NodeResolved(s1, n1, v, fuel - 1), [], v, fuel - 1);
    var s2 := s1.(trace := s1.trace + [FulfilledCall(b, v)]);
    assert NodeResolved(s1, n1, v, fuel - 1) == Resolved(s2, b, w, fuel - 1);
    var s3 := s2.(cells := s2.cells[b := Fulfil(s2.cells[b], w)]);
    var n2 := Chain(c, f2, None, None);
    assert DeliverFulfilment(s3, [n2], w, fuel - 2)
        == DeliverFulfilment(NodeResolved(s3, n2, w, fuel - 2), [], w, fuel - 2);
    ChainFulfilment(s3, c, f2, None, None, w, fuel - 2);
  }

  /** Settlement is not guarded: rejecting a cell that was just resolved
      sets the second bit as well and runs the head's rejection handler
      after its fulfilment handler. */
  lemma ResolveThenRejectSetsBothBits(s: Store, id: nat, v: Value, e: Exception, fuel: nat)
    requires fuel > 1 && id < |s.cells|
    requires |s.cells[id].chain| == 1 && s.cells[id].chain[0].Chain?
    requires var n := s.cells[id].chain[0];
             n.downstream != id && IsLeaf(s, n.downstream) && n.onRejected.Some?
    ensures var d := s.cells[id].chain[0].downstream;
            var r := Rejected(Resolved(s, id, v, fuel), id, e, fuel);
            && r.cells[id].state.isFulfilled && r.cells[id].state.isRejected
            && r.trace[|s.trace|..] == [FulfilledCall(d, v), RejectedCall(d, e)]
  {
    var n := s.cells[id].chain[0];
    ResolveSettlesLeafDownstreams(s, id, v, fuel);
    var s2 := Resolved(s, id, v, fuel);
    assert IsLeaf(s2, n.downstream);
    var s3 := s2.(cells := s2.cells[id := Refuse(s2.cells[id], e)]);
    ChainRejection(s3, n.downstream, n.onFulfilled, n.onRejected, n.onProgress, e, fuel - 1);
  }
}
