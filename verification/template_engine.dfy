/** The template engine's objects as they change in place
    (include/qpromise/private/qpromiseimpl.h and
    include/qpromise/private/qpromise.h). Every `Detail` of the program lives
    in one `Details` arena, addressed by number; `QPromise` and `QDeferred`
    are handles holding such an address. Each method is proved equal to the
    store function that specifies it. */
module TemplateEngine {
  import opened Payload
  import opened TemplateLayout
  import opened TemplateDelivery
  import opened TemplateOwnership
  import opened TemplateThen
  import opened TemplateProperties

  /** Replacing one cell by another with the same list and a settled state
      that holds its value keeps the store well formed. */
  lemma RestampKeepsValid(s: Store, id: nat, c: Cell)
    requires ValidStore(s) && id < |s.cells|
    requires c.chain == s.cells[id].chain && Consistent(c)
    ensures ValidStore(s.(cells := s.cells[id := c]))
  {
    var r := s.(cells := s.cells[id := c]);
    forall i | 0 <= i < |r.cells|
      ensures WellFormed(r.cells[i], |r.cells|)
    {
      if i != id {
        assert r.cells[i] == s.cells[i];
      }
    }
  }

  /** A new cell with no list keeps the store well formed. */
  lemma AppendedKeepsValid(s: Store, c: Cell)
    requires ValidStore(s) && c.chain == [] && Consistent(c)
    ensures ValidStore(Appended(s, c))
  {
    var r := Appended(s, c);
    forall i | 0 <= i < |r.cells|
      ensures WellFormed(r.cells[i], |r.cells|)
    {
      if i < |s.cells| {
        assert WellFormed(s.cells[i], |s.cells|);
      }
    }
  }

  /** One turn of the loop in `Detail::resolve`: node `i` first, then the
      nodes after it. */
  lemma DeliverStep(s: Store, nodes: seq<Node>, i: nat, v: Value, fuel: nat)
    requires i < |nodes|
    ensures DeliverFulfilment(s, nodes[i..], v, fuel)
            == DeliverFulfilment(NodeResolved(s, nodes[i], v, fuel), nodes[i + 1..], v, fuel)
  {
    assert nodes[i..][1..] == nodes[i + 1..];
  }

  class Details {
    var cells: seq<Cell>
    var trace: seq<Call>
    var deleted: set<nat>

    ghost function Snapshot(): Store
      reads this
    {
      Store(cells, trace, deleted)
    }

    ghost predicate Valid()
      reads this
    {
      ValidStore(Snapshot())
    }

    constructor ()
      ensures Valid() && cells == [] && trace == [] && deleted == {}
    {
      cells := [];
      trace := [];
      deleted := {};
    }

    /** `new Detail()`, as the `QDeferred` constructor does: pending, held
        by a deferred. */
    method NewDetail() returns (id: nat)
      modifies this
      ensures id == |old(cells)|
      ensures Snapshot() == Appended(old(Snapshot()), NewCell())
    {
      id := |cells|;
      cells := cells + [NewCell()];
    }

    /** `Detail::promise` through the `QPromise` constructor. */
    method AttachPromise(id: nat)
      requires id < |cells|
      modifies this
      ensures Snapshot() == Attached(old(Snapshot()), id)
    {
      var c := cells[id];
      cells := cells[id := c.(state := c.state.(hasPromise := true))];
    }

    /** `delete` of a `Detail`, destroying its list. */
    method Delete(id: nat)
      modifies this
      decreases Live(Snapshot()), 0
      ensures Snapshot() == Deleted(old(Snapshot()), id)
    {
      if id >= |cells| || id in deleted {
        return;
      }
      LiveShrinks(Snapshot(), id);
      var nodes := cells[id].chain;
      deleted := deleted + {id};
      DestroyNodes(nodes);
    }

    /** A node's destructor, and then its successor's. */
    method DestroyNodes(nodes: seq<Node>)
      modifies this
      decreases Live(Snapshot()), 2, |nodes|
      ensures Snapshot() == DestroyedNodes(old(Snapshot()), nodes)
    {
      if nodes != [] {
        DestroyNode(nodes[0]);
        DestroyNodes(nodes[1..]);
      }
    }

    /** `~Chain` (its downstream `Detail` is a member) and `~ChildChain`. */
    method DestroyNode(n: Node)
      modifies this
      decreases Live(Snapshot()), 1
      ensures Snapshot() == DestroyedNode(old(Snapshot()), n)
    {
      match n
      case Chain(d, _, _, _) =>
        Delete(d);
      case ChildChain(child) =>
        if child < |cells| {
          ghost var s := Snapshot();
          var c := cells[child];
          cells := cells[child := c.(state := c.state.(hasParent := false))];
          assert Live(Snapshot()) == Live(s);
          if !c.state.hasDeferred && !c.state.hasPromise {
            Delete(child);
          }
        }
    }

    /** `~QPromise`. */
    method ReleasePromise(id: nat)
      requires Valid() && id < |cells|
      modifies this
      ensures Valid()
      ensures Snapshot() == ReleasedPromise(old(Snapshot()), id)
    {
      var c := cells[id];
      RestampKeepsValid(Snapshot(), id, c.(state := c.state.(hasPromise := false)));
      cells := cells[id := c.(state := c.state.(hasPromise := false))];
      if !c.state.hasDeferred && !c.state.hasParent {
        ghost var s1 := Snapshot();
        Delete(id);
        ShrinksKeepsValid(s1, Snapshot());
      }
    }

    /** `~QDeferred`. */
    method ReleaseDeferred(id: nat)
      requires Valid() && id < |cells|
      modifies this
      ensures Valid()
      ensures Snapshot() == ReleasedDeferred(old(Snapshot()), id)
    {
      var c := cells[id];
      RestampKeepsValid(Snapshot(), id, c.(state := c.state.(hasDeferred := false)));
      cells := cells[id := c.(state := c.state.(hasDeferred := false))];
      if !c.state.hasParent && !c.state.hasPromise {
        ghost var s1 := Snapshot();
        Delete(id);
        ShrinksKeepsValid(s1, Snapshot());
      }
    }

    /** `mChain.reset(n)` when there is no head, `mChain->mNext.reset(n)`
        otherwise: the old successor is destroyed after the new one is in
        place. */
    method Install(at: nat, n: Node)
      requires at < |cells|
      modifies this
      ensures Snapshot() == Installed(old(Snapshot()), at, n)
    {
      var c := cells[at];
      cells := cells[at := c.(chain := Linked(c.chain, n))];
      if |c.chain| > 1 {
        DestroyNodes(c.chain[1..]);
      }
    }

    /** `Detail::resolve(v)`: the loop over the list. */
    method Resolve(id: nat, v: Value, fuel: nat)
      requires Valid()
      modifies this
      decreases fuel, 0
      ensures Valid()
      ensures Snapshot() == Resolved(old(Snapshot()), id, v, fuel)
    {
      if fuel == 0 || id >= |cells| {
        return;
      }
      var c := cells[id];
      RestampKeepsValid(Snapshot(), id, Fulfil(c, v));
      cells := cells[id := Fulfil(c, v)];
      Deliver(c.chain, v, fuel - 1);
    }

    /** The loop of `Detail::resolve`: each node of the list in order. */
    method Deliver(nodes: seq<Node>, v: Value, fuel: nat)
      requires Valid()
      modifies this
      decreases fuel, 2
      ensures Valid()
      ensures Snapshot() == DeliverFulfilment(old(Snapshot()), nodes, v, fuel)
    {
      var i := 0;
      while i < |nodes|
        invariant 0 <= i <= |nodes|
        invariant Valid()
        invariant DeliverFulfilment(Snapshot(), nodes[i..], v, fuel)
                  == DeliverFulfilment(old(Snapshot()), nodes, v, fuel)
      {
        DeliverStep(Snapshot(), nodes, i, v, fuel);
        ResolveNode(nodes[i], v, fuel);
        i := i + 1;
      }
    }

    /** `ChainResolve::resolve` and `ChildResolveChain::resolve`. */
    method ResolveNode(n: Node, v: Value, fuel: nat)
      requires Valid()
      modifies this
      decreases fuel, 1
      ensures Valid()
      ensures Snapshot() == NodeResolved(old(Snapshot()), n, v, fuel)
    {
      match n
      case Chain(d, onFulfilled, _, _) =>
        trace := trace + [FulfilledCall(d, v)];
        match onFulfilled(v) {
          case Ok(w) => Resolve(d, w, fuel);
          case Err(e) => Reject(d, e, fuel);
        }
      case ChildChain(child) =>
        Resolve(child, v, fuel);
    }

    /** `Detail::reject(e)`: the head node only. */
    method Reject(id: nat, e: Exception, fuel: nat)
      requires Valid()
      modifies this
      decreases fuel, 0
      ensures Valid()
      ensures Snapshot() == Rejected(old(Snapshot()), id, e, fuel)
    {
      if fuel == 0 || id >= |cells| {
        return;
      }
      var c := cells[id];
      RestampKeepsValid(Snapshot(), id, Refuse(c, e));
      cells := cells[id := Refuse(c, e)];
      if c.chain != [] {
        RejectNode(c.chain[0], e, fuel - 1);
      }
    }

    /** `Chain::reject` and `ChildChain::reject`. */
    method RejectNode(n: Node, e: Exception, fuel: nat)
      requires Valid()
      modifies this
      decreases fuel, 1
      ensures Valid()
      ensures Snapshot() == NodeRejected(old(Snapshot()), n, e, fuel)
    {
      match n
      case Chain(d, _, onRejected, _) =>
        match onRejected {
          case None =>
            Reject(d, e, fuel);
          case Some(h) =>
            trace := trace + [RejectedCall(d, e)];
            match h(e) {
              case Ok(_) =>
              case Err(e2) => Reject(d, e2, fuel);
            }
        }
      case ChildChain(child) =>
        Reject(child, e, fuel);
    }

    /** `Detail::notify(u)`: the head node only; a progress handler's error
        is handed back to the caller. */
    method Notify(id: nat, u: Value, fuel: nat) returns (escaped: Option<Exception>)
      modifies this
      decreases fuel, 0
      ensures Notification(Snapshot(), escaped) == Notified(old(Snapshot()), id, u, fuel)
    {
      escaped := None;
      if fuel == 0 || id >= |cells| || cells[id].chain == [] {
        return;
      }
      escaped := NotifyNode(cells[id].chain[0], u, fuel - 1);
    }

    /** `ChainNotify::notify` and `ChildNotifyChain::notify`. */
    method NotifyNode(n: Node, u: Value, fuel: nat) returns (escaped: Option<Exception>)
      modifies this
      decreases fuel, 1
      ensures Notification(Snapshot(), escaped) == NodeNotified(old(Snapshot()), n, u, fuel)
    {
      escaped := None;
      match n
      case Chain(d, _, _, onProgress) =>
        match onProgress {
          case None =>
          case Some(h) =>
            trace := trace + [ProgressCall(d, u)];
            match h(u) {
              case Ok(_) =>
              case Err(e) => escaped := Some(e);
            }
        }
      case ChildChain(child) =>
        escaped := Notify(child, u, fuel);
    }

    /** `Detail::resolve(QPromise&&)`: cell `id` adopts the promise of cell
        `other`. */
    method Adopt(id: nat, other: nat)
      requires Valid() && id < |cells| && other < |cells|
      modifies this
      ensures Valid()
      ensures Snapshot() == Adopted(old(Snapshot()), id, other)
    {
      AdoptedKeepsValid(Snapshot(), id, other);
      Install(other, ChildChain(id));
      var c := cells[id];
      cells := cells[id := c.(state := c.state.(hasParent := true))];
    }

    /** `qpromise::fulfill()`: a deferred that is never resolved, its
        promise, and the deferred's destruction. */
    method FulfillNothing() returns (id: nat)
      requires Valid()
      modifies this
      ensures Valid() && id == |old(cells)|
      ensures Snapshot() == FulfilledNothing(old(Snapshot()))
    {
      AppendedKeepsValid(Snapshot(), NewCell());
      id := NewDetail();
      RestampKeepsValid(Snapshot(), id, NewCell().(state := NewCell().state.(hasPromise := true)));
      AttachPromise(id);
      ReleaseDeferred(id);
    }

    /** `qpromise::fulfill(v)`: a deferred resolved with `v`, its promise,
        and the deferred's destruction. */
    method FulfillValue(v: Value) returns (id: nat)
      requires Valid()
      modifies this
      ensures Valid() && id == |old(cells)|
      ensures Snapshot() == FulfilledWith(old(Snapshot()), v)
    {
      AppendedKeepsValid(Snapshot(), NewCell());
      id := NewDetail();
      ResolveLeaf(Snapshot(), id, v, 1);
      Resolve(id, v, 1);
      var c := cells[id];
      RestampKeepsValid(Snapshot(), id, c.(state := c.state.(hasPromise := true)));
      AttachPromise(id);
      ReleaseDeferred(id);
    }

    /** `qpromise::reject(e)`: a deferred rejected with `e`, its promise,
        and the deferred's destruction. */
    method RejectValue(e: Exception) returns (id: nat)
      requires Valid()
      modifies this
      ensures Valid() && id == |old(cells)|
      ensures Snapshot() == RejectedWith(old(Snapshot()), e)
    {
      AppendedKeepsValid(Snapshot(), NewCell());
      id := NewDetail();
      RejectLeaf(Snapshot(), id, e, 1);
      Reject(id, e, 1);
      var c := cells[id];
      RestampKeepsValid(Snapshot(), id, c.(state := c.state.(hasPromise := true)));
      AttachPromise(id);
      ReleaseDeferred(id);
    }

    /** `Detail::then`. */
    method Then(id: nat, onFulfilled: Value -> Outcome, onRejected: Option<Exception -> Outcome>,
                onProgress: Option<Value -> Outcome>) returns (r: ThenResult)
      requires Valid() && id < |cells|
      modifies this
      ensures Valid()
      ensures (Snapshot(), r) == ThenStep(old(Snapshot()), id, onFulfilled, onRejected, onProgress)
    {
      var c := cells[id];
      assert WellFormed(c, |cells|);
      if c.state.isFulfilled {
        match onFulfilled(Stored(c)) {
          case Ok(Void) =>
            var p := FulfillNothing();
            r := Returned(p);
          case Ok(w) =>
            var p := FulfillValue(w);
            r := Returned(p);
          case Err(e) =>
            r := Threw(e);
        }
      } else if c.state.isRejected {
        match RejectWrap(onRejected)(c.exception.value) {
          case Ok(Void) =>
            var p := FulfillNothing();
            r := Returned(p);
          case Ok(w) =>
            var p := FulfillValue(w);
            r := Returned(p);
          case Err(e) =>
            r := Threw(e);
        }
      } else {
        ThenKeepsValid(Snapshot(), id, onFulfilled, onRejected, onProgress);
        Install(id, Chain(|cells|, onFulfilled, onRejected, onProgress));
        var p := NewDetail();
        AttachPromise(p);
        r := Returned(p);
      }
    }

    /** `QPromise::then`: a missing fulfilment handler becomes the
        propagation function (`FulfillFunction::wrap`). */
    method PromiseThen(id: nat, onFulfilled: Option<Value -> Outcome>,
                       onRejected: Option<Exception -> Outcome>,
                       onProgress: Option<Value -> Outcome>) returns (r: ThenResult)
      requires Valid() && id < |cells|
      modifies this
      ensures Valid()
      ensures (Snapshot(), r) == ThenStep(old(Snapshot()), id, FulfillWrap(onFulfilled), onRejected, onProgress)
    {
      r := Then(id, FulfillWrap(onFulfilled), onRejected, onProgress);
    }

    /** `QPromise::fail`: `then` with the propagation function and the
        rejection handler. */
    method Fail(id: nat, onRejected: Exception -> Outcome) returns (r: ThenResult)
      requires Valid() && id < |cells|
      modifies this
      ensures Valid()
      ensures (Snapshot(), r) == ThenStep(old(Snapshot()), id, Propagate(), Some(onRejected), None)
    {
      r := PromiseThen(id, Some(Propagate()), Some(onRejected), None);
    }
  }
}
