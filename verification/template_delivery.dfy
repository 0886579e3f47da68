/** Synchronous delivery in the template engine
    (include/qpromise/private/qpromiseimpl.h): what `Detail::resolve`,
    `Detail::reject` and `Detail::notify` do to every `Detail` they reach,
    as functions of the store. Delivery recurses through downstream and
    adopting cells; `fuel` is the remaining depth of that recursion (the
    source recurses on the call stack and overflows it on a cyclic
    adoption). */
module TemplateDelivery {
  import opened Payload
  import opened TemplateLayout

  /** What one delivery may do to a cell: its chain and ownership bits stay,
      settlement bits are only ever set. */
  ghost predicate Evolves(a: Cell, b: Cell)
  {
    && b.chain == a.chain
    && b.state.hasDeferred == a.state.hasDeferred
    && b.state.hasPromise == a.state.hasPromise
    && b.state.hasParent == a.state.hasParent
    && (a.state.isFulfilled ==> b.state.isFulfilled)
    && (a.state.isRejected ==> b.state.isRejected)
    && (Consistent(a) ==> Consistent(b))
  }

  /** `r` is `s` after a delivery: no cell appears or is deleted, every cell
      evolves, and handler calls are only appended. */
  ghost predicate Grows(s: Store, r: Store)
  {
    && |r.cells| == |s.cells|
    && r.deleted == s.deleted
    && s.trace <= r.trace
    && forall i :: 0 <= i < |s.cells| ==> Evolves(s.cells[i], r.cells[i])
  }

  /** The cell after its fulfilment bit is set and the value is stored; a
      void `Detail` has no `mReason` and stores nothing. */
  function Fulfil(c: Cell, v: Value): Cell
  {
    if v == Void then c.(state := c.state.(isFulfilled := true))
    else c.(state := c.state.(isFulfilled := true), reason := Some(v))
  }

  /** The cell after its rejection bit is set and the error is stored. */
  function Refuse(c: Cell, e: Exception): Cell
  {
    c.(state := c.state.(isRejected := true), exception := Some(e))
  }

  /** `Detail::resolve(v)` (and `resolve()` with `v == Void`): set
      `isFulfilled`, store `v`, then hand `v` to every node from the head
      along `mNext`. There is no check that the cell is still pending. */
  function Resolved(s: Store, id: nat, v: Value, fuel: nat): (r: Store)
    decreases fuel, 0
    ensures Grows(s, r)
    ensures fuel > 0 && id < |s.cells| ==> r.cells[id].state.isFulfilled
  {
    if fuel == 0 || id >= |s.cells| then s
    else
      var c := s.cells[id];
      var s1 := s.(cells := s.cells[id := Fulfil(c, v)]);
      DeliverFulfilment(s1, c.chain, v, fuel - 1)
  }

  /** The loop of `Detail::resolve`: each node in list order. */
  function DeliverFulfilment(s: Store, nodes: seq<Node>, v: Value, fuel: nat): (r: Store)
    decreases fuel, 2, |nodes|
    ensures Grows(s, r)
  {
    if nodes == [] then s
    else DeliverFulfilment(NodeResolved(s, nodes[0], v, fuel), nodes[1..], v, fuel)
  }

  /** `ChainResolve::resolve` and `ChildResolveChain::resolve`: a `Chain`
      calls its fulfilment handler inside a try block and resolves its
      downstream with the result, or rejects it with what was thrown; a
      `ChildChain` resolves the adopting cell with the same value. */
  function NodeResolved(s: Store, n: Node, v: Value, fuel: nat): (r: Store)
    decreases fuel, 1
    ensures Grows(s, r)
  {
    match n
    case Chain(d, onFulfilled, _, _) =>
      var s1 := s.(trace := s.trace + [FulfilledCall(d, v)]);
      (match onFulfilled(v)
       case Ok(w) => Resolved(s1, d, w, fuel)
       case Err(e) => Rejected(s1, d, e, fuel))
    case ChildChain(child) => Resolved(s, child, v, fuel)
  }

  /** `Detail::reject(e)`: set `isRejected`, store `e`, and pass `e` to the
      head node only. There is no check that the cell is still pending. */
  function Rejected(s: Store, id: nat, e: Exception, fuel: nat): (r: Store)
    decreases fuel, 0
    ensures Grows(s, r)
    ensures fuel > 0 && id < |s.cells| ==> r.cells[id].state.isRejected
  {
    if fuel == 0 || id >= |s.cells| then s
    else
      var c := s.cells[id];
      var s1 := s.(cells := s.cells[id := Refuse(c, e)]);
      if c.chain == [] then s1 else NodeRejected(s1, c.chain[0], e, fuel - 1)
  }

  /** `Chain::reject` and `ChildChain::reject`: without a rejection handler
      the downstream is rejected with the same error; with one, the handler
      runs inside a try block, a thrown error rejects the downstream and a
      normal return leaves the downstream as it is. A `ChildChain` rejects
      the adopting cell with the same error. */
  function NodeRejected(s: Store, n: Node, e: Exception, fuel: nat): (r: Store)
    decreases fuel, 1
    ensures Grows(s, r)
  {
    match n
    case Chain(d, _, onRejected, _) =>
      (match onRejected
       case None => Rejected(s, d, e, fuel)
       case Some(h) =>
         var s1 := s.(trace := s.trace + [RejectedCall(d, e)]);
         (match h(e)
          case Ok(_) => s1
          case Err(e2) => Rejected(s1, d, e2, fuel)))
    case ChildChain(child) => Rejected(s, child, e, fuel)
  }

  /** The outcome of a notification: the store, and the error a progress
      handler threw, which nothing catches. */
  datatype Notification = Notification(store: Store, escaped: Option<Exception>)

  /** `Detail::notify(u)`: only the head node hears of it. */
  function Notified(s: Store, id: nat, u: Value, fuel: nat): (r: Notification)
    decreases fuel, 0
    ensures r.store.cells == s.cells && r.store.deleted == s.deleted && s.trace <= r.store.trace
  {
    if fuel == 0 || id >= |s.cells| || s.cells[id].chain == [] then Notification(s, None)
    else NodeNotified(s, s.cells[id].chain[0], u, fuel - 1)
  }

  /** `ChainNotify::notify` and `ChildNotifyChain::notify`: a `Chain` calls
      its progress handler, when it has one, and forwards nothing
      downstream; a `ChildChain` notifies the adopting cell. */
  function NodeNotified(s: Store, n: Node, u: Value, fuel: nat): (r: Notification)
    decreases fuel, 1
    ensures r.store.cells == s.cells && r.store.deleted == s.deleted && s.trace <= r.store.trace
  {
    match n
    case Chain(d, _, _, onProgress) =>
      (match onProgress
       case None => Notification(s, None)
       case Some(h) =>
         var s1 := s.(trace := s.trace + [ProgressCall(d, u)]);
         (match h(u)
          case Ok(_) => Notification(s1, None)
          case Err(e) => Notification(s1, Some(e))))
    case ChildChain(child) => Notified(s, child, u, fuel)
  }
}
