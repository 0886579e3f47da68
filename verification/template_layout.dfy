/** Layout of the template engine (include/qpromise/private/qpromise.h):
    the shared `Detail` cell, its list of `Chain` nodes, and the pure
    defaults that stand in for a missing handler. */
module TemplateLayout {
  import opened Payload

  /** `Detail::mState`: two settlement bits and three ownership bits. */
  datatype State = State(
    isFulfilled: bool,
    isRejected: bool,
    hasDeferred: bool,
    hasPromise: bool,
    hasParent: bool)

  /** One element of the list hanging off `Detail::mChain`.
      `Chain` is one `then` registration: it owns its downstream `Detail`
      (named by its address) and three handler slots; an empty slot is
      `None`. The fulfilment slot is never empty, because `QPromise::then`
      fills it with the propagation function first.
      `ChildChain` is the forwarder of an adoption: a non-owning pointer to
      the `Detail` that adopted this one. */
  datatype Node =
    | Chain(downstream: nat,
            onFulfilled: Value -> Outcome,
            onRejected: Option<Exception -> Outcome>,
            onProgress: Option<Value -> Outcome>)
    | ChildChain(child: nat)

  /** A `Detail`: its state bits, the stored value (`mReason`), the stored
      error and its chain. `chain` lists the head node followed by the
      nodes reached along `mNext`. */
  datatype Cell = Cell(
    state: State,
    reason: Option<Value>,
    exception: Option<Exception>,
    chain: seq<Node>)

  /** A rejected cell holds the error it was rejected with. */
  predicate Consistent(c: Cell)
  {
    c.state.isRejected ==> c.exception.Some?
  }

  /** What a fulfilled cell hands to a late `then`: `*mReason`, or nothing
      for a void `Detail`, which has no `mReason`. */
  function Stored(c: Cell): Value
  {
    match c.reason
    case Some(v) => v
    case None => Void
  }

  /** The address a node points at: a `Chain`'s downstream or a
      `ChildChain`'s adopting cell. */
  function Target(n: Node): nat
  {
    match n
    case Chain(d, _, _, _) => d
    case ChildChain(child) => child
  }

  /** A handler invocation, for stating when and in which order handlers
      run; `node` is the address of the `Chain` node's downstream `Detail`,
      which identifies the node. */
  datatype Call =
    | FulfilledCall(node: nat, arg: Value)
    | RejectedCall(node: nat, error: Exception)
    | ProgressCall(node: nat, arg: Value)

  /** Every `Detail` by address, the handler calls made so far, and the
      addresses that have been deleted. */
  datatype Store = Store(cells: seq<Cell>, trace: seq<Call>, deleted: set<nat>)

  /** The cell `Detail()` builds: pending, no chain, owned by its deferred. */
  function NewCell(): Cell
  {
    Cell(State(false, false, true, false, false), None, None, [])
  }

  /** `FulfillFunction<F, R>::wrap`: a given handler is kept, a null one is
      replaced by the propagation function, so the result of `then` carries
      the input type. */
  function FulfillWrap(onFulfilled: Option<Value -> Outcome>): (f: Value -> Outcome)
    ensures onFulfilled.None? ==> forall v :: f(v) == Ok(v)
    ensures onFulfilled.Some? ==> forall v :: f(v) == onFulfilled.value(v)
  {
    match onFulfilled
    case None => Propagate()
    case Some(g) => g
  }

  /** `RejectFunction<F, R>::wrap`: a given handler is kept, a null one is
      replaced by a handler that rethrows the error it receives. */
  function RejectWrap(onRejected: Option<Exception -> Outcome>): (f: Exception -> Outcome)
    ensures onRejected.None? ==> forall e :: f(e) == Err(e)
    ensures onRejected.Some? ==> forall e :: f(e) == onRejected.value(e)
  {
    match onRejected
    case None => e => Err(e)
    case Some(g) => g
  }
}
