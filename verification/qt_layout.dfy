/** The Qt engine's data (src/qpromise.h, src/qpromise.cpp): promise
    objects shared through `QSharedPointer`, modelled as addresses into one
    arena, the closures they queue, the tasks `Q::nextTick` posts, and the
    callback wrappers `QPromise::then` builds (src/qpromise.h,
    src/qpromiseimpl.h). */
module QtLayout {
  import opened Payload

  /** A queued closure (`std::function<void(const QVariant&)>`):
      - `Settle(deferred, fulfilled)` is the closure `doThen` queues, which
        resolves the deferred it created with `fulfilled(value)`;
      - `Drain(owner)` is the closure `QDeferredPromise::resolve` hands to
        the adopted promise, which runs `owner`'s queue with the value. */
  datatype Action =
    | Settle(deferred: nat, fulfilled: Value -> Outcome)
    | Drain(owner: nat)

  /** A `QPromiseBase` object: a `QDeferredPromise` with its queue and its
      write-once `mResolvedPromise` (an address), or an immutable
      `QFulfilledPromise` / `QRejectedPromise`. */
  datatype Base =
    | DeferredBase(queue: seq<Action>, resolved: Option<nat>)
    | FulfilledBase(value: Value)
    | RejectedBase(reason: Exception)

  /** A task posted with `Q::nextTick`: a closure and the value it is
      called with. */
  datatype Task = Task(action: Action, value: Value)

  /** A call of a `then` callback: the deferred its result goes to, and the
      value it was called with. */
  datatype Invocation = Invocation(deferred: nat, arg: Value)

  /** Every promise object, the pending `nextTick` tasks in posting order,
      and the callback calls made so far. */
  datatype World = World(bases: seq<Base>, tasks: seq<Task>, log: seq<Invocation>)

  /** A fresh `QDeferredPromise`: nothing queued, not resolved. */
  function Unresolved(): Base
  {
    DeferredBase([], None)
  }

  /** `wrapFulfilled`: `nullptr` becomes `propagateValue`, a callable is
      passed on as it is. */
  function WrapFulfilled(fulfilled: Option<Value -> Outcome>): (f: Value -> Outcome)
    ensures fulfilled.None? ==> forall v :: f(v) == Ok(v)
    ensures fulfilled.Some? ==> f == fulfilled.value
  {
    match fulfilled
    case None => Propagate()
    case Some(g) => g
  }

  /** `QVariant::toInt`, which `qvariantCast<int>` calls: an empty variant
      converts to 0. */
  function ToInt(v: Value): (n: int)
    ensures v.Data? ==> n == v.n
    ensures v == Void ==> n == 0
  {
    match v
    case Void => 0
    case Data(n) => n
  }

  /** The callback shapes `QPromise::then` accepts: none, a callable taking
      and returning `QVariant`, one taking `QVariant` and returning
      nothing, and the same two taking a typed argument. */
  datatype Callback =
    | NoCallback
    | VariantFunction(f: Value -> Outcome)
    | VariantAction(f: Value -> Outcome)
    | TypedFunction(f: Value -> Outcome)
    | TypedAction(f: Value -> Outcome)

  /** The `QVariant` to `QVariant` function a callback is wrapped into
      before `QPromiseBase::then`: a callable returning nothing is followed
      by an empty `QVariant`, a typed one is fed `qvariantCast<int>` of the
      value, and no callback propagates. The wrapper lets a thrown error
      through. */
  function Wrapped(c: Callback): (f: Value -> Outcome)
    ensures c.NoCallback? ==> forall v :: f(v) == Ok(v)
    ensures c.VariantFunction? ==> forall v :: f(v) == c.f(v)
    ensures c.VariantAction? ==>
              forall v :: f(v) == (if c.f(v).Ok? then Ok(Void) else c.f(v))
    ensures c.TypedFunction? ==> forall v :: f(v) == c.f(Data(ToInt(v)))
    ensures c.TypedAction? ==>
              forall v :: f(v) == (if c.f(Data(ToInt(v))).Ok? then Ok(Void) else c.f(Data(ToInt(v))))
  {
    match c
    case NoCallback => WrapFulfilled(None)
    case VariantFunction(g) => WrapFulfilled(Some(g))
    case VariantAction(g) => Discarding(g)
    case TypedFunction(g) => Casting(g)
    case TypedAction(g) => Discarding(Casting(g))
  }

  /** The lambda of the `then` overload for a callable returning nothing:
      call it, then return an empty `QVariant`. */
  function Discarding(g: Value -> Outcome): (f: Value -> Outcome)
    ensures forall v :: g(v).Ok? ==> f(v) == Ok(Void)
    ensures forall v :: g(v).Err? ==> f(v) == g(v)
  {
    v => match g(v) case Ok(_) => Ok(Void) case Err(e) => Err(e)
  }

  /** The lambda of the `then` overload for a typed callable: convert the
      value with `qvariantCast<int>` and call it. */
  function Casting(g: Value -> Outcome): (f: Value -> Outcome)
    ensures forall v :: f(v) == g(Data(ToInt(v)))
  {
    v => g(Data(ToInt(v)))
  }
}
