/** The Qt engine's operations (src/qpromise.cpp) as functions of the
    world. `thenAction`, `doThen` and `resolve` follow `mResolvedPromise`
    from one deferred to the next; `fuel` is the remaining depth of that
    recursion, which the source performs on the call stack and which a
    cycle of adoptions makes endless. */
module QtSpec {
  import opened Payload
  import opened QtLayout

  /** What an operation may do to one promise object: none changes kind, a
      deferred's queue only grows at the end while it is unresolved, and a
      resolved deferred never changes again. */
  ghost predicate Succeeds(a: Base, b: Base)
  {
    match a
    case DeferredBase(q, res) =>
      && b.DeferredBase?
      && q <= b.queue
      && (res.Some? ==> b == a)
    case _ => b == a
  }

  /** `r` is `w` after an operation: objects are only added and every old
      one succeeds itself, tasks are only posted, and callback calls are
      only appended. */
  ghost predicate Extends(w: World, r: World)
  {
    && |w.bases| <= |r.bases|
    && w.tasks <= r.tasks
    && w.log <= r.log
    && forall i :: 0 <= i < |w.bases| ==> Succeeds(w.bases[i], r.bases[i])
  }

  lemma SucceedsTransitive(a: Base, b: Base, c: Base)
    requires Succeeds(a, b) && Succeeds(b, c)
    ensures Succeeds(a, c)
  {
  }

  lemma ExtendsTransitive(w: World, u: World, r: World)
    requires Extends(w, u) && Extends(u, r)
    ensures Extends(w, r)
  {
    forall i | 0 <= i < |w.bases|
      ensures Succeeds(w.bases[i], r.bases[i])
    {
      SucceedsTransitive(w.bases[i], u.bases[i], r.bases[i]);
    }
  }

  /** The world with one more object, at address `|w.bases|`. */
  function Allocated(w: World, b: Base): (r: World)
    ensures Extends(w, r) && |r.bases| == |w.bases| + 1 && r.bases[|w.bases|] == b
    ensures r.tasks == w.tasks && r.log == w.log
  {
    w.(bases := w.bases + [b])
  }

  /** `thenAction(action)`: an unresolved deferred queues the action, a
      resolved one forwards it to the promise it adopted, a fulfilled
      promise posts it as a task with its value, and a rejected promise
      drops it. */
  function ThenActed(w: World, p: nat, a: Action, fuel: nat): (r: World)
    decreases fuel
    ensures Extends(w, r) && |r.bases| == |w.bases| && r.log == w.log
  {
    if fuel == 0 || p >= |w.bases| then w
    else
      match w.bases[p]
      case DeferredBase(q, Some(t)) => ThenActed(w, t, a, fuel - 1)
      case DeferredBase(q, None) => w.(bases := w.bases[p := DeferredBase(q + [a], None)])
      case FulfilledBase(v) => w.(tasks := w.tasks + [Task(a, v)])
      case RejectedBase(_) => w
  }

  /** `doThen(fulfilled)`: a new deferred is created and its promise
      returned. An unresolved deferred queues a closure settling it, a
      resolved one forwards the call, a fulfilled promise posts that
      closure as a task, and a rejected promise does nothing more, so the
      returned promise never settles. */
  function DoneThen(w: World, p: nat, f: Value -> Outcome, fuel: nat): (r: (World, nat))
    decreases fuel
    ensures Extends(w, r.0) && r.0.log == w.log
    ensures r.1 == |w.bases| && |r.0.bases| == |w.bases| + 1 && r.0.bases[r.1] == Unresolved()
  {
    var d := |w.bases|;
    if fuel == 0 || p >= |w.bases| then (Allocated(w, Unresolved()), d)
    else
      match w.bases[p]
      case DeferredBase(q, Some(t)) => DoneThen(w, t, f, fuel - 1)
      case DeferredBase(q, None) =>
        var w1 := Allocated(w, Unresolved());
        (w1.(bases := w1.bases[p := DeferredBase(q + [Settle(d, f)], None)]), d)
      case FulfilledBase(v) =>
        var w1 := Allocated(w, Unresolved());
        (w1.(tasks := w1.tasks + [Task(Settle(d, f), v)]), d)
      case RejectedBase(_) => (Allocated(w, Unresolved()), d)
  }

  /** `resolve(promise)`: only an unresolved deferred reacts. It stores the
      adopted promise and hands it the closure that drains its queue; an
      already resolved deferred and a settled promise only warn. */
  function ResolvedWith(w: World, p: nat, t: nat, fuel: nat): (r: World)
    ensures Extends(w, r) && |r.bases| == |w.bases| && r.log == w.log
  {
    if p >= |w.bases| then w
    else
      match w.bases[p]
      case DeferredBase(q, None) =>
        var w1 := w.(bases := w.bases[p := DeferredBase(q, Some(t))]);
        ExtendsTransitive(w, w1, ThenActed(w1, t, Drain(p), fuel));
        ThenActed(w1, t, Drain(p), fuel)
      case _ => w
  }

  /** `QDeferred::resolve(value)` with a new `QFulfilledPromise`, and
      `QDeferred::reject(reason)` with a new `QRejectedPromise`: the object
      is created first, then the deferred resolved with it. */
  function SettledWith(w: World, p: nat, b: Base, fuel: nat): (r: World)
    requires !b.DeferredBase?
    ensures Extends(w, r) && |r.bases| == |w.bases| + 1 && r.bases[|w.bases|] == b && r.log == w.log
  {
    var w1 := Allocated(w, b);
    ExtendsTransitive(w, w1, ResolvedWith(w1, p, |w.bases|, fuel));
    ResolvedWith(w1, p, |w.bases|, fuel)
  }

  /** Calling a closure with a value. `Settle` calls its callback and
      resolves its deferred with the result; an error the callback throws
      is not caught and is handed back. `Drain` runs its owner's queue. */
  function Ran(w: World, a: Action, v: Value, fuel: nat): (r: (World, Option<Exception>))
    decreases fuel, 0
    ensures Extends(w, r.0)
  {
    match a
    case Settle(d, f) =>
      var w1 := w.(log := w.log + [Invocation(d, v)]);
      assert Extends(w, w1);
      (match f(v)
       case Ok(x) =>
         ExtendsTransitive(w, w1, SettledWith(w1, d, FulfilledBase(x), fuel));
         (SettledWith(w1, d, FulfilledBase(x), fuel), None)
       case Err(e) => (w1, Some(e)))
    case Drain(owner) =>
      if fuel == 0 || owner >= |w.bases| || !w.bases[owner].DeferredBase? then (w, None)
      else RanAll(w, w.bases[owner].queue, v, fuel - 1)
  }

  /** The loop `for (const auto& f : mQueue) f(value)`: closures run in
      queue order, and an error one of them throws ends the loop. */
  function RanAll(w: World, acts: seq<Action>, v: Value, fuel: nat): (r: (World, Option<Exception>))
    decreases fuel, 1, |acts|
    ensures Extends(w, r.0)
  {
    if acts == [] then (w, None)
    else
      var (w1, x) := Ran(w, acts[0], v, fuel);
      if x.Some? then (w1, x)
      else
        ExtendsTransitive(w, w1, RanAll(w1, acts[1..], v, fuel).0);
        RanAll(w1, acts[1..], v, fuel)
  }

  /** One turn of the event loop: the oldest task is taken off the queue and
      run. */
  function Stepped(w: World, fuel: nat): (r: (World, Option<Exception>))
    requires w.tasks != []
  {
    var t := w.tasks[0];
    Ran(w.(tasks := w.tasks[1..]), t.action, t.value, fuel)
  }
}
