/** The Qt engine's objects as they change in place (src/qpromise.cpp,
    src/qpromise.h, src/qpromiseimpl.h). Every `QPromiseBase` lives in one
    arena, addressed by number; a `QPromise` or `QDeferred` handle holds
    such an address, and `QDeferred::promise()` hands out that same
    address. `Q::nextTick` appends to `tasks`, and `RunNext` is one turn of
    the event loop. Each method is proved equal to the function of the
    world that specifies it. */
module QtRuntime {
  import opened Payload
  import opened QtLayout
  import opened QtSpec
  import opened QtInvariant

  class Runtime {
    var bases: seq<Base>
    var tasks: seq<Task>
    var log: seq<Invocation>

    ghost function Current(): World
      reads this
    {
      World(bases, tasks, log)
    }

    /** Every posted or queued closure settles an existing object. */
    ghost predicate Valid()
      reads this
    {
      InRange(Current())
    }

    constructor ()
      ensures Valid() && bases == [] && tasks == [] && log == []
    {
      bases := [];
      tasks := [];
      log := [];
    }

    /** `Q::defer()` and the `QDeferred` constructor: a new unresolved
        `QDeferredPromise`. */
    method Defer() returns (p: nat)
      requires Valid()
      modifies this
      ensures Valid() && p == |old(bases)|
      ensures Current() == Allocated(old(Current()), Unresolved())
    {
      AllocatedKeepsInRange(Current(), Unresolved());
      p := |bases|;
      bases := bases + [Unresolved()];
    }

    /** `QPromise(const QVariant&)`, which `Q::fulfill` calls: a new
        `QFulfilledPromise`. */
    method Fulfill(v: Value) returns (p: nat)
      requires Valid()
      modifies this
      ensures Valid() && p == |old(bases)|
      ensures Current() == Allocated(old(Current()), FulfilledBase(v))
    {
      AllocatedKeepsInRange(Current(), FulfilledBase(v));
      p := |bases|;
      bases := bases + [FulfilledBase(v)];
    }

    /** `QPromise(const QPromiseException&)`, which `Q::reject` calls: a new
        `QRejectedPromise`. */
    method Reject(e: Exception) returns (p: nat)
      requires Valid()
      modifies this
      ensures Valid() && p == |old(bases)|
      ensures Current() == Allocated(old(Current()), RejectedBase(e))
    {
      AllocatedKeepsInRange(Current(), RejectedBase(e));
      p := |bases|;
      bases := bases + [RejectedBase(e)];
    }

    /** `Q::nextTick`: the task is posted, never run here. */
    method NextTick(t: Task)
      requires Valid() && ActionInRange(t.action, |bases|)
      modifies this
      ensures Valid()
      ensures tasks == old(tasks) + [t]
      ensures bases == old(bases) && log == old(log)
    {
      tasks := tasks + [t];
    }

    /** `thenAction`, dispatched on the kind of object at `p`. */
    method ThenAction(p: nat, a: Action, fuel: nat)
      requires Valid() && ActionInRange(a, |bases|)
      modifies this
      decreases fuel
      ensures Valid()
      ensures Current() == ThenActed(old(Current()), p, a, fuel)
    {
      ThenActedKeepsInRange(Current(), p, a, fuel);
      if fuel == 0 || p >= |bases| {
        return;
      }
      match bases[p] {
        case DeferredBase(q, Some(t)) =>
          ThenAction(t, a, fuel - 1);
        case DeferredBase(q, None) =>
          bases := bases[p := DeferredBase(q + [a], None)];
        case FulfilledBase(v) =>
          NextTick(Task(a, v));
        case RejectedBase(_) =>
      }
    }

    /** `doThen`, dispatched on the kind of object at `p`. */
    method DoThen(p: nat, f: Value -> Outcome, fuel: nat) returns (d: nat)
      requires Valid()
      modifies this
      decreases fuel
      ensures Valid()
      ensures (Current(), d) == DoneThen(old(Current()), p, f, fuel)
    {
      DoneThenKeepsInRange(Current(), p, f, fuel);
      if fuel == 0 || p >= |bases| {
        d := Defer();
        return;
      }
      match bases[p] {
        case DeferredBase(q, Some(t)) =>
          d := DoThen(t, f, fuel - 1);
        case DeferredBase(q, None) =>
          d := Defer();
          bases := bases[p := DeferredBase(q + [Settle(d, f)], None)];
        case FulfilledBase(v) =>
          d := Defer();
          NextTick(Task(Settle(d, f), v));
        case RejectedBase(_) =>
          d := Defer();
      }
    }

    /** `resolve(promise)`: write-once on a deferred, a warning elsewhere. */
    method Resolve(p: nat, t: nat, fuel: nat)
      requires Valid()
      modifies this
      ensures Valid()
      ensures Current() == ResolvedWith(old(Current()), p, t, fuel)
    {
      ResolvedWithKeepsInRange(Current(), p, t, fuel);
      if p >= |bases| {
        return;
      }
      match bases[p] {
        case DeferredBase(q, None) =>
          bases := bases[p := DeferredBase(q, Some(t))];
          ThenAction(t, Drain(p), fuel);
        case _ =>
      }
    }

    /** `QDeferred::resolve(const QVariant&)`. */
    method ResolveValue(p: nat, v: Value, fuel: nat)
      requires Valid()
      modifies this
      ensures Valid()
      ensures Current() == SettledWith(old(Current()), p, FulfilledBase(v), fuel)
    {
      var t := Fulfill(v);
      Resolve(p, t, fuel);
    }

    /** `QDeferred::reject`. */
    method RejectWith(p: nat, e: Exception, fuel: nat)
      requires Valid()
      modifies this
      ensures Valid()
      ensures Current() == SettledWith(old(Current()), p, RejectedBase(e), fuel)
    {
      var t := Reject(e);
      Resolve(p, t, fuel);
    }

    /** `QPromise::then`: the callback is wrapped into a `QVariant` to
        `QVariant` function, then `QPromiseBase::then` calls `doThen` with
        it. `Q::when(promise, f)` is this call, since `Q::resolve` returns a
        promise unchanged. */
    method Then(p: nat, c: Callback, fuel: nat) returns (d: nat)
      requires Valid()
      modifies this
      ensures Valid()
      ensures (Current(), d) == DoneThen(old(Current()), p, Wrapped(c), fuel)
    {
      d := DoThen(p, Wrapped(c), fuel);
    }

    /** Calling a closure with a value. */
    method Run(a: Action, v: Value, fuel: nat) returns (escaped: Option<Exception>)
      requires Valid() && ActionInRange(a, |bases|)
      modifies this
      decreases fuel, 0
      ensures Valid()
      ensures (Current(), escaped) == Ran(old(Current()), a, v, fuel)
    {
      RanKeepsInRange(Current(), a, v, fuel);
      escaped := None;
      match a {
        case Settle(d, f) =>
          log := log + [Invocation(d, v)];
          match f(v) {
            case Ok(x) => ResolveValue(d, x, fuel);
            case Err(e) => escaped := Some(e);
          }
        case Drain(owner) =>
          if fuel == 0 || owner >= |bases| || !bases[owner].DeferredBase? {
            return;
          }
          assert QueueInRange(bases[owner], |bases|);
          escaped := RunAll(bases[owner].queue, v, fuel - 1);
      }
    }

    /** The drain loop over a queue. */
    method RunAll(acts: seq<Action>, v: Value, fuel: nat) returns (escaped: Option<Exception>)
      requires Valid() && forall k :: 0 <= k < |acts| ==> ActionInRange(acts[k], |bases|)
      modifies this
      decreases fuel, 1, |acts|
      ensures Valid()
      ensures (Current(), escaped) == RanAll(old(Current()), acts, v, fuel)
    {
      var i := 0;
      while i < |acts|
        invariant 0 <= i <= |acts|
        invariant Valid() && forall k :: i <= k < |acts| ==> ActionInRange(acts[k], |bases|)
        invariant RanAll(Current(), acts[i..], v, fuel) == RanAll(old(Current()), acts, v, fuel)
      {
        assert acts[i..][1..] == acts[i + 1..];
        var x := Run(acts[i], v, fuel);
        if x.Some? {
          escaped := x;
          return;
        }
        i := i + 1;
      }
      escaped := None;
    }

    /** One turn of the event loop. */
    method RunNext(fuel: nat) returns (escaped: Option<Exception>)
      requires Valid() && tasks != []
      modifies this
      ensures Valid()
      ensures (Current(), escaped) == Stepped(old(Current()), fuel)
    {
      StepKeepsInRange(Current(), fuel);
      var t := tasks[0];
      assert ActionInRange(t.action, |bases|);
      tasks := tasks[1..];
      escaped := Run(t.action, t.value, fuel);
    }
  }
}
