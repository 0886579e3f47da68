/** The Qt engine's closures only ever settle objects that exist: every
    `Settle` closure is built by `doThen` right after `Q::defer()` created
    its deferred (src/qpromise.cpp:29-32), so its target is allocated before
    the closure is queued or posted, and every operation keeps it so. */
module QtInvariant {
  import opened Payload
  import opened QtLayout
  import opened QtSpec

  /** Closure `a` settles nothing, or an object among the first `n`. */
  predicate ActionInRange(a: Action, n: nat)
  {
    a.Settle? ==> a.deferred < n
  }

  /** Every closure queued on `b` settles an object among the first `n`. */
  predicate QueueInRange(b: Base, n: nat)
  {
    b.DeferredBase? ==> forall k :: 0 <= k < |b.queue| ==> ActionInRange(b.queue[k], n)
  }

  /** Every closure posted or queued settles an existing object. */
  ghost predicate InRange(w: World)
  {
    && (forall k :: 0 <= k < |w.tasks| ==> ActionInRange(w.tasks[k].action, |w.bases|))
    && (forall i :: 0 <= i < |w.bases| ==> QueueInRange(w.bases[i], |w.bases|))
  }

  lemma {:induction false} AllocatedKeepsInRange(w: World, b: Base)
    requires InRange(w) && QueueInRange(b, |w.bases| + 1)
    ensures InRange(Allocated(w, b))
  {
    var r := Allocated(w, b);
    forall i | 0 <= i < |r.bases|
      ensures QueueInRange(r.bases[i], |r.bases|)
    {
      if i < |w.bases| {
        assert QueueInRange(w.bases[i], |w.bases|);
      }
    }
  }

  lemma {:induction false} ThenActedKeepsInRange(w: World, p: nat, a: Action, fuel: nat)
    requires InRange(w) && ActionInRange(a, |w.bases|)
    ensures InRange(ThenActed(w, p, a, fuel))
    decreases fuel
  {
    if fuel > 0 && p < |w.bases| {
      match w.bases[p]
      case DeferredBase(q, Some(t)) =>
        ThenActedKeepsInRange(w, t, a, fuel - 1);
      case DeferredBase(q, None) =>
        var r := ThenActed(w, p, a, fuel);
        forall i | 0 <= i < |r.bases|
          ensures QueueInRange(r.bases[i], |r.bases|)
        {
          assert QueueInRange(w.bases[i], |w.bases|);
        }
      case FulfilledBase(v) =>
      case RejectedBase(_) =>
    }
  }

  lemma {:induction false} DoneThenKeepsInRange(w: World, p: nat, f: Value -> Outcome, fuel: nat)
    requires InRange(w)
    ensures InRange(DoneThen(w, p, f, fuel).0)
    decreases fuel
  {
    var w1 := Allocated(w, Unresolved());
    AllocatedKeepsInRange(w, Unresolved());
    if fuel > 0 && p < |w.bases| {
      match w.bases[p]
      case DeferredBase(q, Some(t)) =>
        DoneThenKeepsInRange(w, t, f, fuel - 1);
      case DeferredBase(q, None) =>
        var r := DoneThen(w, p, f, fuel).0;
        forall i | 0 <= i < |r.bases|
          ensures QueueInRange(r.bases[i], |r.bases|)
        {
          assert QueueInRange(w1.bases[i], |w1.bases|);
        }
      case FulfilledBase(v) =>
        var r := DoneThen(w, p, f, fuel).0;
        forall k | 0 <= k < |r.tasks|
          ensures ActionInRange(r.tasks[k].action, |r.bases|)
        {
          if k < |w1.tasks| {
            assert ActionInRange(w1.tasks[k].action, |w1.bases|);
          }
        }
      case RejectedBase(_) =>
    }
  }

  lemma ResolvedWithKeepsInRange(w: World, p: nat, t: nat, fuel: nat)
    requires InRange(w)
    ensures InRange(ResolvedWith(w, p, t, fuel))
  {
    if p < |w.bases| && w.bases[p].DeferredBase? && w.bases[p].resolved.None? {
      var w1 := w.(bases := w.bases[p := DeferredBase(w.bases[p].queue, Some(t))]);
      forall i | 0 <= i < |w1.bases|
        ensures QueueInRange(w1.bases[i], |w1.bases|)
      {
        assert QueueInRange(w.bases[i], |w.bases|);
      }
      ThenActedKeepsInRange(w1, t, Drain(p), fuel);
    }
  }

  lemma SettledWithKeepsInRange(w: World, p: nat, b: Base, fuel: nat)
    requires InRange(w) && !b.DeferredBase?
    ensures InRange(SettledWith(w, p, b, fuel))
  {
    AllocatedKeepsInRange(w, b);
    ResolvedWithKeepsInRange(Allocated(w, b), p, |w.bases|, fuel);
  }

  lemma {:induction false} RanKeepsInRange(w: World, a: Action, v: Value, fuel: nat)
    requires InRange(w) && ActionInRange(a, |w.bases|)
    ensures InRange(Ran(w, a, v, fuel).0)
    decreases fuel, 0
  {
    match a
    case Settle(d, f) =>
      var w1 := w.(log := w.log + [Invocation(d, v)]);
      assert InRange(w1);
      match f(v) {
        case Ok(x) => SettledWithKeepsInRange(w1, d, FulfilledBase(x), fuel);
        case Err(_) =>
      }
    case Drain(owner) =>
      if fuel > 0 && owner < |w.bases| && w.bases[owner].DeferredBase? {
        assert QueueInRange(w.bases[owner], |w.bases|);
        RanAllKeepsInRange(w, w.bases[owner].queue, v, fuel - 1);
      }
  }

  lemma {:induction false} RanAllKeepsInRange(w: World, acts: seq<Action>, v: Value, fuel: nat)
    requires InRange(w) && forall k :: 0 <= k < |acts| ==> ActionInRange(acts[k], |w.bases|)
    ensures InRange(RanAll(w, acts, v, fuel).0)
    decreases fuel, 1, |acts|
  {
    if acts != [] {
      RanKeepsInRange(w, acts[0], v, fuel);
      var (w1, x) := Ran(w, acts[0], v, fuel);
      if x.None? {
        forall k | 0 <= k < |acts[1..]|
          ensures ActionInRange(acts[1..][k], |w1.bases|)
        {
          assert ActionInRange(acts[k + 1], |w.bases|);
        }
        RanAllKeepsInRange(w1, acts[1..], v, fuel);
      }
    }
  }

  /** A turn of the event loop keeps every closure in range. */
  lemma StepKeepsInRange(w: World, fuel: nat)
    requires InRange(w) && w.tasks != []
    ensures InRange(Stepped(w, fuel).0)
  {
    var w1 := w.(tasks := w.tasks[1..]);
    assert ActionInRange(w.tasks[0].action, |w.bases|);
    forall k | 0 <= k < |w1.tasks|
      ensures ActionInRange(w1.tasks[k].action, |w1.bases|)
    {
      assert w1.tasks[k] == w.tasks[k + 1];
    }
    RanKeepsInRange(w1, w.tasks[0].action, w.tasks[0].value, fuel);
  }
}
