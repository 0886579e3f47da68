/** A deferred that no posted task and no queued closure will settle stays
    unresolved whatever the engine does next. `then` on a
    `QRejectedPromise` returns such a deferred (src/qpromise.cpp:89-98), so
    its promise never settles. */
module QtOrphans {
  import opened Payload
  import opened QtLayout
  import opened QtSpec
  import opened QtInvariant

  /** Whether running closure `a` settles deferred `d`. */
  predicate Aims(a: Action, d: nat)
  {
    a.Settle? && a.deferred == d
  }

  /** No closure queued on `b` settles `d`. */
  predicate QueueAvoids(b: Base, d: nat)
  {
    b.DeferredBase? ==> forall k :: 0 <= k < |b.queue| ==> !Aims(b.queue[k], d)
  }

  /** `d` is an unresolved deferred, and nothing posted or queued will
      settle it. */
  ghost predicate Orphaned(w: World, d: nat)
  {
    && d < |w.bases| && w.bases[d].DeferredBase? && w.bases[d].resolved.None?
    && (forall k :: 0 <= k < |w.tasks| ==> !Aims(w.tasks[k].action, d))
    && (forall i :: 0 <= i < |w.bases| ==> QueueAvoids(w.bases[i], d))
  }

  lemma {:induction false} ThenActedKeepsOrphan(w: World, p: nat, a: Action, fuel: nat, d: nat)
    requires Orphaned(w, d) && !Aims(a, d)
    ensures Orphaned(ThenActed(w, p, a, fuel), d)
    decreases fuel
  {
    if fuel > 0 && p < |w.bases| {
      match w.bases[p]
      case DeferredBase(q, Some(t)) =>
        ThenActedKeepsOrphan(w, t, a, fuel - 1, d);
      case DeferredBase(q, None) =>
        var r := ThenActed(w, p, a, fuel);
        forall i | 0 <= i < |r.bases|
          ensures QueueAvoids(r.bases[i], d)
        {
          assert QueueAvoids(w.bases[i], d);
        }
      case FulfilledBase(v) =>
      case RejectedBase(_) =>
    }
  }

  lemma ResolvedKeepsOrphan(w: World, p: nat, t: nat, fuel: nat, d: nat)
    requires Orphaned(w, d) && p != d
    ensures Orphaned(ResolvedWith(w, p, t, fuel), d)
  {
    if p < |w.bases| && w.bases[p].DeferredBase? && w.bases[p].resolved.None? {
      var w1 := w.(bases := w.bases[p := DeferredBase(w.bases[p].queue, Some(t))]);
      forall i | 0 <= i < |w1.bases|
        ensures QueueAvoids(w1.bases[i], d)
      {
        assert QueueAvoids(w.bases[i], d);
      }
      ThenActedKeepsOrphan(w1, t, Drain(p), fuel, d);
    }
  }

  lemma SettledKeepsOrphan(w: World, p: nat, b: Base, fuel: nat, d: nat)
    requires Orphaned(w, d) && p != d && !b.DeferredBase?
    ensures Orphaned(SettledWith(w, p, b, fuel), d)
  {
    var w1 := Allocated(w, b);
    forall i | 0 <= i < |w1.bases|
      ensures QueueAvoids(w1.bases[i], d)
    {
      if i < |w.bases| {
        assert QueueAvoids(w.bases[i], d);
      }
    }
    ResolvedKeepsOrphan(w1, p, |w.bases|, fuel, d);
  }

  lemma {:induction false} RanKeepsOrphan(w: World, a: Action, v: Value, fuel: nat, d: nat)
    requires Orphaned(w, d) && !Aims(a, d)
    ensures Orphaned(Ran(w, a, v, fuel).0, d)
    decreases fuel, 0
  {
    match a
    case Settle(d1, f) =>
      var w1 := w.(log := w.log + [Invocation(d1, v)]);
      assert Orphaned(w1, d);
      match f(v) {
        case Ok(x) => SettledKeepsOrphan(w1, d1, FulfilledBase(x), fuel, d);
        case Err(_) =>
      }
    case Drain(owner) =>
      if fuel > 0 && owner < |w.bases| && w.bases[owner].DeferredBase? {
        assert QueueAvoids(w.bases[owner], d);
        RanAllKeepsOrphan(w, w.bases[owner].queue, v, fuel - 1, d);
      }
  }

  lemma {:induction false} RanAllKeepsOrphan(w: World, acts: seq<Action>, v: Value, fuel: nat, d: nat)
    requires Orphaned(w, d) && forall k :: 0 <= k < |acts| ==> !Aims(acts[k], d)
    ensures Orphaned(RanAll(w, acts, v, fuel).0, d)
    decreases fuel, 1, |acts|
  {
    if acts != [] {
      RanKeepsOrphan(w, acts[0], v, fuel, d);
      var (w1, x) := Ran(w, acts[0], v, fuel);
      if x.None? {
        RanAllKeepsOrphan(w1, acts[1..], v, fuel, d);
      }
    }
  }

  /** A turn of the event loop leaves an orphaned deferred orphaned. */
  lemma StepKeepsOrphan(w: World, fuel: nat, d: nat)
    requires Orphaned(w, d) && w.tasks != []
    ensures Orphaned(Stepped(w, fuel).0, d)
  {
    var w1 := w.(tasks := w.tasks[1..]);
    assert !Aims(w.tasks[0].action, d);
    forall k | 0 <= k < |w1.tasks|
      ensures !Aims(w1.tasks[k].action, d)
    {
      assert w1.tasks[k] == w.tasks[k + 1];
    }
    RanKeepsOrphan(w1, w.tasks[0].action, w.tasks[0].value, fuel, d);
  }

  /** A `then` call leaves an orphaned deferred orphaned: the closure it
      queues or posts settles the new deferred it creates. */
  lemma {:induction false} ThenKeepsOrphan(w: World, p: nat, f: Value -> Outcome, fuel: nat, d: nat)
    requires Orphaned(w, d)
    ensures Orphaned(DoneThen(w, p, f, fuel).0, d)
    decreases fuel
  {
    var w1 := Allocated(w, Unresolved());
    forall i | 0 <= i < |w1.bases|
      ensures QueueAvoids(w1.bases[i], d)
    {
      if i < |w.bases| {
        assert QueueAvoids(w.bases[i], d);
      }
    }
    if fuel > 0 && p < |w.bases| {
      match w.bases[p]
      case DeferredBase(q, Some(t)) =>
        ThenKeepsOrphan(w, t, f, fuel - 1, d);
      case DeferredBase(q, None) =>
        var r := DoneThen(w, p, f, fuel).0;
        forall i | 0 <= i < |r.bases|
          ensures QueueAvoids(r.bases[i], d)
        {
          assert QueueAvoids(w1.bases[i], d);
        }
      case FulfilledBase(v) =>
      case RejectedBase(_) =>
    }
  }

  /** `then` on a rejected promise returns an orphaned deferred: its
      promise never settles. */
  lemma ThenOnRejectedNeverSettles(w: World, p: nat, f: Value -> Outcome, fuel: nat)
    requires fuel > 0 && p < |w.bases| && w.bases[p].RejectedBase? && InRange(w)
    ensures Orphaned(DoneThen(w, p, f, fuel).0, DoneThen(w, p, f, fuel).1)
  {
    var d := |w.bases|;
    var r := Allocated(w, Unresolved());
    assert DoneThen(w, p, f, fuel) == (r, d);
    forall i | 0 <= i < |r.bases|
      ensures QueueAvoids(r.bases[i], d)
    {
      if i < |w.bases| && w.bases[i].DeferredBase? {
        forall k | 0 <= k < |w.bases[i].queue|
          ensures !Aims(w.bases[i].queue[k], d)
        {
        }
      }
    }
  }
}
