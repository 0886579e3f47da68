/** What the Qt engine promises, proved about the functions that specify
    it (src/qpromise.cpp, src/qpromise.h, src/qpromiseimpl.h). */
module QtProperties {
  import opened Payload
  import opened QtLayout
  import opened QtSpec

  /** Once a deferred holds a promise, `resolve` changes nothing, whatever
      it is given; on a fulfilled or rejected promise it changes nothing
      either. */
  lemma ResolveIsWriteOnce(w: World, p: nat, t: nat, fuel: nat)
    requires p < |w.bases|
    requires !w.bases[p].DeferredBase? || w.bases[p].resolved.Some?
    ensures ResolvedWith(w, p, t, fuel) == w
  {
  }

  /** The first of two settlements of a deferred wins: after `resolve(v)`
      (or `reject`) a second `resolve` or `reject` only creates its object
      and changes nothing else. */
  lemma FirstSettlementWins(w: World, p: nat, b1: Base, b2: Base, fuel: nat)
    requires p < |w.bases| && w.bases[p].DeferredBase? && w.bases[p].resolved.None?
    requires !b1.DeferredBase? && !b2.DeferredBase?
    ensures var r1 := SettledWith(w, p, b1, fuel);
            var r2 := SettledWith(r1, p, b2, fuel);
            && r1.bases[p] == DeferredBase(w.bases[p].queue, Some(|w.bases|))
            && r1.bases[|w.bases|] == b1
            && r2 == r1.(bases := r1.bases + [b2])
  {
    var w1 := Allocated(w, b1);
    var u := w1.(bases := w1.bases[p := DeferredBase(w.bases[p].queue, Some(|w.bases|))]);
    var r1 := SettledWith(w, p, b1, fuel);
    assert r1 == ThenActed(u, |w.bases|, Drain(p), fuel);
    assert Succeeds(u.bases[p], r1.bases[p]);
    ResolveIsWriteOnce(Allocated(r1, b2), p, |r1.bases|, fuel);
  }

  /** `then` and `thenAction` on an unresolved deferred only append a
      closure to its queue: no callback runs and no task is posted. */
  lemma ThenOnUnresolvedQueues(w: World, p: nat, f: Value -> Outcome, a: Action, fuel: nat)
    requires fuel > 0 && p < |w.bases| && w.bases[p].DeferredBase? && w.bases[p].resolved.None?
    ensures ThenActed(w, p, a, fuel) == w.(bases := w.bases[p := DeferredBase(w.bases[p].queue + [a], None)])
    ensures var (r, d) := DoneThen(w, p, f, fuel);
            && d == |w.bases|
            && r.bases == w.bases[p := DeferredBase(w.bases[p].queue + [Settle(d, f)], None)] + [Unresolved()]
            && r.tasks == w.tasks && r.log == w.log
  {
  }

  /** After resolution `then` and `thenAction` go to the adopted promise. */
  lemma ThenForwardsAfterResolution(w: World, p: nat, f: Value -> Outcome, a: Action, fuel: nat)
    requires fuel > 0 && p < |w.bases| && w.bases[p].DeferredBase? && w.bases[p].resolved.Some?
    ensures DoneThen(w, p, f, fuel) == DoneThen(w, w.bases[p].resolved.value, f, fuel - 1)
    ensures ThenActed(w, p, a, fuel) == ThenActed(w, w.bases[p].resolved.value, a, fuel - 1)
  {
  }

  /** `then` and `thenAction` on a fulfilled promise do not call the
      callback: they post one task that will call it with the promise's
      value (and, for `then`, settle the returned deferred). */
  lemma ThenOnFulfilledPostsTask(w: World, p: nat, f: Value -> Outcome, a: Action, fuel: nat)
    requires fuel > 0 && p < |w.bases| && w.bases[p].FulfilledBase?
    ensures ThenActed(w, p, a, fuel) == w.(tasks := w.tasks + [Task(a, w.bases[p].value)])
    ensures var (r, d) := DoneThen(w, p, f, fuel);
            && r.log == w.log
            && r.tasks == w.tasks + [Task(Settle(d, f), w.bases[p].value)]
            && r.bases == w.bases + [Unresolved()]
  {
  }

  /** `then` and `thenAction` on a rejected promise neither call the
      callback nor post or queue anything: the deferred `then` returns is
      new and nothing refers to it. */
  lemma ThenOnRejectedDoesNothing(w: World, p: nat, f: Value -> Outcome, a: Action, fuel: nat)
    requires fuel > 0 && p < |w.bases| && w.bases[p].RejectedBase?
    ensures ThenActed(w, p, a, fuel) == w
    ensures DoneThen(w, p, f, fuel) == (Allocated(w, Unresolved()), |w.bases|)
  {
  }

  /** The calls a queue of `Settle` closures makes with value `v`, in
      queue order. */
  function Invocations(acts: seq<Action>, v: Value): seq<Invocation>
    requires forall k :: 0 <= k < |acts| ==> acts[k].Settle?
  {
    if acts == [] then [] else [Invocation(acts[0].deferred, v)] + Invocations(acts[1..], v)
  }

  /** The `k`-th call of a queue is the call of its `k`-th closure. */
  lemma {:induction false} InvocationsMatch(acts: seq<Action>, v: Value)
    requires forall k :: 0 <= k < |acts| ==> acts[k].Settle?
    ensures |Invocations(acts, v)| == |acts|
    ensures forall k :: 0 <= k < |acts| ==> Invocations(acts, v)[k] == Invocation(acts[k].deferred, v)
  {
    if acts != [] {
      InvocationsMatch(acts[1..], v);
    }
  }

  /** The calls of a queue are the first closure's call, then the rest's. */
  lemma InvocationsCons(acts: seq<Action>, v: Value)
    requires acts != [] && forall k :: 0 <= k < |acts| ==> acts[k].Settle?
    ensures Invocations(acts, v) == [Invocation(acts[0].deferred, v)] + Invocations(acts[1..], v)
  {
  }

  /** Draining a queue calls the queued callbacks in the order the `then`
      calls queued them, each once with the delivered value, when none of
      them throws. */
  lemma {:induction false} DrainRunsInOrder(w: World, acts: seq<Action>, v: Value, fuel: nat)
    requires forall k :: 0 <= k < |acts| ==> acts[k].Settle? && acts[k].fulfilled(v).Ok?
    ensures RanAll(w, acts, v, fuel).1 == None
    ensures RanAll(w, acts, v, fuel).0.log == w.log + Invocations(acts, v)
    decreases |acts|
  {
    if acts != [] {
      FirstReturns(w, acts, v, fuel);
      var w1 := Ran(w, acts[0], v, fuel).0;
      DrainRunsInOrder(w1, acts[1..], v, fuel);
      InvocationsCons(acts, v);
    }
  }

  /** A drain whose first closure throws stops there. */
  lemma FirstThrows(w: World, acts: seq<Action>, v: Value, fuel: nat)
    requires acts != [] && acts[0].Settle? && acts[0].fulfilled(v).Err?
    ensures RanAll(w, acts, v, fuel) == (w.(log := w.log + [Invocation(acts[0].deferred, v)]), Some(acts[0].fulfilled(v).error))
  {
  }

  /** A drain whose first closure returns goes on with the rest. */
  lemma FirstReturns(w: World, acts: seq<Action>, v: Value, fuel: nat)
    requires acts != [] && acts[0].Settle? && acts[0].fulfilled(v).Ok?
    ensures Ran(w, acts[0], v, fuel).0.log == w.log + [Invocation(acts[0].deferred, v)]
    ensures RanAll(w, acts, v, fuel) == RanAll(Ran(w, acts[0], v, fuel).0, acts[1..], v, fuel)
  {
  }

  /** The drain up to and including the first closure that throws, at
      index `j`. */
  lemma {:induction false} DrainStopsAt(w: World, acts: seq<Action>, j: nat, v: Value, fuel: nat)
    requires j < |acts|
    requires forall k :: 0 <= k < j ==> acts[k].Settle? && acts[k].fulfilled(v).Ok?
    requires acts[j].Settle? && acts[j].fulfilled(v).Err?
    ensures RanAll(w, acts, v, fuel).1 == Some(acts[j].fulfilled(v).error)
    ensures RanAll(w, acts, v, fuel).0.log == w.log + Invocations(acts[..j], v) + [Invocation(acts[j].deferred, v)]
    decreases j
  {
    if j == 0 {
      FirstThrows(w, acts, v, fuel);
    } else {
      FirstReturns(w, acts, v, fuel);
      var w1 := Ran(w, acts[0], v, fuel).0;
      DrainStopsAt(w1, acts[1..], j - 1, v, fuel);
      assert acts[1..][..j - 1] == acts[..j][1..];
      InvocationsCons(acts[..j], v);
    }
  }

  /** A callback that throws ends the drain: the callbacks queued after it
      are not called, and its error escapes. */
  lemma DrainStopsAtFirstError(w: World, ok: seq<Action>, bad: Action, rest: seq<Action>,
                               v: Value, fuel: nat)
    requires forall k :: 0 <= k < |ok| ==> ok[k].Settle? && ok[k].fulfilled(v).Ok?
    requires bad.Settle? && bad.fulfilled(v).Err?
    ensures RanAll(w, ok + [bad] + rest, v, fuel).1 == Some(bad.fulfilled(v).error)
    ensures RanAll(w, ok + [bad] + rest, v, fuel).0.log == w.log + Invocations(ok, v) + [Invocation(bad.deferred, v)]
  {
    var acts := ok + [bad] + rest;
    assert acts[..|ok|] == ok;
    DrainStopsAt(w, acts, |ok|, v, fuel);
  }

  /** Where the drain stands in the log when it reaches each closure: the
      log length before that closure runs, for every closure that runs, up
      to and including the first one whose error escapes. */
  ghost function DrainStarts(w: World, acts: seq<Action>, v: Value, fuel: nat): seq<nat>
    decreases |acts|
  {
    if acts == [] then []
    else
      var (w1, x) := Ran(w, acts[0], v, fuel);
      if x.Some? then [|w.log|] else [|w.log|] + DrainStarts(w1, acts[1..], v, fuel)
  }

  /** Running a closure only appends to the log, and a `Settle` closure
      first records its own call. */
  lemma RanLogs(w: World, a: Action, v: Value, fuel: nat)
    ensures var r := Ran(w, a, v, fuel).0;
            && w.log <= r.log
            && (a.Settle? ==> |w.log| < |r.log| && r.log[|w.log|] == Invocation(a.deferred, v))
  {
    if a.Settle? {
      var w1 := w.(log := w.log + [Invocation(a.deferred, v)]);
      assert w1.log <= Ran(w, a, v, fuel).0.log;
    }
  }

  /** The drain of any queue, adoption forwarders included, runs its
      closures in queue order: closure `k` starts at position
      `DrainStarts(..)[k]` of the final log, the starts never decrease
      (a forwarder's nested drain included), and a `Settle` closure's call
      with `v` is recorded at its start, strictly before the start of every
      later closure. */
  lemma {:induction false} DrainOrder(w: World, acts: seq<Action>, v: Value, fuel: nat)
    decreases |acts|
    ensures var p := DrainStarts(w, acts, v, fuel);
            var r := RanAll(w, acts, v, fuel).0;
            && |p| <= |acts|
            && (forall k :: 0 <= k < |p| ==> |w.log| <= p[k] <= |r.log|)
            && (forall k :: 0 <= k < |p| && acts[k].Settle? ==>
                  p[k] < |r.log| && r.log[p[k]] == Invocation(acts[k].deferred, v))
            && (forall j, k :: 0 <= j < k < |p| ==> p[j] <= p[k])
            && (forall j, k :: 0 <= j < k < |p| && acts[j].Settle? ==> p[j] < p[k])
  {
    if acts != [] {
      var a, rest := acts[0], acts[1..];
      var (w1, x) := Ran(w, a, v, fuel);
      var p := DrainStarts(w, acts, v, fuel);
      var r := RanAll(w, acts, v, fuel).0;
      RanLogs(w, a, v, fuel);
      if x.None? {
        DrainOrder(w1, rest, v, fuel);
        var p1 := DrainStarts(w1, rest, v, fuel);
        assert p == [|w.log|] + p1;
        assert r == RanAll(w1, rest, v, fuel).0;
        assert w1.log <= r.log;
        forall k | 1 <= k < |p|
          ensures p[k] == p1[k - 1] && acts[k] == rest[k - 1]
        {
        }
      }
    }
  }

  /** The drain of any queue ends at the first closure whose error
      escapes: the queue after it has no effect, every `Settle` closure
      before it returned normally, and a `Settle` closure that ends it threw
      the escaping error. Without an escaping error every closure runs. */
  lemma {:induction false} DrainStopsAtEscape(w: World, acts: seq<Action>, v: Value, fuel: nat)
    decreases |acts|
    ensures var p := DrainStarts(w, acts, v, fuel);
            var (r, x) := RanAll(w, acts, v, fuel);
            && |p| <= |acts|
            && RanAll(w, acts[..|p|], v, fuel) == (r, x)
            && (x.None? ==> |p| == |acts|)
            && (x.Some? ==> 1 <= |p|)
            && (forall k :: 0 <= k < |p| && (k < |p| - 1 || x.None?) && acts[k].Settle? ==>
                  acts[k].fulfilled(v).Ok?)
            && (x.Some? && 1 <= |p| && acts[|p| - 1].Settle? ==>
                  acts[|p| - 1].fulfilled(v) == Err(x.value))
  {
    if acts != [] {
      var a, rest := acts[0], acts[1..];
      var (w1, x1) := Ran(w, a, v, fuel);
      var p := DrainStarts(w, acts, v, fuel);
      if x1.Some? {
        assert acts[..|p|] == [a];
        assert RanAll(w, [a], v, fuel) == (w1, x1);
      } else {
        DrainStopsAtEscape(w1, rest, v, fuel);
        var p1 := DrainStarts(w1, rest, v, fuel);
        assert p == [|w.log|] + p1;
        var pre := acts[..|p|];
        assert pre[0] == a && pre[1..] == rest[..|p1|];
        assert RanAll(w, pre, v, fuel) == RanAll(w1, rest[..|p1|], v, fuel);
        forall k | 1 <= k < |p|
          ensures acts[k] == rest[k - 1]
        {
        }
      }
    }
  }

  /** `Q::fulfill(x).then().then(g)`: the first turn of the event loop calls
      the propagating callback with `x`, resolves the first returned
      deferred with a new promise fulfilled with `x` and posts the drain of
      its queue; the second turn calls `g` with `x`. */
  lemma PropagatesThroughThenWithNoCallback(w: World, p: nat, x: Value, g: Value -> Outcome, fuel: nat)
    requires fuel > 0 && p < |w.bases| && w.bases[p] == FulfilledBase(x) && w.tasks == []
    ensures var (r1, d1) := DoneThen(w, p, Wrapped(NoCallback), fuel);
            var (r2, d2) := DoneThen(r1, d1, g, fuel);
            var (s1, x1) := Stepped(r2, fuel);
            && x1 == None
            && s1.bases[d1] == DeferredBase([Settle(d2, g)], Some(|r2.bases|))
            && s1.bases[|r2.bases|] == FulfilledBase(x)
            && s1.tasks == [Task(Drain(d1), x)]
            && Stepped(s1, fuel).0.log == w.log + [Invocation(d1, x), Invocation(d2, x)]
            && Stepped(s1, fuel).1 == (if g(x).Err? then Some(g(x).error) else None)
  {
    var (r1, d1) := DoneThen(w, p, Wrapped(NoCallback), fuel);
    assert r1.tasks == [Task(Settle(d1, Wrapped(NoCallback)), x)];
    var (r2, d2) := DoneThen(r1, d1, g, fuel);
    assert r2.bases[d1] == DeferredBase([Settle(d2, g)], None);
    assert r2.tasks == r1.tasks && r2.log == w.log;
    var u := r2.(tasks := []).(log := w.log + [Invocation(d1, x)]);
    assert Wrapped(NoCallback)(x) == Ok(x);
    var t := |r2.bases|;
    var u1 := Allocated(u, FulfilledBase(x));
    var u2 := u1.(bases := u1.bases[d1 := DeferredBase([Settle(d2, g)], Some(t))]);
    assert ResolvedWith(u1, d1, t, fuel) == ThenActed(u2, t, Drain(d1), fuel);
    var (s1, x1) := Stepped(r2, fuel);
    assert s1 == u2.(tasks := [Task(Drain(d1), x)]);
    var v1 := s1.(tasks := []);
    assert Stepped(s1, fuel) == Ran(v1, Drain(d1), x, fuel);
    assert Ran(v1, Drain(d1), x, fuel) == RanAll(v1, [Settle(d2, g)], x, fuel - 1);
    var (v2, x2) := Ran(v1, Settle(d2, g), x, fuel - 1);
    assert v2.log == w.log + [Invocation(d1, x), Invocation(d2, x)];
    assert x2 == (if g(x).Err? then Some(g(x).error) else None);
    assert [Settle(d2, g)][1..] == [];
    assert RanAll(v1, [Settle(d2, g)], x, fuel - 1) == (v2, x2);
  }

  /** `a.resolve(b.promise()); b.resolve(v); a.promise().then(f)`: the
      resolution of `b` is forwarded to `a`, so `then` on `a` posts the call
      of `f` with `v`, after the drain of `b`'s queue. */
  lemma ResolutionIsForwarded(w: World, f: Value -> Outcome, v: Value, fuel: nat)
    requires fuel >= 3
    ensures var a := |w.bases|;
            var w1 := Allocated(Allocated(w, Unresolved()), Unresolved());
            var w2 := ResolvedWith(w1, a, a + 1, fuel);
            var w3 := SettledWith(w2, a + 1, FulfilledBase(v), fuel);
            var (r, d) := DoneThen(w3, a, f, fuel);
            && d == a + 3
            && r.tasks == w.tasks + [Task(Drain(a + 1), v), Task(Settle(d, f), v)]
            && r.log == w.log
  {
    var a := |w.bases|;
    var w1 := Allocated(Allocated(w, Unresolved()), Unresolved());
    var w1a := w1.(bases := w1.bases[a := DeferredBase([], Some(a + 1))]);
    assert w1.bases[a] == Unresolved() && w1a.bases[a + 1] == Unresolved();
    var w2 := ResolvedWith(w1, a, a + 1, fuel);
    assert w2 == ThenActed(w1a, a + 1, Drain(a), fuel);
    assert [] + [Drain(a)] == [Drain(a)];
    assert ThenActed(w1a, a + 1, Drain(a), fuel) == w1a.(bases := w1a.bases[a + 1 := DeferredBase([] + [Drain(a)], None)]);
    assert w2.bases == w1.bases[a := DeferredBase([], Some(a + 1))][a + 1 := DeferredBase([Drain(a)], None)];
    var w3 := SettledWith(w2, a + 1, FulfilledBase(v), fuel);
    assert w3.bases[a] == DeferredBase([], Some(a + 1));
    assert w3.bases[a + 1] == DeferredBase([Drain(a)], Some(a + 2));
    assert w3.bases[a + 2] == FulfilledBase(v);
    assert w3.tasks == w.tasks + [Task(Drain(a + 1), v)];
    assert DoneThen(w3, a, f, fuel) == DoneThen(w3, a + 2, f, fuel - 2);
  }
}
