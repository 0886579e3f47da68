/** `Detail::then` and the promise factories of the template engine
    (include/qpromise/private/qpromiseimpl.h) as functions of the store, with
    the well-formedness every operation keeps. */
module TemplateThen {
  import opened Payload
  import opened TemplateLayout
  import opened TemplateDelivery
  import opened TemplateOwnership

  /** What `then` hands back: the address of the new promise's `Detail`, or
      the error a handler threw while `then` ran it, which `then` does not
      catch. */
  datatype ThenResult = Returned(promise: nat) | Threw(error: Exception)

  /** A cell of a well-formed store: a list of at most two nodes, each
      pointing at an existing cell, and a settled cell holds its value. */
  ghost predicate WellFormed(c: Cell, n: nat)
  {
    && |c.chain| <= 2
    && (forall k :: 0 <= k < |c.chain| ==> Target(c.chain[k]) < n)
    && Consistent(c)
  }

  ghost predicate ValidStore(s: Store)
  {
    forall i :: 0 <= i < |s.cells| ==> WellFormed(s.cells[i], |s.cells|)
  }

  /** A cell left behind by `qpromise::fulfill()`, `fulfill(v)` or
      `reject(e)`: the factory's `QDeferred` is gone, its promise holds it. */
  function Standalone(c: Cell): Cell
  {
    c.(state := c.state.(hasDeferred := false, hasPromise := true))
  }

  /** The store with one more cell at address `|s.cells|`. */
  function Appended(s: Store, c: Cell): (r: Store)
    ensures |r.cells| == |s.cells| + 1 && r.cells[|s.cells|] == c
    ensures forall i :: 0 <= i < |s.cells| ==> r.cells[i] == s.cells[i]
    ensures r.trace == s.trace && r.deleted == s.deleted
  {
    s.(cells := s.cells + [c])
  }

  /** `Detail::promise`: a promise now holds the cell. */
  function Attached(s: Store, id: nat): (r: Store)
    requires id < |s.cells|
    ensures |r.cells| == |s.cells| && r.trace == s.trace && r.deleted == s.deleted
    ensures r.cells[id].state.hasPromise
    ensures forall i :: 0 <= i < |s.cells| && i != id ==> r.cells[i] == s.cells[i]
  {
    var c := s.cells[id];
    s.(cells := s.cells[id := c.(state := c.state.(hasPromise := true))])
  }

  /** `qpromise::fulfill()`: a promise that never settles. */
  function FulfilledNothing(s: Store): Store
  {
    Appended(s, Standalone(NewCell()))
  }

  /** `qpromise::fulfill(v)`: a promise already fulfilled with `v`. */
  function FulfilledWith(s: Store, v: Value): Store
  {
    Appended(s, Standalone(Fulfil(NewCell(), v)))
  }

  /** `qpromise::reject(e)`: a promise already rejected with `e`. */
  function RejectedWith(s: Store, e: Exception): Store
  {
    Appended(s, Standalone(Refuse(NewCell(), e)))
  }

  /** `Detail::then`. On a fulfilled cell the fulfilment handler runs at
      once: a void result goes through `qpromise::fulfill()`, any other
      through `qpromise::fulfill(v)`. On a rejected cell the rejection
      handler runs at once and its result is passed on the same way; without
      a handler the error is rethrown. On a pending cell a `Chain` whose
      downstream is a new `Detail` is installed, and its promise returned.
      A handler's error escapes `then` and nothing is added. */
  function ThenStep(s: Store, id: nat, onFulfilled: Value -> Outcome,
                    onRejected: Option<Exception -> Outcome>,
                    onProgress: Option<Value -> Outcome>): (Store, ThenResult)
    requires id < |s.cells| && Consistent(s.cells[id])
  {
    var c := s.cells[id];
    var d := |s.cells|;
    if c.state.isFulfilled then
      match onFulfilled(Stored(c))
      case Ok(Void) => (FulfilledNothing(s), Returned(d))
      case Ok(w) => (FulfilledWith(s, w), Returned(d))
      case Err(e) => (s, Threw(e))
    else if c.state.isRejected then
      match RejectWrap(onRejected)(c.exception.value)
      case Ok(Void) => (FulfilledNothing(s), Returned(d))
      case Ok(w) => (FulfilledWith(s, w), Returned(d))
      case Err(e) => (s, Threw(e))
    else
      var s1 := Installed(s, id, Chain(d, onFulfilled, onRejected, onProgress));
      (Attached(Appended(s1, NewCell()), d), Returned(d))
  }

  /** The factories leave one new cell that only its promise holds:
      `fulfill()` a pending one, `fulfill(v)` one fulfilled with `v`, and
      `reject(e)` one rejected with `e`; nothing else changes. */
  lemma FactoriesSettle(s: Store, v: Value, e: Exception)
    ensures var r := FulfilledNothing(s);
            var c := r.cells[|s.cells|];
            && |r.cells| == |s.cells| + 1 && r.cells[..|s.cells|] == s.cells
            && !c.state.isFulfilled && !c.state.isRejected && c.chain == []
            && !c.state.hasDeferred && c.state.hasPromise && !c.state.hasParent
    ensures var r := FulfilledWith(s, v);
            var c := r.cells[|s.cells|];
            && |r.cells| == |s.cells| + 1 && r.cells[..|s.cells|] == s.cells
            && c.state.isFulfilled && !c.state.isRejected && Stored(c) == v && c.chain == []
            && !c.state.hasDeferred && c.state.hasPromise && !c.state.hasParent
    ensures var r := RejectedWith(s, e);
            var c := r.cells[|s.cells|];
            && |r.cells| == |s.cells| + 1 && r.cells[..|s.cells|] == s.cells
            && !c.state.isFulfilled && c.state.isRejected && c.exception == Some(e) && c.chain == []
            && !c.state.hasDeferred && c.state.hasPromise && !c.state.hasParent
  {
    assert FulfilledNothing(s).cells[..|s.cells|] == s.cells;
    assert FulfilledWith(s, v).cells[..|s.cells|] == s.cells;
    assert RejectedWith(s, e).cells[..|s.cells|] == s.cells;
  }

  /** `Detail::resolve(QPromise&&)` on cell `id` with the promise of cell
      `other`: a `ChildChain` back to `id` is installed on `other`, and `id`
      is marked as held by a parent. */
  function Adopted(s: Store, id: nat, other: nat): (r: Store)
    requires id < |s.cells| && other < |s.cells|
  {
    var s1 := Installed(s, other, ChildChain(id));
    var c := s1.cells[id];
    s1.(cells := s1.cells[id := c.(state := c.state.(hasParent := true))])
  }

  lemma GrowsKeepsValid(s: Store, r: Store)
    requires ValidStore(s) && Grows(s, r)
    ensures ValidStore(r)
  {
    forall i | 0 <= i < |r.cells|
      ensures WellFormed(r.cells[i], |r.cells|)
    {
      assert Evolves(s.cells[i], r.cells[i]);
    }
  }

  lemma ShrinksKeepsValid(s: Store, r: Store)
    requires ValidStore(s) && Shrinks(s, r)
    ensures ValidStore(r)
  {
    forall i | 0 <= i < |r.cells|
      ensures WellFormed(r.cells[i], |r.cells|)
    {
      assert Trimmed(s.cells[i], r.cells[i]);
    }
  }

  /** Installing a node whose target exists keeps the store well formed:
      the list never grows beyond two nodes. */
  lemma InstalledKeepsValid(s: Store, at: nat, n: Node)
    requires ValidStore(s) && at < |s.cells| && Target(n) < |s.cells|
    ensures ValidStore(Installed(s, at, n))
  {
    var r := Installed(s, at, n);
    forall i | 0 <= i < |r.cells|
      ensures WellFormed(r.cells[i], |r.cells|)
    {
      if i != at {
        assert Trimmed(s.cells[i], r.cells[i]);
      } else {
        var c := s.cells[at];
        var s1 := s.(cells := s.cells[at := c.(chain := Linked(c.chain, n))]);
        if |c.chain| > 1 {
          assert Trimmed(s1.cells[at], r.cells[at]);
        }
      }
    }
  }

  /** `then` on a pending `Detail` installs one `Chain` node as the head, or
      in place of the head's successor, and returns a new pending `Detail`
      owned by that node and held by the returned promise. */
  lemma ThenOnPending(s: Store, id: nat, onFulfilled: Value -> Outcome,
                      onRejected: Option<Exception -> Outcome>,
                      onProgress: Option<Value -> Outcome>)
    requires id < |s.cells| && Consistent(s.cells[id])
    requires !s.cells[id].state.isFulfilled && !s.cells[id].state.isRejected
    ensures var (r, p) := ThenStep(s, id, onFulfilled, onRejected, onProgress);
            var d := |s.cells|;
            && p == Returned(d)
            && |r.cells| == d + 1
            && r.trace == s.trace
            && r.cells[id].chain == Linked(s.cells[id].chain, Chain(d, onFulfilled, onRejected, onProgress))
            && r.cells[d] == Cell(State(false, false, true, true, false), None, None, [])
  {
  }

  /** `then` on a fulfilled `Detail` installs nothing: the handler runs on
      the stored value, and the returned promise is fulfilled with a
      non-void result, left pending by a void one, and a thrown error
      leaves the store as it was. */
  lemma ThenOnFulfilled(s: Store, id: nat, onFulfilled: Value -> Outcome,
                        onRejected: Option<Exception -> Outcome>,
                        onProgress: Option<Value -> Outcome>)
    requires id < |s.cells| && Consistent(s.cells[id]) && s.cells[id].state.isFulfilled
    ensures var (r, p) := ThenStep(s, id, onFulfilled, onRejected, onProgress);
            var o := onFulfilled(Stored(s.cells[id]));
            var d := |s.cells|;
            && (o.Err? <==> p.Threw?)
            && (o.Err? ==> p.error == o.error && r == s)
            && (o.Ok? ==> p == Returned(d) && |r.cells| == d + 1 && r.trace == s.trace
                          && r.cells[..d] == s.cells && r.cells[d].chain == []
                          && !r.cells[d].state.hasDeferred && r.cells[d].state.hasPromise
                          && !r.cells[d].state.isRejected
                          && (r.cells[d].state.isFulfilled <==> o.value != Void)
                          && (o.value != Void ==> r.cells[d].reason == Some(o.value)))
  {
    var d := |s.cells|;
    var (r, p) := ThenStep(s, id, onFulfilled, onRejected, onProgress);
    if onFulfilled(Stored(s.cells[id])).Ok? {
      assert r.cells[..d] == s.cells;
    }
  }

  /** `then` on a rejected `Detail` installs nothing: the rejection handler
      (or a rethrow when there is none) runs on the stored error. A value it
      returns fulfils the returned promise; a void result goes through
      `qpromise::fulfill()`, as on a fulfilled cell, and leaves it
      pending. */
  lemma ThenOnRejected(s: Store, id: nat, onFulfilled: Value -> Outcome,
                       onRejected: Option<Exception -> Outcome>,
                       onProgress: Option<Value -> Outcome>)
    requires id < |s.cells| && Consistent(s.cells[id])
    requires !s.cells[id].state.isFulfilled && s.cells[id].state.isRejected
    ensures var (r, p) := ThenStep(s, id, onFulfilled, onRejected, onProgress);
            var e := s.cells[id].exception.value;
            var d := |s.cells|;
            && (onRejected.None? ==> p == Threw(e) && r == s)
            && (onRejected.Some? && onRejected.value(e).Err? ==> p == Threw(onRejected.value(e).error) && r == s)
            && (onRejected.Some? && onRejected.value(e).Ok? ==>
                  var w := onRejected.value(e).value;
                  && p == Returned(d) && |r.cells| == d + 1 && r.trace == s.trace
                  && r.cells[..d] == s.cells && r.cells[d].chain == []
                  && r.cells[d].state == State(w != Void, false, false, true, false)
                  && (w != Void ==> Stored(r.cells[d]) == w))
  {
    var d := |s.cells|;
    var (r, p) := ThenStep(s, id, onFulfilled, onRejected, onProgress);
    if onRejected.Some? && onRejected.value(s.cells[id].exception.value).Ok? {
      assert r.cells[..d] == s.cells;
    }
  }

  /** `then` keeps the store well formed. */
  lemma ThenKeepsValid(s: Store, id: nat, onFulfilled: Value -> Outcome,
                       onRejected: Option<Exception -> Outcome>,
                       onProgress: Option<Value -> Outcome>)
    requires ValidStore(s) && id < |s.cells|
    ensures ValidStore(ThenStep(s, id, onFulfilled, onRejected, onProgress).0)
  {
    var c := s.cells[id];
    var d := |s.cells|;
    var (r, p) := ThenStep(s, id, onFulfilled, onRejected, onProgress);
    if !c.state.isFulfilled && !c.state.isRejected {
      var n := Chain(d, onFulfilled, onRejected, onProgress);
      var s1 := Installed(s, id, n);
      // the new node points at the cell appended next
      forall i | 0 <= i < |r.cells|
        ensures WellFormed(r.cells[i], |r.cells|)
      {
        if i < d && i != id {
          assert Trimmed(s.cells[i], s1.cells[i]);
        }
      }
    } else {
      forall i | 0 <= i < |r.cells|
        ensures WellFormed(r.cells[i], |r.cells|)
      {
      }
    }
  }

  /** Adoption keeps the store well formed. */
  lemma AdoptedKeepsValid(s: Store, id: nat, other: nat)
    requires ValidStore(s) && id < |s.cells| && other < |s.cells|
    ensures ValidStore(Adopted(s, id, other))
  {
    InstalledKeepsValid(s, other, ChildChain(id));
  }

  /** Adoption hangs a forwarder on the adopted cell and marks the adopting
      cell as having a parent; it calls no handler and settles no cell. */
  lemma AdoptionDoesNotSettle(s: Store, id: nat, other: nat)
    requires id < |s.cells| && other < |s.cells| && id != other
    ensures var r := Adopted(s, id, other);
            && r.trace == s.trace
            && r.cells[other].chain == Linked(s.cells[other].chain, ChildChain(id))
            && r.cells[id].state == s.cells[id].state.(hasParent := true)
            && r.cells[id].reason == s.cells[id].reason
            && r.cells[id].exception == s.cells[id].exception
            && forall i :: 0 <= i < |s.cells| ==>
                 && r.cells[i].state.isFulfilled == s.cells[i].state.isFulfilled
                 && r.cells[i].state.isRejected == s.cells[i].state.isRejected
  {
    var s1 := Installed(s, other, ChildChain(id));
    assert Trimmed(s.cells[id], s1.cells[id]);
  }

  /** Three `then` calls on one pending `Detail`: the list keeps the first
      and the last node, and the second node's downstream `Detail` was
      deleted when the third replaced it. */
  lemma ThirdThenReplacesSecond(s: Store, id: nat, f1: Value -> Outcome, f2: Value -> Outcome,
                                f3: Value -> Outcome)
    requires id < |s.cells| && s.cells[id].chain == [] && Consistent(s.cells[id])
    requires !s.cells[id].state.isFulfilled && !s.cells[id].state.isRejected
    ensures var (s1, p1) := ThenStep(s, id, f1, None, None);
            var (s2, p2) := ThenStep(s1, id, f2, None, None);
            var (s3, p3) := ThenStep(s2, id, f3, None, None);
            && p1 == Returned(|s.cells|) && p2 == Returned(|s.cells| + 1) && p3 == Returned(|s.cells| + 2)
            && s3.cells[id].chain == [Chain(|s.cells|, f1, None, None), Chain(|s.cells| + 2, f3, None, None)]
            && |s.cells| + 1 in s3.deleted
  {
    var d := |s.cells|;
    ThenOnPending(s, id, f1, None, None);
    var (s1, p1) := ThenStep(s, id, f1, None, None);
    assert s1.cells[id].state == s.cells[id].state && s1.cells[id].reason == s.cells[id].reason
        && s1.cells[id].exception == s.cells[id].exception;
    ThenOnPending(s1, id, f2, None, None);
    var (s2, p2) := ThenStep(s1, id, f2, None, None);
    ThenOnPending(s2, id, f3, None, None);
  }
}
