# qpromise in Dafny

A model of the two promise engines of qpromise, a C++ library of deferreds
and promises in the style of Promises/A+, with proofs of what each engine
does.

**The template engine** (`include/qpromise/private/`) is modelled in
`template_*.dfy`.
- A `Detail` cell holds:
  - two settlement bits (`isFulfilled`, `isRejected`);
  - three ownership bits (`hasDeferred`, `hasPromise`, `hasParent`);
  - the stored value and the stored error;
  - a list of `Chain` nodes (one per `then`) and `ChildChain` forwarders (one per adoption).
- The cells live in one arena, the class `TemplateEngine.Details`. A cell's
  address stands for the pointer the `QDeferred`, the `QPromise` and the
  chain nodes hold.
- Delivery is synchronous: `resolve`, `reject` and `notify` run the handlers
  before they return.
- Deletion is recorded in a set of deleted addresses.
- Every method of `Details` is proved equal to a function of the store
  value (`TemplateDelivery`, `TemplateOwnership`, `TemplateThen`). The
  engine's behaviour is proved as lemmas about those functions
  (`TemplateProperties`, `TemplateThen`).

**The Qt engine** (`src/`) is modelled in `qt_*.dfy`.
- A `QDeferredPromise` has a queue of closures and a write-once
  `mResolvedPromise`. `QFulfilledPromise` and `QRejectedPromise` are immutable.
- All of these live in one arena, the class `QtRuntime.Runtime`. A
  `QPromise` or `QDeferred` handle is an address into it, so every handle
  that `QDeferred::promise()` returns shares one object.
- `Q::nextTick` appends to an explicit FIFO of tasks. `RunNext` is one turn
  of the event loop.
- The methods are proved equal to functions of the world value
  (`QtSpec`), and the properties are lemmas about those functions
  (`QtProperties`, `QtOrphans`).
- The class invariant `Runtime.Valid()` says that every posted or queued
  closure settles an object that exists. Every method keeps it
  (`QtInvariant`).

**Shared conventions** (module `Payload`):
- Values are collapsed into one type, whose `Void` case is both the value
  of a `void` promise and the empty `QVariant`.
- Errors are opaque.
- A handler is a total function that returns `Ok(value)` or throws, modelled as `Err(error)`.
- Delivery, forwarding and draining recurse along links that a cycle of
  adoptions can make circular. Each of these recursions takes a `fuel`
  argument, the remaining depth.

**Behaviour modelled as the code has it:**
- Template engine:
  - `then` on a pending `Detail` installs its node as the head's successor. Any earlier successor is replaced and destroyed with its downstream `Detail` (`TemplateThen.ThirdThenReplacesSecond`).
  - `reject` and `notify` reach only the head node.
  - A rejection handler that returns normally leaves the downstream pending.
  - `resolve` and `reject` are not guarded against a second settlement (`TemplateProperties.ResolveThenRejectSetsBothBits`).
  - On a fulfilled `Detail`, `then` with a handler that returns nothing goes through `qpromise::fulfill()`. That function never resolves its deferred, so the returned promise stays pending.
  - Adopting a promise that has already settled never settles the adopter. `addChild` (include/qpromise/private/qpromiseimpl.h:151-156) only installs a forwarder for later deliveries (`TemplateThen.AdoptionDoesNotSettle`). Promises/A+ section 2.3.2 has the adopter take the settled state at once.
- Qt engine:
  - `then` and `thenAction` on a `QRejectedPromise` do nothing, so the promise `then` returns never settles (`QtOrphans.ThenOnRejectedNeverSettles`).
  - A deferred rejected after callbacks were queued drops those callbacks.
  - An error thrown by a callback is not caught. It escapes the task and stops the drain of the queue (`QtProperties.DrainStopsAtEscape`).
  - Every `QPromise::then` overload takes an error callback and discards it unnamed (src/qpromise.h:119, 128 and 140). The model's `Callback` has no error callback, so an errback such as the one in tests/qspec.cpp:57-67 is never called.

**Where the code does not compile as written**, the model follows the evident intent:
- `FulfillFunction<F, R>::cast`, called in `QPromise::then`, is the `wrap` the header defines.
- `mException` is the field `mExceptionPtr`.
- `Detail::then` on a rejected `Detail` passes its `onRejected` argument to line 203 unwrapped (include/qpromise/private/qpromiseimpl.h:47), so a null rejection handler does not compile there. The model applies `RejectFunction::wrap` (include/qpromise/private/qpromise.h:71-86), whose null case rethrows the stored error.
- `::qpromise::fulfill(onRejected(*mException))` does not compile for a rejection handler that returns nothing. The model treats it as the fulfilled branch does: a void result goes through `qpromise::fulfill()`, so the returned promise stays pending.

## Model

| member | source | states |
|---|---|---|
| Payload.Propagate | include/qpromise/private/qpromise.h:40-48 | `makePropagation` returns every input unchanged; `propagate` (lines 374-377) and the Qt engine's `propagateValue` (src/qpromise.cpp:23) are the same identity |
| TemplateLayout.FulfillWrap | include/qpromise/private/qpromise.h:50-69 | a null fulfilment handler becomes the identity, so `then` keeps the input type; a given handler is kept |
| TemplateLayout.RejectWrap | include/qpromise/private/qpromise.h:71-86 | a null rejection handler rethrows the very error it receives; a given handler is kept |
| TemplateDelivery.Resolved | include/qpromise/private/qpromiseimpl.h:219-232 | `resolve` only sets settlement bits, keeps every list and ownership bit, deletes nothing, only appends handler calls, and leaves the cell fulfilled |
| TemplateDelivery.DeliverFulfilment | include/qpromise/private/qpromiseimpl.h:228-231 | the loop over the list changes cells only as a delivery may |
| TemplateDelivery.NodeResolved | include/qpromise/private/qpromiseimpl.h:287-323 | `ChainResolve::resolve` (and `ChildResolveChain::resolve`, lines 348-356) changes cells only as a delivery may |
| TemplateDelivery.Rejected | include/qpromise/private/qpromiseimpl.h:242-247 | `reject` changes cells only as a delivery may and leaves the cell rejected |
| TemplateDelivery.NodeRejected | include/qpromise/private/qpromiseimpl.h:274-285 | `Chain::reject` (and `ChildChain::reject`, lines 358-361) changes cells only as a delivery may |
| TemplateDelivery.Notified | include/qpromise/private/qpromiseimpl.h:249-259 | `notify` changes no cell and deletes nothing; it only appends handler calls |
| TemplateDelivery.NodeNotified | include/qpromise/private/qpromiseimpl.h:325-333 | `ChainNotify::notify` (and `ChildNotifyChain::notify`, lines 363-371) changes no cell |
| TemplateOwnership.Deleted | include/qpromise/private/qpromiseimpl.h:343-345 | `delete` of a live `Detail` marks it deleted and destroys its whole list: every `Chain` node's downstream is deleted and every `ChildChain`'s adopting cell loses `hasParent`; no handler runs and other cells only lose `hasParent` |
| TemplateOwnership.DestroyedNodes | include/qpromise/private/qpromise.h:181-192 | a node owns its successor through `mNext`: destroying a list deletes the downstream of every `Chain` node in it and clears `hasParent` on the adopter of every `ChildChain` in it |
| TemplateOwnership.DestroyedNode | include/qpromise/private/qpromiseimpl.h:340-346 | a `Chain` takes its downstream `Detail` with it; `~ChildChain` clears the adopting cell's `hasParent` and deletes it exactly when neither its deferred nor its promise holds it |
| TemplateOwnership.ReleasedPromise | include/qpromise/private/qpromiseimpl.h:35-41 | `~QPromise` clears `hasPromise`; the cell is deleted exactly when `hasDeferred` and `hasParent` are both clear, and otherwise nothing else changes |
| TemplateOwnership.ReleasedDeferred | include/qpromise/private/qpromiseimpl.h:67-73 | `~QDeferred` clears `hasDeferred`; the cell is deleted exactly when `hasParent` and `hasPromise` are both clear, and otherwise nothing else changes |
| TemplateOwnership.Linked | include/qpromise/private/qpromiseimpl.h:208-209 | the new node becomes the whole list when it was empty, otherwise the head's successor: the head is kept and the list never exceeds two nodes |
| TemplateOwnership.Installed | include/qpromise/private/qpromiseimpl.h:151-156 | installing a node links it as above, runs no handler, only trims other cells, and destroys the successor it replaces with everything that follows it |
| TemplateThen.Appended | include/qpromise/private/qpromiseimpl.h:57-60 | `new Detail` takes the next free address and leaves every other cell as it was |
| TemplateThen.Attached | include/qpromise/private/qpromiseimpl.h:24-28 | wrapping a `Detail` in a `QPromise` sets `hasPromise` and changes no other cell |
| TemplateThen.FactoriesSettle | include/qpromise/private/qpromiseimpl.h:116-134 | `fulfill()` leaves a pending cell, `fulfill(v)` one fulfilled with `v`, `reject(e)` one rejected with `e`; each is held by its promise only |
| TemplateThen.InstalledKeepsValid | include/qpromise/private/qpromiseimpl.h:151-156 | installing a node keeps every list at most two nodes long, pointing at existing cells |
| TemplateThen.ThenOnPending | include/qpromise/private/qpromiseimpl.h:204-211 | `then` on a pending cell installs one `Chain` whose downstream is a new pending cell held by the returned promise; no handler runs |
| TemplateThen.ThenOnFulfilled | include/qpromise/private/qpromiseimpl.h:158-201 | `then` on a fulfilled cell runs the handler at once on the stored value and installs nothing; a void result gives a pending promise, a value a fulfilled one, an error escapes |
| TemplateThen.ThenOnRejected | include/qpromise/private/qpromiseimpl.h:202-203 | `then` on a rejected cell runs the rejection handler at once on the stored error; a returned value fulfils the new promise, a void result leaves it pending as `fulfill()` does, an error escapes, and without a handler the stored error is rethrown |
| TemplateThen.ThenKeepsValid | include/qpromise/private/qpromiseimpl.h:196-212 | `then` keeps the store well formed |
| TemplateThen.AdoptedKeepsValid | include/qpromise/private/qpromiseimpl.h:234-240 | adoption keeps the store well formed |
| TemplateThen.AdoptionDoesNotSettle | include/qpromise/private/qpromiseimpl.h:234-240 | `resolve(promise)` settles no cell and calls no handler; it links a `ChildChain` on the other cell and sets only `hasParent` on this one |
| TemplateThen.ThirdThenReplacesSecond | include/qpromise/private/qpromiseimpl.h:205-210 | after three `then` calls on a pending cell its list holds the first and the third node, and the second node's downstream is deleted |
| TemplateProperties.ResolveLeaf | include/qpromise/private/qpromiseimpl.h:225-232 | resolving a cell with no list sets its bit, stores the value and changes nothing else |
| TemplateProperties.RejectLeaf | include/qpromise/private/qpromiseimpl.h:242-247 | rejecting a cell with no list sets its bit, stores the error and changes nothing else |
| TemplateProperties.ChainFulfilment | include/qpromise/private/qpromiseimpl.h:287-294 | the handler is called once with the value; the downstream is resolved with its result or rejected with its error |
| TemplateProperties.ChainRejection | include/qpromise/private/qpromiseimpl.h:274-285 | without a handler the downstream is rejected with the same error; a throwing handler rejects it with the new error; a returning handler leaves it pending |
| TemplateProperties.DeliverToLeaves | include/qpromise/private/qpromiseimpl.h:228-231 | when every node is a `Chain` with a distinct downstream that has no list, the loop calls every node's handler once, in list order, and settles each downstream by its handler's outcome |
| TemplateProperties.DeliveryOrder | include/qpromise/private/qpromiseimpl.h:231 | over any list, forwarders and downstreams with lists of their own included, each `Chain` node's handler is called with `v`, and before anything the later nodes cause |
| TemplateProperties.ResolveDeliversToEveryNode | include/qpromise/private/qpromiseimpl.h:225-232 | `resolve(v)` fulfils the cell and, whatever its list holds, calls each `Chain` node's handler with `v`, at trace positions that increase along the list |
| TemplateProperties.ResolveSettlesLeafDownstreams | include/qpromise/private/qpromiseimpl.h:225-232 | when every node is a `Chain` with a distinct downstream that has no list, `resolve(v)` appends exactly their calls in order and settles each downstream by its handler's outcome |
| TemplateProperties.RejectReachesHeadOnly | include/qpromise/private/qpromiseimpl.h:242-247 | `reject` reaches the head only: when the head's downstream has no list of its own, the successor's handler does not run and the successor's downstream stays as it was |
| TemplateProperties.NotifyReachesHeadOnly | include/qpromise/private/qpromiseimpl.h:249-259 | `notify` calls the head's progress handler only, changes no cell, and lets its error escape |
| TemplateProperties.ForwarderPassesResolve | include/qpromise/private/qpromiseimpl.h:348-351 | the adoption forwarder resolves the adopting cell with the same value |
| TemplateProperties.ForwarderPassesReject | include/qpromise/private/qpromiseimpl.h:358-361 | the adoption forwarder rejects the adopting cell with the same error |
| TemplateProperties.ForwarderPassesNotify | include/qpromise/private/qpromiseimpl.h:363-366 | the adoption forwarder notifies the adopting cell with the same value |
| TemplateProperties.ChainedHandlersRunInOrder | tests/main.cpp:77-96 | `then(f1).then(f2)` then `resolve(v)`: `f1(v)` runs, then `f2` on its result, during the call, and all three cells end fulfilled |
| TemplateProperties.ResolveThenRejectSetsBothBits | include/qpromise/private/qpromiseimpl.h:219-247 | rejecting a resolved cell is not refused: both bits end set and the head's rejection handler runs after its fulfilment handler |
| TemplateEngine.Details.NewDetail | include/qpromise/private/qpromiseimpl.h:138-141 | a new cell is pending, held by its deferred only, at the next address |
| TemplateEngine.Details.AttachPromise | include/qpromise/private/qpromiseimpl.h:214-217 | `Detail::promise` sets `hasPromise` on the cell |
| TemplateEngine.Details.Delete | include/qpromise/private/qpromiseimpl.h:343-345 | equals `Deleted` of the old store |
| TemplateEngine.Details.DestroyNodes | include/qpromise/private/qpromise.h:186-190 | equals `DestroyedNodes` of the old store |
| TemplateEngine.Details.DestroyNode | include/qpromise/private/qpromiseimpl.h:340-346 | equals `DestroyedNode` of the old store |
| TemplateEngine.Details.ReleasePromise | include/qpromise/private/qpromiseimpl.h:35-41 | equals `ReleasedPromise` of the old store and keeps the store well formed |
| TemplateEngine.Details.ReleaseDeferred | include/qpromise/private/qpromiseimpl.h:67-73 | equals `ReleasedDeferred` of the old store and keeps the store well formed |
| TemplateEngine.Details.Install | include/qpromise/private/qpromiseimpl.h:151-156 | equals `Installed` of the old store |
| TemplateEngine.Details.Resolve | include/qpromise/private/qpromiseimpl.h:219-232 | sets the fulfilled bit and stores the value, then delivers to the list; equals `Resolved` and keeps the store well formed |
| TemplateEngine.Details.Deliver | include/qpromise/private/qpromiseimpl.h:222-231 | the `for` loop resolves every node of the list in order; equals `DeliverFulfilment` and keeps the store well formed |
| TemplateEngine.Details.ResolveNode | include/qpromise/private/qpromiseimpl.h:287-323 | equals `NodeResolved` and keeps the store well formed |
| TemplateEngine.Details.Reject | include/qpromise/private/qpromiseimpl.h:242-247 | equals `Rejected` and keeps the store well formed |
| TemplateEngine.Details.RejectNode | include/qpromise/private/qpromiseimpl.h:274-285 | equals `NodeRejected` and keeps the store well formed |
| TemplateEngine.Details.Notify | include/qpromise/private/qpromiseimpl.h:249-259 | equals `Notified`, returning the error a progress handler threw |
| TemplateEngine.Details.NotifyNode | include/qpromise/private/qpromiseimpl.h:325-333 | equals `NodeNotified` |
| TemplateEngine.Details.Adopt | include/qpromise/private/qpromiseimpl.h:234-240 | equals `Adopted` and keeps the store well formed |
| TemplateEngine.Details.FulfillNothing | include/qpromise/private/qpromiseimpl.h:116-120 | building, wrapping and releasing a deferred leaves the cell `FactoriesSettle` describes |
| TemplateEngine.Details.FulfillValue | include/qpromise/private/qpromiseimpl.h:122-127 | likewise for `fulfill(v)` |
| TemplateEngine.Details.RejectValue | include/qpromise/private/qpromiseimpl.h:129-134 | likewise for `reject(e)` |
| TemplateEngine.Details.Then | include/qpromise/private/qpromiseimpl.h:196-212 | equals `ThenStep` and keeps the store well formed |
| TemplateEngine.Details.PromiseThen | include/qpromise/private/qpromiseimpl.h:43-49 | `QPromise::then` is `Detail::then` with the wrapped fulfilment handler |
| TemplateEngine.Details.Fail | include/qpromise/private/qpromiseimpl.h:51-55 | `fail(h)` is `then` with the propagation function and `h` |
| QtLayout.WrapFulfilled | src/qpromiseimpl.h:20-22 | `nullptr` becomes `propagateValue`; a callable is passed on unchanged |
| QtLayout.ToInt | src/qpromise.h:98-99 | `qvariantCast<int>` yields the held number, 0 for an empty variant |
| QtLayout.Wrapped | src/qpromise.h:115-142 | no callback propagates; a `QVariant` callback is used as it is; a void one is followed by an empty variant; a typed one receives the converted value; errors pass through |
| QtLayout.Discarding | src/qpromise.h:123-133 | the void-callback wrapper returns an empty variant after the callback returns, and lets its error through |
| QtLayout.Casting | src/qpromise.h:135-142 | the typed-callback wrapper feeds the callback `qvariantCast` of the value |
| QtSpec.Allocated | src/qpromise.cpp:113 | a new object takes the next address; nothing else changes |
| QtSpec.ThenActed | src/qpromise.cpp:38-44 | `thenAction` keeps every object's kind, grows queues at the end only, posts tasks at the end only, and calls no callback |
| QtSpec.DoneThen | src/qpromise.cpp:25-36 | `doThen` returns a new unresolved deferred, alters old objects only as allowed, and calls no callback |
| QtSpec.ResolvedWith | src/qpromise.cpp:46-58 | `resolve` alters objects only as allowed and calls no callback |
| QtSpec.SettledWith | src/qpromise.cpp:117-123 | `resolve(value)` and `reject` create the settled object at the next address, then resolve the deferred with it |
| QtSpec.Ran | src/qpromise.cpp:54-57 | running a closure alters objects only as allowed; old tasks stay queued and old calls stay logged |
| QtSpec.RanAll | src/qpromise.cpp:56 | the drain loop alters objects only as allowed |
| QtRuntime.Runtime.Defer | src/qpromise.cpp:113 | a new unresolved `QDeferredPromise` at the next address; keeps every closure in range |
| QtRuntime.Runtime.Fulfill | src/qpromise.h:111 | a new `QFulfilledPromise` with the value; keeps every closure in range |
| QtRuntime.Runtime.Reject | src/qpromise.h:113 | a new `QRejectedPromise` with the reason; keeps every closure in range |
| QtRuntime.Runtime.NextTick | src/qpromise.h:168 | the task is appended and nothing runs; keeps every closure in range |
| QtRuntime.Runtime.ThenAction | src/qpromise.cpp:38-44 | equals `ThenActed` of the old world and keeps every closure in range |
| QtRuntime.Runtime.DoThen | src/qpromise.cpp:25-36 | equals `DoneThen` of the old world and keeps every closure in range |
| QtRuntime.Runtime.Resolve | src/qpromise.cpp:46-58 | equals `ResolvedWith` of the old world and keeps every closure in range |
| QtRuntime.Runtime.ResolveValue | src/qpromise.cpp:117 | equals `SettledWith` a new fulfilled promise |
| QtRuntime.Runtime.RejectWith | src/qpromise.cpp:121-123 | equals `SettledWith` a new rejected promise |
| QtRuntime.Runtime.Then | src/qpromiseimpl.h:24 | `QPromiseBase::then` is `doThen` of the wrapped callback |
| QtRuntime.Runtime.Run | src/qpromise.cpp:54-57 | equals `Ran` of the old world and keeps every closure in range |
| QtRuntime.Runtime.RunAll | src/qpromise.cpp:56 | the `for` loop over the queue computes `RanAll`, stopping at the first escaping error, and keeps every closure in range |
| QtRuntime.Runtime.RunNext | src/qpromise.h:168 | one turn of the event loop: the oldest task is removed and run, and every closure stays in range |
| QtProperties.ResolveIsWriteOnce | src/qpromise.cpp:46-50 | once resolved, and on any settled promise (lines 82-85, 108-111), `resolve` changes nothing |
| QtProperties.FirstSettlementWins | src/qpromise.cpp:117-123 | after a first `resolve(v)` or `reject`, a second one only allocates its object |
| QtProperties.ThenOnUnresolvedQueues | src/qpromise.cpp:29-44 | on an unresolved deferred, `then` and `thenAction` only append to its queue |
| QtProperties.ThenForwardsAfterResolution | src/qpromise.cpp:26-27 | on a resolved deferred, `then` and `thenAction` go to the adopted promise (lines 39-40) |
| QtProperties.ThenOnFulfilledPostsTask | src/qpromise.cpp:64-80 | on a fulfilled promise, `then` and `thenAction` post one task with its value and call nothing inline |
| QtProperties.ThenOnRejectedDoesNothing | src/qpromise.cpp:89-106 | on a rejected promise, `then` only creates its deferred, and `thenAction` does nothing |
| QtProperties.RanLogs | src/qpromise.cpp:31-32 | running a closure only appends to the log, and a `then` closure first records the call of its callback with the value |
| QtProperties.DrainOrder | src/qpromise.cpp:54-57 | over any queue, adoption forwarders included, the start positions of the closures that run never decrease in queue order, each `then` closure's callback call with the value is recorded at its start, and that call comes strictly before the start of every later closure |
| QtProperties.DrainStopsAtEscape | src/qpromise.cpp:56 | over any queue, the drain ends at the first closure whose error escapes: the rest of the queue has no effect, earlier `then` callbacks returned normally, and a `then` closure that ends it threw the escaping error; with no escaping error every closure runs |
| QtProperties.DrainRunsInOrder | src/qpromise.cpp:54-57 | for a queue of `then` closures only, none of which throws, the log grows by exactly one call per closure, in queue order, with the delivered value |
| QtProperties.DrainStopsAtFirstError | src/qpromise.cpp:56 | for `then` closures before the throwing one, the log grows by exactly their calls and the thrower's, later callbacks are not called, and its error escapes |
| QtProperties.PropagatesThroughThenWithNoCallback | tests/qspec.cpp:39-41 | `fulfill(x).then().then(g)`: one turn fulfils the first result with `x`, the next calls `g` with `x` |
| QtProperties.ResolutionIsForwarded | tests/qspec.cpp:47-55 | `a.resolve(b)`, `b.resolve(v)`, then `then(f)` on `a` posts the call of `f` with `v` |
| QtInvariant.AllocatedKeepsInRange | src/qpromise.cpp:113 | creating an object keeps every posted and queued closure aimed at an existing object |
| QtInvariant.ThenActedKeepsInRange | src/qpromise.cpp:38-44 | `thenAction` with a closure aimed at an existing object keeps every closure in range |
| QtInvariant.DoneThenKeepsInRange | src/qpromise.cpp:25-36 | `doThen` creates the deferred before the closure that settles it is queued or posted, so every closure stays in range |
| QtInvariant.ResolvedWithKeepsInRange | src/qpromise.cpp:46-58 | `resolve` keeps every closure in range |
| QtInvariant.SettledWithKeepsInRange | src/qpromise.cpp:117-123 | `QDeferred::resolve(value)` and `reject` keep every closure in range |
| QtInvariant.RanKeepsInRange | src/qpromise.cpp:54-57 | running a closure aimed at an existing object keeps every closure in range |
| QtInvariant.RanAllKeepsInRange | src/qpromise.cpp:56 | the drain keeps every closure in range |
| QtInvariant.StepKeepsInRange | src/qpromise.h:168 | every turn of the event loop keeps every closure in range |
| QtOrphans.ThenActedKeepsOrphan | src/qpromise.cpp:38-44 | `thenAction` with a closure that does not settle `d` keeps `d` unresolved and unreferenced |
| QtOrphans.ResolvedKeepsOrphan | src/qpromise.cpp:46-58 | resolving another deferred keeps `d` unresolved and unreferenced |
| QtOrphans.SettledKeepsOrphan | src/qpromise.cpp:117-123 | settling another deferred keeps `d` unresolved and unreferenced |
| QtOrphans.RanKeepsOrphan | src/qpromise.cpp:54-57 | running a closure that does not settle `d` keeps `d` unresolved and unreferenced |
| QtOrphans.RanAllKeepsOrphan | src/qpromise.cpp:56 | a drain of closures none of which settles `d` keeps `d` unresolved and unreferenced |
| QtOrphans.StepKeepsOrphan | src/qpromise.h:168 | every turn of the event loop keeps an unreferenced deferred unresolved |
| QtOrphans.ThenKeepsOrphan | src/qpromise.cpp:25-36 | every `then` keeps an unreferenced deferred unresolved |
| QtOrphans.ThenOnRejectedNeverSettles | src/qpromise.cpp:89-98 | in any world whose closures are in range, which every `Runtime` keeps, the deferred `then` on a rejected promise returns is unresolved and unreferenced, so no later turn or `then` settles it |

## Left out

- Fuel: delivery, forwarding and draining are modelled up to a depth given by `fuel`. The stack overflow that a cyclic adoption causes in the source is not modelled; with too little fuel the model stops delivering.
- Memory: `unique_ptr`, `release()` and `QSharedPointer` are replaced by the ownership bits and a set of deleted addresses. A use after deletion is not detected: a deleted cell stays readable in the arena.
- Handle moves and copies: a move only transfers the address. The move constructors of `Detail`, `QPromise` and `QDeferred` are not modelled.
- Type-level overloads: the `enable_if` selection between `void` and non-`void` overloads and the `QVariant` boxing are collapsed into one value type. `void` is `Void`, and the template engine chooses between `fulfill()` and `fulfill(v)` by the returned value.
- Typed progress values: `notify(u)` with an empty progress handler calls it unconditionally in the source (an empty `std::function` throws), but the model treats an empty slot as absent.
- `traits.h`, `exception.h` and the declaration-only headers are not part of this model. Errors are an opaque value. `Detail::reject` stores a copy made as a plain `std::exception`, which loses the original's dynamic type; the model keeps the error unchanged.
- `Q::resolve` on a non-promise value: its body does not return the promise it builds (src/qpromise.h:177-180), so `Q::when` is modelled for promises only.
- The Qt event loop: `QTimer::singleShot` and the test delays are an explicit FIFO, and `RunNext` runs one task.
- Self-resolution (Promises/A+ section 2.3.1) is only a TODO in the source and is not modelled. Resolving a deferred with itself is left to fuel.
- The drain closure iterates `mQueue` live, while the model runs the queue as it stood when the drain began. This makes no difference: the drain runs only after its deferred is resolved, and from then on `doThen` and `thenAction` forward to `mResolvedPromise` (src/qpromise.cpp:26-27 and 39-40), so nothing more is appended to that queue. In the model, `QtSpec.Succeeds` states that every operation leaves a resolved deferred unchanged.
- Re-entrant handlers: handlers in both engines are pure functions from a value to an outcome. A handler that itself calls `then`, `resolve` or `reject` on some promise is not modelled.
- Warnings: `qWarning` on resolving an object that is already resolved (src/qpromise.cpp:48, 83 and 109) is dropped. The model keeps only the early return (`QtProperties.ResolveIsWriteOnce`).
- `TemplateThen.ThenStep`: a handler that `then` runs at once on a settled cell is not recorded in the handler trace. Its effect shows only in the returned promise.
- `TemplateThen.ThenStep`: installing a new `Chain` destroys the replaced successor before the new downstream cell is allocated. In the source the new node is built first. This does not change which cells end up live.
