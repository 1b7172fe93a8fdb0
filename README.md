# edolview core, modelled in Dafny

edolview is a desktop image viewer written in Kotlin. This project models the
parts of its core whose behaviour can be stated exactly:

- **The demand-gated lazy cell** `ObservableLazyValue` (util/), with its
  subscriber records and its base class:
  - a cached value and at most one pending action;
  - a demand counter (`doExecuteCount`) and an ordered list of `LazySubscriber` records;
  - `update` stores an action, and runs it at once only when some subscriber asked for eager execution;
  - `get`, `subscribe(doExecute = true)` and `once` force the pending action;
  - a per-node guard in `ObservableContext` turns a re-entrant `update` into a no-op.
- **The integer histogram** (`Histogram`): a frequency array updated in place and a running maximum.
- **The vector-graphics layer** (`SimpleVG.kt`):
  - the `Polyline` builder and its segment iterator;
  - the SVG backend's path state machine;
  - the libGDX backend's list of pending sub-paths, its painting loop and its group transform stack.
- **`ImageStore`**:
  - cache-key normalisation (`process`);
  - the magic-number check;
  - the reload-if-stale rule of `get`;
  - the in-place rewrite of a PFM file's three header lines.
- **The `Mat` extensions** (`MatExt.kt`):
  - rectangle containment and `bound`;
  - the depth and type tables;
  - `nbytes` with 32-bit wrap-around;
  - the shape checks of the element-wise operators;
  - the Kotlin-range to OpenCV-range conversion.

Layout, one module per file:

- `Wrappers`: `Option`, `Result` and `Outcome`.
- `Subscribers`: the subscriber records.
- `BaseObservables`: the base class with its update time and stack trace.
- `LazyCell`: the lazy cell as a state machine on values, with the lemmas about it.
- `ObservableLazy`: the classes `ObservableContext` and `ObservableLazyValue`. Every method is proved to move its state exactly as the matching `LazyCell` function does.
- `Histograms`: the histogram.
- `SimpleVg`, `SvgBackend` and `GdxBackend`: the vector-graphics layer.
- `ImageStore` and `PfmHeader`: the image store, and the PFM header rewrite.
- `MatExt`: the `Mat` extensions.

Inputs the model cannot compute are parameters of the operations:

- the caller's stack, where the source reads `Thread.currentThread().stackTrace`;
- the time of an update, where the source reads `System.nanoTime`;
- an action's result, given with the action;
- the image loader of the cache;
- the 25 unit-circle samples `(cos θ, sin θ)` that the libGDX `ellipse` computes.

Coordinates and colours are reals; bytes are the values 0..255.

Where the code's behaviour differs from what its names suggest, the model
follows the code:

- Subscriber equality is Kotlin data-class equality over subject, subscription handle, description and `doExecute`, not equality of the handle alone.
- `once` reads the subject directly and never enters the subscriber list.
- `reset` does not restore the cached value, so a following `get()` returns the old value, not the initial one.
- The demand counter does not always equal the number of eager subscribers. See the findings below.

## Model

| member | source | states |
|---|---|---|
| Subscribers.Drop | core/src/main/java/kr/edoli/edolview/util/Subscriber.kt:7 | Kotlin `drop(n)`: the sequence minus its first `n` elements, empty when shorter |
| Subscribers.NewSubscriber | core/src/main/java/kr/edoli/edolview/util/Subscriber.kt:5-10 | a `Subscriber` keeps subject, handle and description as given; its stack trace is the caller's stack minus the first 4 frames |
| Subscribers.NewLazySubscriber | core/src/main/java/kr/edoli/edolview/util/Subscriber.kt:5-12 | the same for `LazySubscriber`, which also keeps its `doExecute` flag |
| Subscribers.SubscriberEquals | core/src/main/java/kr/edoli/edolview/util/Subscriber.kt:10 | the data-class `equals` of `Subscriber`: subject, subscription and description, not the stack trace (`LazyEqualsIgnoresStack`) |
| Subscribers.LazyEquals | core/src/main/java/kr/edoli/edolview/util/Subscriber.kt:12 | the data-class `equals` of `LazySubscriber`, which `ArrayList.remove` uses: the four constructor fields, not the stack trace (`LazyEqualsIgnoresStack`, `RemoveFirstAt`) |
| Subscribers.LazyEqualsIgnoresStack | core/src/main/java/kr/edoli/edolview/util/Subscriber.kt:10-12 | data-class equality ignores the stack trace: two records built from the same fields at different call sites are equal |
| BaseObservables.BaseObservable.constructor | core/src/main/java/kr/edoli/edolview/util/BaseObservable.kt:5-12 | a new node has update time 0 and an empty update stack trace |
| BaseObservables.BaseObservable.SetLastTotalUpdateTime | core/src/main/java/kr/edoli/edolview/util/BaseObservable.kt:6-9 | setting the update time also replaces the stack trace, by the current stack minus its first 3 frames |
| ObservableLazy.ObservableContext.Push | core/src/main/java/kr/edoli/edolview/util/ObservableLazyValue.kt:52-54 | the guard admits a node not already in flight and marks it in flight either way |
| ObservableLazy.ObservableContext.Pop | core/src/main/java/kr/edoli/edolview/util/ObservableLazyValue.kt:62 | the node is no longer in flight |
| ObservableLazy.ObservableLazyValue.constructor | core/src/main/java/kr/edoli/edolview/util/ObservableLazyValue.kt:10-21 | the cell starts with the initial value cached and published, nothing pending, no demand, no subscribers |
| ObservableLazy.ObservableLazyValue.Publish | core/src/main/java/kr/edoli/edolview/util/ObservableLazyValue.kt:71 | the subject's `onNext` follows `LazyCell.Publish`: every live subscription is delivered the value |
| ObservableLazy.ObservableLazyValue.Subscribe | core/src/main/java/kr/edoli/edolview/util/ObservableLazyValue.kt:23-32 | the cell and the record returned follow `LazyCell.Subscribe` (properties in `LazyCell.SubscribeEager`/`SubscribeLazy`) |
| ObservableLazy.ObservableLazyValue.UnsubscribeSubject | core/src/main/java/kr/edoli/edolview/util/ObservableLazyValue.kt:34-41 | the filter-then-forEach loop follows `LazyCell.UnsubscribeSubject`, including its double decrement |
| ObservableLazy.ObservableLazyValue.Unsubscribe | core/src/main/java/kr/edoli/edolview/util/ObservableLazyValue.kt:43-49 | follows `LazyCell.Unsubscribe`: cancel the subscription, remove the first equal record, decrement when `doExecute` |
| ObservableLazy.ObservableLazyValue.Update | core/src/main/java/kr/edoli/edolview/util/ObservableLazyValue.kt:51-63 | follows `LazyCell.Update`, through the guard of the shared context |
| ObservableLazy.ObservableLazyValue.ExecuteUpdate | core/src/main/java/kr/edoli/edolview/util/ObservableLazyValue.kt:65-74 | follows `LazyCell.Execute`: empty the pending slot, then run the action taken from it |
| ObservableLazy.ObservableLazyValue.Invoke | core/src/main/java/kr/edoli/edolview/util/ObservableLazyValue.kt:70 | running an action returns its result after performing the `update` it triggers on the same cell |
| ObservableLazy.ObservableLazyValue.Get | core/src/main/java/kr/edoli/edolview/util/ObservableLazyValue.kt:76-81 | the new state and the value returned follow `LazyCell.Get` |
| ObservableLazy.ObservableLazyValue.Once | core/src/main/java/kr/edoli/edolview/util/ObservableLazyValue.kt:84-89 | the new state and the value delivered follow `LazyCell.Once` |
| ObservableLazy.ObservableLazyValue.Reset | core/src/main/java/kr/edoli/edolview/util/ObservableLazyValue.kt:91-94 | follows `LazyCell.Reset` |
| LazyCell.Init | core/src/main/java/kr/edoli/edolview/util/ObservableLazyValue.kt:18-21 | after construction the cached and the published value are the initial value, with nothing pending, no demand and no subscriptions |
| LazyCell.Publish | core/src/main/java/kr/edoli/edolview/util/ObservableLazyValue.kt:71 | `onNext(v)`: `v` becomes the latest value and is appended to every live subscription's log and to no other |
| LazyCell.Update | core/src/main/java/kr/edoli/edolview/util/ObservableLazyValue.kt:51-63 | the state after `update(action)`: unchanged while the node is in flight, otherwise the action stored, run when `doExecuteCount > 0`, and the guard released; its properties are `UpdateStored`, `UpdateWhenInFlight`, `UpdateWithoutDemand` and `UpdateWithDemand` |
| LazyCell.Execute | core/src/main/java/kr/edoli/edolview/util/ObservableLazyValue.kt:65-74 | the state after `executeUpdate()`: the slot emptied before the taken action runs, nothing done when it is empty (`ExecutePending`, `ExecuteKeepsBookkeeping`) |
| LazyCell.Fire | core/src/main/java/kr/edoli/edolview/util/ObservableLazyValue.kt:68-73 | running a taken action: its nested update first, then `checkValue` of its result cached and published (`FireEffect`, `FireGuardedKeepsStored`) |
| LazyCell.Get | core/src/main/java/kr/edoli/edolview/util/ObservableLazyValue.kt:76-81 | `get(doExecute)`: the state after the optional `executeUpdate` and the cached value it returns (`GetForcesPending`, `GetWithoutRunning`) |
| LazyCell.Subscribe | core/src/main/java/kr/edoli/edolview/util/ObservableLazyValue.kt:23-32 | `subscribe`: for `doExecute` the count raised before the forced update, then a new live subscription replaying the latest value and the record appended (`SubscribeEager`, `SubscribeLazy`, `SubscribeKeepsDemand`) |
| LazyCell.Once | core/src/main/java/kr/edoli/edolview/util/ObservableLazyValue.kt:84-89 | `once`: the optional `executeUpdate` and the latest value delivered, with no subscriber recorded (`OnceKeepsSubscriptions`) |
| LazyCell.Reset | core/src/main/java/kr/edoli/edolview/util/ObservableLazyValue.kt:91-94 | `reset()` as written: the slot emptied and the initial value published, the cached value kept (`ResetEffect`, `ResetLeavesStaleValue`) |
| LazyCell.UpdateKeepsBookkeeping | core/src/main/java/kr/edoli/edolview/util/ObservableLazyValue.kt:51-63 | an update, whatever its actions do, leaves demand, subscribers, subscriptions and the guard set as they were |
| LazyCell.FireKeepsBookkeeping | core/src/main/java/kr/edoli/edolview/util/ObservableLazyValue.kt:65-74 | running an action leaves the same bookkeeping alone |
| LazyCell.ExecuteKeepsBookkeeping | core/src/main/java/kr/edoli/edolview/util/ObservableLazyValue.kt:65-74 | so does `executeUpdate` |
| LazyCell.FireEffect | core/src/main/java/kr/edoli/edolview/util/ObservableLazyValue.kt:66-72 | running an action caches and publishes `checkValue` of its result; the slot then holds only what the action's own nested `update` stored |
| LazyCell.FireGuardedKeepsStored | core/src/main/java/kr/edoli/edolview/util/ObservableLazyValue.kt:52-54 | while the node is in flight, an action's nested `update` cannot store anything |
| LazyCell.UpdateStored | core/src/main/java/kr/edoli/edolview/util/ObservableLazyValue.kt:51-63 | after `update(a)` the slot holds `a` when nobody demands, is empty when someone does, and is unchanged when the node is in flight |
| LazyCell.UpdateWhenInFlight | core/src/main/java/kr/edoli/edolview/util/ObservableLazyValue.kt:52-54 | a re-entrant `update` on a node in flight changes nothing at all |
| LazyCell.UpdateWithoutDemand | core/src/main/java/kr/edoli/edolview/util/ObservableLazyValue.kt:56-60 | with no demand, `update(a)` only stores `a`: nothing runs, nothing is cached or published |
| LazyCell.UpdateWithDemand | core/src/main/java/kr/edoli/edolview/util/ObservableLazyValue.kt:56-62 | with demand, `update(a)` caches and publishes `checkValue(a())`, empties the slot and restores the guard set |
| LazyCell.LastWriteWins | core/src/main/java/kr/edoli/edolview/util/ObservableLazyValue.kt:56-74 | two updates without demand equal the second alone, and a following `get()` returns the second action's result |
| LazyCell.ExecutePending | core/src/main/java/kr/edoli/edolview/util/ObservableLazyValue.kt:65-74 | `executeUpdate` with `a` pending caches `checkValue(a())`; an action that `update`s its own cell leaves that action pending, since the slot was emptied first |
| LazyCell.GetForcesPending | core/src/main/java/kr/edoli/edolview/util/ObservableLazyValue.kt:76-81 | `get(true)` with `a` pending returns `checkValue(a())` and empties the slot unless the action's own nested update stores another one (`ExecutePending`) |
| LazyCell.GetWithoutRunning | core/src/main/java/kr/edoli/edolview/util/ObservableLazyValue.kt:76-81 | `get(false)`, or `get` with nothing pending, returns the cached value and changes nothing |
| LazyCell.OnceKeepsSubscriptions | core/src/main/java/kr/edoli/edolview/util/ObservableLazyValue.kt:84-89 | `once` changes neither the subscribers, nor the demand counter, nor the live subscriptions |
| LazyCell.SubscribeEager | core/src/main/java/kr/edoli/edolview/util/ObservableLazyValue.kt:23-32 | `subscribe(doExecute = true)` raises demand by one, forces the pending action, appends the record at the end and delivers the fresh value |
| LazyCell.SubscribeLazy | core/src/main/java/kr/edoli/edolview/util/ObservableLazyValue.kt:23-32 | `subscribe(doExecute = false)` leaves demand, the slot and the cached value alone, appends the record and delivers the latest value |
| LazyCell.SubscribeKeepsDemand | core/src/main/java/kr/edoli/edolview/util/ObservableLazyValue.kt:23-32 | subscribing preserves the invariant that the counter equals the number of `doExecute` subscribers |
| LazyCell.UpdateKeepsDemand | core/src/main/java/kr/edoli/edolview/util/ObservableLazyValue.kt:51-63 | so does updating |
| LazyCell.DemandAppend | core/src/main/java/kr/edoli/edolview/util/ObservableLazyValue.kt:30 | appending a record adds one to the demand exactly when it has `doExecute` |
| LazyCell.RemoveFirst | core/src/main/java/kr/edoli/edolview/util/ObservableLazyValue.kt:48 | `ArrayList.remove(x)` on the subscriber list (`RemoveFirstAt`, `RemoveFirstLength`, `RemoveFirstDemand`) |
| LazyCell.Unsubscribe | core/src/main/java/kr/edoli/edolview/util/ObservableLazyValue.kt:43-49 | `unsubscribe(subscriber)` as written: the count lowered for `doExecute` without a membership check, the subscription cancelled and the record removed (`UnsubscribeMemberKeepsDemand`, `UnsubscribeNonMemberBreaksDemand`) |
| LazyCell.RemoveFirstDemand | core/src/main/java/kr/edoli/edolview/util/ObservableLazyValue.kt:48 | `ArrayList.remove` of a member lowers the demand by that member's flag; of a non-member it changes nothing |
| LazyCell.UnsubscribeMemberKeepsDemand | core/src/main/java/kr/edoli/edolview/util/ObservableLazyValue.kt:43-49 | unsubscribing a current subscriber keeps the counter invariant and removes one record |
| LazyCell.RemoveFirstLength | core/src/main/java/kr/edoli/edolview/util/ObservableLazyValue.kt:48 | removing a member shortens the list by one |
| LazyCell.RemoveFirstAt | core/src/main/java/kr/edoli/edolview/util/ObservableLazyValue.kt:48 | `ArrayList.remove` takes out exactly the first record data-class-equal to the argument, whatever their stack traces, and keeps the others in order |
| LazyCell.UnsubscribeNonMemberBreaksDemand | core/src/main/java/kr/edoli/edolview/util/ObservableLazyValue.kt:43-49 | unsubscribing a `doExecute` record that is not subscribed leaves the list alone but lowers the counter, breaking the invariant |
| LazyCell.UnsubscribeTwice | core/src/main/java/kr/edoli/edolview/util/ObservableLazyValue.kt:43-49 | unsubscribing the only eager subscriber twice drives the counter to -1 |
| LazyCell.UnsubscribeChecked | core/src/main/java/kr/edoli/edolview/util/ObservableLazyValue.kt:43-49 | the corrected `unsubscribe(subscriber)`: the count lowered only when a record was removed (`UnsubscribeCheckedKeepsDemand`) |
| LazyCell.UnsubscribeCheckedKeepsDemand | core/src/main/java/kr/edoli/edolview/util/ObservableLazyValue.kt:43-49 | with a membership check, unsubscribing, even twice, keeps the counter invariant |
| LazyCell.UnsubscribeSubject | core/src/main/java/kr/edoli/edolview/util/ObservableLazyValue.kt:34-41 | `unsubscribe(subject)` as written: the `forEach` over the filtered snapshot, each step decrementing and then calling `unsubscribe(it)` (`UnsubscribeSubjectEffect`) |
| LazyCell.Matching | core/src/main/java/kr/edoli/edolview/util/ObservableLazyValue.kt:35 | the filter keeps only records of the subject |
| LazyCell.NotMatching | core/src/main/java/kr/edoli/edolview/util/ObservableLazyValue.kt:35 | the complement keeps only records of other subjects |
| LazyCell.DemandSplit | core/src/main/java/kr/edoli/edolview/util/ObservableLazyValue.kt:35 | the demand of a list is that of its matching part plus that of the rest |
| LazyCell.RemoveAllMatching | core/src/main/java/kr/edoli/edolview/util/ObservableLazyValue.kt:35-41 | removing each matching record in turn leaves exactly the non-matching ones, in order |
| LazyCell.SubjectStepsEffect | core/src/main/java/kr/edoli/edolview/util/ObservableLazyValue.kt:35-41 | the loop as written lowers the counter by twice the demand of the records it visits and removes them |
| LazyCell.UnsubscribeSubjectEffect | core/src/main/java/kr/edoli/edolview/util/ObservableLazyValue.kt:34-41 | `unsubscribe(subject)` removes every record of the subject but subtracts twice their demand, so it breaks the invariant whenever one of them had `doExecute` |
| LazyCell.UnsubscribeEachEffect | core/src/main/java/kr/edoli/edolview/util/ObservableLazyValue.kt:34-41 | decrementing once per record lowers the counter by exactly their demand |
| LazyCell.UnsubscribeSubjectFixed | core/src/main/java/kr/edoli/edolview/util/ObservableLazyValue.kt:34-41 | the corrected `unsubscribe(subject)`: one decrement per removed eager record (`UnsubscribeEachEffect`, `UnsubscribeSubjectFixedKeepsDemand`) |
| LazyCell.UnsubscribeSubjectFixedKeepsDemand | core/src/main/java/kr/edoli/edolview/util/ObservableLazyValue.kt:34-41 | the single-decrement version removes every record of the subject and keeps the invariant |
| LazyCell.ResetEffect | core/src/main/java/kr/edoli/edolview/util/ObservableLazyValue.kt:91-94 | `reset` empties the slot and publishes the initial value, leaving the cached value, the counter and the subscribers alone |
| LazyCell.ResetLeavesStaleValue | core/src/main/java/kr/edoli/edolview/util/ObservableLazyValue.kt:91-94 | after `reset`, `get()` returns the old cached value while `once` delivers the initial value |
| LazyCell.ResetFixed | core/src/main/java/kr/edoli/edolview/util/ObservableLazyValue.kt:91-94 | the corrected `reset()`: the cached value set back to the initial value as well (`ResetFixedYieldsInitial`) |
| LazyCell.ResetFixedYieldsInitial | core/src/main/java/kr/edoli/edolview/util/ObservableLazyValue.kt:91-94 | a reset that also restores the cached value makes `get` and `once` agree on the initial value |
| LazyCell.ScenarioDeferredUpdate | core/src/main/java/kr/edoli/edolview/util/ObservableLazyValue.kt:51-81 | a cell at 0 without subscribers: `update(() -> 5)` only stores, then `get()` returns 5 and empties the slot |
| LazyCell.ScenarioEagerUpdate | core/src/main/java/kr/edoli/edolview/util/ObservableLazyValue.kt:23-74 | two eager subscribers on a cell at 0: `update(() -> 1)` runs at once and both logs read 0 then 1 |
| Histograms.Inc32 | core/src/main/java/kr/edoli/edolview/util/Histogram.kt:29 | `freq[i]++` on a Kotlin `Int`: one more, or wrap-around to `Int.MIN_VALUE` at the top |
| Histograms.MaxOf | core/src/main/java/kr/edoli/edolview/util/Histogram.kt:30-32 | the largest bin, or 0: at least every bin, and attained unless 0 |
| Histograms.MaxOfUnique | core/src/main/java/kr/edoli/edolview/util/Histogram.kt:30-32 | any value with those three properties is `MaxOf` |
| Histograms.MaxOfIncrement | core/src/main/java/kr/edoli/edolview/util/Histogram.kt:29-32 | raising one bin by one moves the maximum exactly as the running update of `maxFreq` does |
| Histograms.Histogram.constructor | core/src/main/java/kr/edoli/edolview/util/Histogram.kt:9-22 | `n` zeroed bins and `maxFreq == 0`, with `maxFreq` the largest bin |
| Histograms.NewHistogram | core/src/main/java/kr/edoli/edolview/util/Histogram.kt:9-10 | `Histogram(n)` fails with `NegativeArraySizeException` exactly when `n < 0`; otherwise a fresh histogram of `n` zeroed bins, consistent |
| Histograms.Histogram.AddDataPoint | core/src/main/java/kr/edoli/edolview/util/Histogram.kt:24-33 | out-of-range indices change nothing; otherwise that bin alone goes up by one and `maxFreq` is raised to it if it is larger; `maxFreq` stays the largest bin while no bin wraps |
| Histograms.Histogram.Clear | core/src/main/java/kr/edoli/edolview/util/Histogram.kt:61-66 | every bin and `maxFreq` are 0 |
| SimpleVg.Flatten | core/src/main/java/kr/edoli/edolview/ui/vg/SimpleVG.kt:75-82 | the interleaved layout: length twice the points, `x` at even and `y` at odd indices |
| SimpleVg.Pairs | core/src/main/java/kr/edoli/edolview/ui/vg/SimpleVG.kt:458-466 | an even-length coordinate array read two at a time |
| SimpleVg.FlattenUnique | core/src/main/java/kr/edoli/edolview/ui/vg/SimpleVG.kt:75-82 | any array with the interleaved layout is `Flatten` of its points |
| SimpleVg.PairsFlatten | core/src/main/java/kr/edoli/edolview/ui/vg/SimpleVG.kt:75-82 | reading a flattened array back gives the points |
| SimpleVg.FlattenPairs | core/src/main/java/kr/edoli/edolview/ui/vg/SimpleVG.kt:75-82 | flattening the points of an even-length array gives the array |
| SimpleVg.Segments | core/src/main/java/kr/edoli/edolview/ui/vg/SimpleVG.kt:84-104 | `iterLines` yields as many segments as points when closed and one fewer when open |
| SimpleVg.SegmentsChain | core/src/main/java/kr/edoli/edolview/ui/vg/SimpleVG.kt:88-102 | the segments start at the first point and each ends where the next begins |
| SimpleVg.SegmentsClosed | core/src/main/java/kr/edoli/edolview/ui/vg/SimpleVG.kt:96-102 | a closed polyline has the open one's segments plus one from the last point back to the first, so they form a loop |
| SimpleVg.Polyline.constructor | core/src/main/java/kr/edoli/edolview/ui/vg/SimpleVG.kt:54-56 | no points, open |
| SimpleVg.Polyline.Add | core/src/main/java/kr/edoli/edolview/ui/vg/SimpleVG.kt:58-64 | appends one point, keeps the closed flag |
| SimpleVg.Polyline.Close | core/src/main/java/kr/edoli/edolview/ui/vg/SimpleVG.kt:66-68 | closes, keeps the points |
| SimpleVg.Polyline.Clear | core/src/main/java/kr/edoli/edolview/ui/vg/SimpleVG.kt:70-73 | no points and open again |
| SimpleVg.Polyline.ToArray | core/src/main/java/kr/edoli/edolview/ui/vg/SimpleVG.kt:75-82 | a fresh array of twice the points' length with `x` at `2i` and `y` at `2i + 1`, equal to `Flatten` |
| SimpleVg.Polyline.IterLines | core/src/main/java/kr/edoli/edolview/ui/vg/SimpleVG.kt:84-87 | a fresh cursor at 0 over this polyline |
| SimpleVg.LineIterator.constructor | core/src/main/java/kr/edoli/edolview/ui/vg/SimpleVG.kt:84-87 | a cursor at 0 over the given polyline |
| SimpleVg.LineIterator.HasNext | core/src/main/java/kr/edoli/edolview/ui/vg/SimpleVG.kt:88-94 | true exactly while the cursor is below the segment count |
| SimpleVg.LineIterator.Next | core/src/main/java/kr/edoli/edolview/ui/vg/SimpleVG.kt:96-102 | the segment at the cursor, advancing it; past the end, `NoSuchElementException` and no move |
| SimpleVg.CollectLines | core/src/main/java/kr/edoli/edolview/ui/vg/SimpleVG.kt:84-104 | iterating to the end yields exactly `Segments`, in order |
| SvgBackend.ShapePaint | core/src/main/java/kr/edoli/edolview/ui/vg/SimpleVG.kt:192-223 | the fill attribute appears exactly for fill types, in the fill colour; the stroke exactly for stroke types, in the stroke colour and width |
| SvgBackend.Anchor | core/src/main/java/kr/edoli/edolview/ui/vg/SimpleVG.kt:261-276 | `text-anchor` is `middle` for centre, `end` for right, and `start` for every other alignment |
| SvgBackend.FlipY | core/src/main/java/kr/edoli/edolview/ui/vg/SimpleVG.kt:147-157 | the matrix `beginGroup` writes: y scale negated and y translation mirrored against the height, every other entry kept (`FlipYInvolution`) |
| SvgBackend.FlipYInvolution | core/src/main/java/kr/edoli/edolview/ui/vg/SimpleVG.kt:147-157 | flipping a group transform twice against the same height gives it back |
| SvgBackend.YFlipped | core/src/main/java/kr/edoli/edolview/ui/vg/SimpleVG.kt:252-255 | the points `polygon` writes: one per input point, x kept and y mirrored so that old and new y sum to the height |
| SvgBackend.SvgSimpleVg.TransformY | core/src/main/java/kr/edoli/edolview/ui/vg/SimpleVG.kt:132-134 | `transformY`: the new y and the old one sum to the height |
| SvgBackend.YFlippedInvolution | core/src/main/java/kr/edoli/edolview/ui/vg/SimpleVG.kt:132-134 | flipping the y coordinates twice gives the points back |
| SvgBackend.SvgSimpleVg.constructor | core/src/main/java/kr/edoli/edolview/ui/vg/SimpleVG.kt:107-117 | empty buffers, no path started, stroke width 1, black stroke, white fill, size 0 |
| SvgBackend.SvgSimpleVg.BeginSvg | core/src/main/java/kr/edoli/edolview/ui/vg/SimpleVG.kt:119-124 | the document restarts with the opening tag and the size is recorded |
| SvgBackend.SvgSimpleVg.EndSvg | core/src/main/java/kr/edoli/edolview/ui/vg/SimpleVG.kt:126-129 | appends the closing tag and returns the document |
| SvgBackend.SvgSimpleVg.BeginPath | core/src/main/java/kr/edoli/edolview/ui/vg/SimpleVG.kt:136-139 | empties the path buffer and clears `pathStarted` |
| SvgBackend.SvgSimpleVg.ClosePath | core/src/main/java/kr/edoli/edolview/ui/vg/SimpleVG.kt:141-145 | appends ` Z` only to a started path |
| SvgBackend.SvgSimpleVg.BeginGroup | core/src/main/java/kr/edoli/edolview/ui/vg/SimpleVG.kt:147-157 | opens a group, with the transform flipped to SVG's y axis when one is given |
| SvgBackend.SvgSimpleVg.EndGroup | core/src/main/java/kr/edoli/edolview/ui/vg/SimpleVG.kt:159-161 | closes a group |
| SvgBackend.SvgSimpleVg.MoveTo | core/src/main/java/kr/edoli/edolview/ui/vg/SimpleVG.kt:163-166 | appends a move and marks the path started |
| SvgBackend.SvgSimpleVg.LineTo | core/src/main/java/kr/edoli/edolview/ui/vg/SimpleVG.kt:168-174 | appends a line to a started path; before any move it acts as a move to its end point |
| SvgBackend.SvgSimpleVg.QuadraticCurveTo | core/src/main/java/kr/edoli/edolview/ui/vg/SimpleVG.kt:176-182 | the same for a quadratic curve |
| SvgBackend.SvgSimpleVg.BezierCurveTo | core/src/main/java/kr/edoli/edolview/ui/vg/SimpleVG.kt:184-190 | the same for a cubic curve |
| SvgBackend.SvgSimpleVg.FillPath | core/src/main/java/kr/edoli/edolview/ui/vg/SimpleVG.kt:192-198 | emits the path filled when one has started, nothing otherwise; the path stays in its buffer |
| SvgBackend.SvgSimpleVg.StrokePath | core/src/main/java/kr/edoli/edolview/ui/vg/SimpleVG.kt:200-206 | the same, stroked |
| SvgBackend.SvgSimpleVg.StrokeAndFillPath | core/src/main/java/kr/edoli/edolview/ui/vg/SimpleVG.kt:208-215 | the same, stroked and filled |
| SvgBackend.SvgSimpleVg.Line | core/src/main/java/kr/edoli/edolview/ui/vg/SimpleVG.kt:225-228 | one line element in the stroke colour and width, y flipped |
| SvgBackend.SvgSimpleVg.Rect | core/src/main/java/kr/edoli/edolview/ui/vg/SimpleVG.kt:230-235 | one rectangle placed by its far edge's flipped y, painted by shape type |
| SvgBackend.SvgSimpleVg.Circle | core/src/main/java/kr/edoli/edolview/ui/vg/SimpleVG.kt:237-241 | one circle element painted by shape type |
| SvgBackend.SvgSimpleVg.Ellipse | core/src/main/java/kr/edoli/edolview/ui/vg/SimpleVG.kt:243-247 | one ellipse element painted by shape type |
| SvgBackend.SvgSimpleVg.Polygon | core/src/main/java/kr/edoli/edolview/ui/vg/SimpleVG.kt:249-259 | nothing below four coordinates; an odd count throws before emitting; otherwise one polygon through the flipped points |
| SvgBackend.SvgSimpleVg.Text | core/src/main/java/kr/edoli/edolview/ui/vg/SimpleVG.kt:261-276 | one text element in the fill colour, lowered by the font size, anchored by alignment |
| SvgBackend.SvgSimpleVg.SetStrokeWidth | core/src/main/java/kr/edoli/edolview/ui/vg/SimpleVG.kt:278-280 | only the stroke width changes |
| SvgBackend.SvgSimpleVg.SetStrokeColor | core/src/main/java/kr/edoli/edolview/ui/vg/SimpleVG.kt:282-284 | only the stroke colour changes |
| SvgBackend.SvgSimpleVg.SetFillColor | core/src/main/java/kr/edoli/edolview/ui/vg/SimpleVG.kt:286-288 | only the fill colour changes |
| SvgBackend.SvgSimpleVg.Dispose | core/src/main/java/kr/edoli/edolview/ui/vg/SimpleVG.kt:311-315 | both buffers emptied; `pathStarted` survives, so the state is consistent again only if no path had started |
| GdxBackend.DrawPolylines | core/src/main/java/kr/edoli/edolview/ui/vg/SimpleVG.kt:492-509 | `drawPolyline` as written, returning at the first polyline with fewer than two points (`DrawPolylinesStopsEarly`, `StopsAtEmpty`, `DrawPolylinesAgree`) |
| GdxBackend.DrawPolylinesFixed | core/src/main/java/kr/edoli/edolview/ui/vg/SimpleVG.kt:492-509 | `drawPolyline` with `continue`: every polyline of two points or more drawn, in order (`DrawPolylinesFixedConcat`, `DrawPolylinesAgree`) |
| GdxBackend.StrokeLines | core/src/main/java/kr/edoli/edolview/ui/vg/SimpleVG.kt:500-505 | one line per segment, in order, in the stroke colour and width |
| GdxBackend.DrawPolylinesAgree | core/src/main/java/kr/edoli/edolview/ui/vg/SimpleVG.kt:492-509 | when every polyline has two points or more, `drawPolyline` as written and the skipping version draw the same |
| GdxBackend.DrawPolylinesFixedConcat | core/src/main/java/kr/edoli/edolview/ui/vg/SimpleVG.kt:492-509 | the skipping version draws a concatenation as the two halves one after the other |
| GdxBackend.DrawPolylinesStopsEarly | core/src/main/java/kr/edoli/edolview/ui/vg/SimpleVG.kt:492-509 | a one-point polyline before a two-point one: as written nothing is drawn, the skipping version draws the second's line |
| GdxBackend.StopsAtEmpty | core/src/main/java/kr/edoli/edolview/ui/vg/SimpleVG.kt:492-509 | as written, nothing after the first polyline of fewer than two points is drawn |
| GdxBackend.ShapeAfterPendingPath | core/src/main/java/kr/edoli/edolview/ui/vg/SimpleVG.kt:329-331 | after `beginPath` empties the last pending polyline, a new shape is never drawn as written; the skipping version draws it after the others |
| GdxBackend.ClearedLast | core/src/main/java/kr/edoli/edolview/ui/vg/SimpleVG.kt:329-331 | `beginPath` empties the current polyline, which is the last pending one when it is still listed; nothing else changes |
| GdxBackend.QuadPoint | core/src/main/java/kr/edoli/edolview/ui/vg/SimpleVG.kt:360-372 | the quadratic Bezier point at `t = i / 10` (`CurveEnds`) |
| GdxBackend.CubicPoint | core/src/main/java/kr/edoli/edolview/ui/vg/SimpleVG.kt:374-386 | the cubic Bezier point at `t = i / 10` (`CurveEnds`) |
| GdxBackend.QuadPoints | core/src/main/java/kr/edoli/edolview/ui/vg/SimpleVG.kt:360-372 | a quadratic curve adds exactly 10 points |
| GdxBackend.CubicPoints | core/src/main/java/kr/edoli/edolview/ui/vg/SimpleVG.kt:374-386 | a cubic curve adds exactly 10 points |
| GdxBackend.CurveEnds | core/src/main/java/kr/edoli/edolview/ui/vg/SimpleVG.kt:360-386 | the samples run from the start point (step 0) to the end point (step 10) |
| GdxBackend.PushGroup | core/src/main/java/kr/edoli/edolview/ui/vg/SimpleVG.kt:337-342 | `beginGroup(t)` as written: the batch's own matrix pushed, then `t` copied into it (`EndGroupKeepsGroupTransform`, `PushAllAliases`) |
| GdxBackend.PushGroupCopy | core/src/main/java/kr/edoli/edolview/ui/vg/SimpleVG.kt:337-342 | `beginGroup(t)` pushing `cpy()` (`PopPushGroupCopy`, `NestedGroupsCopy`) |
| GdxBackend.PopGroup | core/src/main/java/kr/edoli/edolview/ui/vg/SimpleVG.kt:344-347 | `endGroup()`: the last entry's current values copied into the batch's matrix, `NoSuchElementException` on an empty stack (`PopAliases`, `PopPushGroupCopy`) |
| GdxBackend.EndGroupKeepsGroupTransform | core/src/main/java/kr/edoli/edolview/ui/vg/SimpleVG.kt:337-347 | as written, `endGroup` after `beginGroup(t)` restores the stack but leaves the transform `t`; the state is restored exactly when `t` is null or equal to the old transform |
| GdxBackend.EndGroupLeaksTransform | core/src/main/java/kr/edoli/edolview/ui/vg/SimpleVG.kt:337-347 | a concrete group whose transform survives its `endGroup` |
| GdxBackend.PopPushGroupCopy | core/src/main/java/kr/edoli/edolview/ui/vg/SimpleVG.kt:337-347 | pushing `cpy()` instead, `endGroup` after `beginGroup` restores the stack and the transform |
| GdxBackend.PushAllAliases | core/src/main/java/kr/edoli/edolview/ui/vg/SimpleVG.kt:337-342 | as written, nested `beginGroup`s push only references to the batch's own matrix, which ends with the last transform set |
| GdxBackend.PopAliases | core/src/main/java/kr/edoli/edolview/ui/vg/SimpleVG.kt:344-347 | popping references to the batch's own matrix leaves its values unchanged |
| GdxBackend.NestedGroups | core/src/main/java/kr/edoli/edolview/ui/vg/SimpleVG.kt:337-347 | as written, closing nested groups in turn restores the stack but leaves the transform of the last group that set one |
| GdxBackend.NestedGroupsCopy | core/src/main/java/kr/edoli/edolview/ui/vg/SimpleVG.kt:337-347 | pushing `cpy()` instead, closing nested groups in turn restores the original state |
| GdxBackend.EllipsePoints | core/src/main/java/kr/edoli/edolview/ui/vg/SimpleVG.kt:440-451 | one outline point per angle sample, in order |
| GdxBackend.CirclePoints | core/src/main/java/kr/edoli/edolview/ui/vg/SimpleVG.kt:433-444 | with equal radii and exact unit-circle samples, every outline point lies on the circle |
| GdxBackend.GdxSimpleVg.constructor | core/src/main/java/kr/edoli/edolview/ui/vg/SimpleVG.kt:319-326 | an empty current polyline, nothing pending, an empty group stack, stroke width 1, black stroke, white fill |
| GdxBackend.GdxSimpleVg.BeginPath | core/src/main/java/kr/edoli/edolview/ui/vg/SimpleVG.kt:329-331 | empties the current polyline; the pending list changes as `ClearedLast` says |
| GdxBackend.GdxSimpleVg.ClosePath | core/src/main/java/kr/edoli/edolview/ui/vg/SimpleVG.kt:333-335 | closes the current polyline, which changes the pending list only when it is listed |
| GdxBackend.GdxSimpleVg.MoveTo | core/src/main/java/kr/edoli/edolview/ui/vg/SimpleVG.kt:349-354 | a fresh one-point polyline becomes current and is appended to the pending list |
| GdxBackend.GdxSimpleVg.LineTo | core/src/main/java/kr/edoli/edolview/ui/vg/SimpleVG.kt:356-358 | appends a point to the current polyline, listed or not |
| GdxBackend.GdxSimpleVg.QuadraticCurveTo | core/src/main/java/kr/edoli/edolview/ui/vg/SimpleVG.kt:360-372 | appends the 10 curve samples from the last point, or nothing when the polyline is empty |
| GdxBackend.GdxSimpleVg.BezierCurveTo | core/src/main/java/kr/edoli/edolview/ui/vg/SimpleVG.kt:374-386 | the same for the cubic curve |
| GdxBackend.GdxSimpleVg.DrawPolyline | core/src/main/java/kr/edoli/edolview/ui/vg/SimpleVG.kt:492-509 | draws exactly `DrawPolylines` of the given polylines, changing nothing else |
| GdxBackend.GdxSimpleVg.DrawOne | core/src/main/java/kr/edoli/edolview/ui/vg/SimpleVG.kt:495-507 | one polyline: its filled polygon when asked and it has more than two points, then its segments when asked |
| GdxBackend.GdxSimpleVg.PaintPaths | core/src/main/java/kr/edoli/edolview/ui/vg/SimpleVG.kt:388-404 | draws the pending polylines and then empties the pending list and starts a new current polyline |
| GdxBackend.GdxSimpleVg.FillPath | core/src/main/java/kr/edoli/edolview/ui/vg/SimpleVG.kt:388-392 | paints the pending polylines filled |
| GdxBackend.GdxSimpleVg.StrokePath | core/src/main/java/kr/edoli/edolview/ui/vg/SimpleVG.kt:394-398 | paints them stroked |
| GdxBackend.GdxSimpleVg.StrokeAndFillPath | core/src/main/java/kr/edoli/edolview/ui/vg/SimpleVG.kt:400-404 | paints them filled and stroked |
| GdxBackend.GdxSimpleVg.ExecuteShapeType | core/src/main/java/kr/edoli/edolview/ui/vg/SimpleVG.kt:406-412 | paints with fill and stroke as the shape type says |
| GdxBackend.GdxSimpleVg.BeginGroup | core/src/main/java/kr/edoli/edolview/ui/vg/SimpleVG.kt:337-342 | the group state becomes `PushGroup`: the batch's own matrix is pushed, not a copy, and then takes the given transform's values |
| GdxBackend.GdxSimpleVg.EndGroup | core/src/main/java/kr/edoli/edolview/ui/vg/SimpleVG.kt:344-347 | pops the last entry and copies its values into the batch's matrix (`PopGroup`), or throws `NoSuchElementException` on an empty stack and changes nothing |
| GdxBackend.GdxSimpleVg.Line | core/src/main/java/kr/edoli/edolview/ui/vg/SimpleVG.kt:414-417 | one line in the stroke colour and width |
| GdxBackend.GdxSimpleVg.Rect | core/src/main/java/kr/edoli/edolview/ui/vg/SimpleVG.kt:419-431 | a filled rectangle for fill types, then its four edges for stroke types, which are the segments of its closed outline |
| GdxBackend.GdxSimpleVg.Polygon | core/src/main/java/kr/edoli/edolview/ui/vg/SimpleVG.kt:458-471 | nothing below four coordinates; an odd count throws with the open sub-path left pending; otherwise the closed polygon is painted after the other pending sub-paths; below four coordinates the pending sub-paths are unchanged |
| GdxBackend.GdxSimpleVg.TracePolygon | core/src/main/java/kr/edoli/edolview/ui/vg/SimpleVG.kt:460-466 | the new sub-path holds the coordinate pairs, the last lone coordinate dropped when the count is odd |
| GdxBackend.GdxSimpleVg.StartPath | core/src/main/java/kr/edoli/edolview/ui/vg/SimpleVG.kt:460-462 | `beginPath` then `moveTo`: a fresh one-point sub-path after the pending ones |
| GdxBackend.GdxSimpleVg.LineToEach | core/src/main/java/kr/edoli/edolview/ui/vg/SimpleVG.kt:464-466 | `polygon`'s loop: one point per pair, reporting when an odd count runs out |
| GdxBackend.GdxSimpleVg.Ellipse | core/src/main/java/kr/edoli/edolview/ui/vg/SimpleVG.kt:437-456 | the closed outline through the 25 samples is painted after the other pending sub-paths |
| GdxBackend.GdxSimpleVg.Circle | core/src/main/java/kr/edoli/edolview/ui/vg/SimpleVG.kt:433-435 | an ellipse with both radii equal |
| GdxBackend.GdxSimpleVg.TraceEllipse | core/src/main/java/kr/edoli/edolview/ui/vg/SimpleVG.kt:438-451 | the new sub-path holds the outline points in order |
| GdxBackend.GdxSimpleVg.LineToSamples | core/src/main/java/kr/edoli/edolview/ui/vg/SimpleVG.kt:440-451 | `ellipse`'s loop: a line to each further outline point |
| GdxBackend.GdxSimpleVg.Text | core/src/main/java/kr/edoli/edolview/ui/vg/SimpleVG.kt:473-478 | one text draw in the fill colour; the rest of the state is unchanged |
| GdxBackend.GdxSimpleVg.SetStrokeWidth | core/src/main/java/kr/edoli/edolview/ui/vg/SimpleVG.kt:480-482 | only the stroke width changes |
| GdxBackend.GdxSimpleVg.SetStrokeColor | core/src/main/java/kr/edoli/edolview/ui/vg/SimpleVG.kt:484-486 | only the stroke colour changes |
| GdxBackend.GdxSimpleVg.SetFillColor | core/src/main/java/kr/edoli/edolview/ui/vg/SimpleVG.kt:488-490 | only the fill colour changes |
| ImageStore.Squeeze | core/src/main/java/kr/edoli/edolview/store/ImageStore.kt:135-141 | what the `while (contains("//"))` loop of `process` computes: every run of slashes collapsed to one (`SqueezeHasNoDoubleSlash`, `SqueezeReplaceAll`, `SqueezeIdempotent`) |
| ImageStore.ReplaceAll | core/src/main/java/kr/edoli/edolview/store/ImageStore.kt:138 | `replace("//", "/")` never lengthens, and shortens whenever a `//` is present |
| ImageStore.HasDoubleSlashCons | core/src/main/java/kr/edoli/edolview/store/ImageStore.kt:137 | where a `//` can be: at the front or in the tail |
| ImageStore.SqueezeFirst | core/src/main/java/kr/edoli/edolview/store/ImageStore.kt:135-141 | collapsing keeps the first character |
| ImageStore.SqueezePrepend | core/src/main/java/kr/edoli/edolview/store/ImageStore.kt:135-141 | collapsing works from the back, one character at a time |
| ImageStore.SqueezeReplaceAll | core/src/main/java/kr/edoli/edolview/store/ImageStore.kt:137-139 | one pass of `replace` does not change the final result, the loop's invariant |
| ImageStore.SqueezeNoDoubleSlash | core/src/main/java/kr/edoli/edolview/store/ImageStore.kt:135-141 | a name without `//` is its own result |
| ImageStore.SqueezeHasNoDoubleSlash | core/src/main/java/kr/edoli/edolview/store/ImageStore.kt:135-141 | the result never contains `//` |
| ImageStore.SqueezeIdempotent | core/src/main/java/kr/edoli/edolview/store/ImageStore.kt:135-141 | processing twice equals processing once |
| ImageStore.ReplaceAllNoDoubleSlash | core/src/main/java/kr/edoli/edolview/store/ImageStore.kt:138 | `replace` leaves a name without `//` alone |
| ImageStore.Process | core/src/main/java/kr/edoli/edolview/store/ImageStore.kt:135-141 | the loop ends with the collapsed name, which contains no `//` |
| ImageStore.CheckMagicNumber | core/src/main/java/kr/edoli/edolview/store/ImageStore.kt:106-113 | true exactly when the bytes start with the magic number; throws exactly when the bytes are a proper prefix of it; false otherwise |
| ImageStore.ImageCache.constructor | core/src/main/java/kr/edoli/edolview/store/ImageStore.kt:24-32 | an empty cache that has loaded nothing |
| ImageStore.ImageCache.Lookup | core/src/main/java/kr/edoli/edolview/store/ImageStore.kt:126 | a cached key is returned without loading; a missing one is loaded once and cached |
| ImageStore.ImageCache.Invalidate | core/src/main/java/kr/edoli/edolview/store/ImageStore.kt:129 | drops one key and nothing else |
| ImageStore.ImageCache.Get | core/src/main/java/kr/edoli/edolview/store/ImageStore.kt:124-132 | the result, the cache and the loads follow `GetSpec` |
| ImageStore.ImageCache.ClearCache | core/src/main/java/kr/edoli/edolview/store/ImageStore.kt:115-118 | the cache is empty |
| ImageStore.GetSpec | core/src/main/java/kr/edoli/edolview/store/ImageStore.kt:124-132 | a current cached image is returned with no load; anything else is loaded fresh; only the processed key changes; at most two loads, the second exactly when a missing key loads a stale or empty image |
| ImageStore.GetRepeat | core/src/main/java/kr/edoli/edolview/store/ImageStore.kt:124-132 | a second `get` of the same processed path and time, after a current result, returns it again and changes nothing |
| PfmHeader.CountNLConcat | core/src/main/java/kr/edoli/edolview/store/ImageStore.kt:56-58 | line counting is additive over concatenation |
| PfmHeader.SplitFirst | core/src/main/java/kr/edoli/edolview/store/ImageStore.kt:54-67 | a byte sequence with a newline is its first line, the newline and the rest |
| PfmHeader.FirstLineOf | core/src/main/java/kr/edoli/edolview/store/ImageStore.kt:54-67 | the first line of `l + NL + rest` is `l` and the rest is `rest` |
| PfmHeader.Header | core/src/main/java/kr/edoli/edolview/store/ImageStore.kt:54-67 | the bytes the loop reads: up to and including the third newline |
| PfmHeader.HeaderIsPrefix | core/src/main/java/kr/edoli/edolview/store/ImageStore.kt:54-67 | what the loop reads is a prefix of the file |
| PfmHeader.HeaderCountNL | core/src/main/java/kr/edoli/edolview/store/ImageStore.kt:54-58 | it holds exactly three newlines |
| PfmHeader.HeaderMinimal | core/src/main/java/kr/edoli/edolview/store/ImageStore.kt:54-58 | and no shorter prefix holds three: reading stops at the third newline |
| PfmHeader.StripLine | core/src/main/java/kr/edoli/edolview/store/ImageStore.kt:60-65 | a line ending in a space has that space replaced by the newline; any other line is copied with its newline |
| PfmHeader.CleanHeader | core/src/main/java/kr/edoli/edolview/store/ImageStore.kt:54-67 | the rewritten header, never longer than the header read |
| PfmHeader.Zeros | core/src/main/java/kr/edoli/edolview/store/ImageStore.kt:45 | a fresh `ByteArray` is all zeros |
| PfmHeader.Rewritten | core/src/main/java/kr/edoli/edolview/store/ImageStore.kt:44-68 | the buffer after the header loop and `readNBytes` has the file's length |
| PfmHeader.FoldFromConcat | core/src/main/java/kr/edoli/edolview/store/ImageStore.kt:54-67 | the byte-by-byte loop over a concatenation is the loop over one part after the other |
| PfmHeader.FoldNoNewline | core/src/main/java/kr/edoli/edolview/store/ImageStore.kt:60-65 | bytes of a line before its newline are copied unchanged |
| PfmHeader.FoldLine | core/src/main/java/kr/edoli/edolview/store/ImageStore.kt:60-65 | one whole line through the loop gives `StripLine` of it |
| PfmHeader.FoldHeader | core/src/main/java/kr/edoli/edolview/store/ImageStore.kt:54-67 | the loop over the header produces `CleanHeader` |
| PfmHeader.ReadOne | core/src/main/java/kr/edoli/edolview/store/ImageStore.kt:55-66 | reading one more byte adds its newline to the count and one loop step to the output |
| PfmHeader.RewriteHeader | core/src/main/java/kr/edoli/edolview/store/ImageStore.kt:44-68 | succeeds exactly when the file has three newlines, giving `Rewritten` |
| PfmHeader.ReadHeaderLines | core/src/main/java/kr/edoli/edolview/store/ImageStore.kt:54-67 | the in-place loop reads exactly the header, writes `CleanHeader` to the front of the buffer and leaves the rest zero; it throws exactly when the file has fewer than three newlines |
| PfmHeader.ReadNotPastHeader | core/src/main/java/kr/edoli/edolview/store/ImageStore.kt:54-67 | while fewer than three newlines have been read, reading stays inside the header |
| PfmHeader.ReadStep | core/src/main/java/kr/edoli/edolview/store/ImageStore.kt:55-66 | one iteration preserves the loop invariant |
| PfmHeader.ReadDone | core/src/main/java/kr/edoli/edolview/store/ImageStore.kt:54-67 | at three newlines the loop has read the header and written `CleanHeader` |
| PfmHeader.Emit | core/src/main/java/kr/edoli/edolview/store/ImageStore.kt:60-65 | one byte either replaces a trailing space by the newline or is appended; appending past the end throws |
| PfmHeader.EmitIsStep | core/src/main/java/kr/edoli/edolview/store/ImageStore.kt:60-65 | writing into the buffer matches one step of the loop on sequences |
| PfmHeader.ReadNBytes | core/src/main/java/kr/edoli/edolview/store/ImageStore.kt:68 | copies the rest of the file after the bytes kept, leaving the front and the tail alone |
| PfmHeader.RewrittenByLines | core/src/main/java/kr/edoli/edolview/store/ImageStore.kt:44-68 | three header lines are each stripped of one trailing space, the body follows, and one zero per stripped space pads the end |
| PfmHeader.PfmHeaderLines | core/src/main/java/kr/edoli/edolview/store/ImageStore.kt:54-67 | for a file of three lines and a body, the header is the three lines and `CleanHeader` strips each |
| PfmHeader.StripLineLength | core/src/main/java/kr/edoli/edolview/store/ImageStore.kt:60-65 | each line shrinks by one byte exactly when it ends in a space |
| PfmHeader.HeaderOfLine | core/src/main/java/kr/edoli/edolview/store/ImageStore.kt:54-67 | header and rewritten header of `l + NL + rest` start with `l` and its stripped form |
| MatExt.Wrap32 | core/src/main/java/kr/edoli/edolview/image/MatExt.kt:338-339 | Kotlin `Int` arithmetic: the value modulo 2^32 in `Int` range, and the value itself when it fits |
| MatExt.Wrap32Shift | core/src/main/java/kr/edoli/edolview/image/MatExt.kt:338-339 | wrapping ignores multiples of 2^32 |
| MatExt.Depth | core/src/main/java/kr/edoli/edolview/image/MatExt.kt:324-325 | the depth of a type code is one of the eight OpenCV depths |
| MatExt.Channels | core/src/main/java/kr/edoli/edolview/image/MatExt.kt:309-322 | the channel count is between 1 and 512 |
| MatExt.MakeType | core/src/main/java/kr/edoli/edolview/image/MatExt.kt:309-322 | `CV_MAKETYPE` packs depth and channels so that both read back |
| MatExt.MakeTypeOf | core/src/main/java/kr/edoli/edolview/image/MatExt.kt:309-322 | every type code is `MakeType` of its depth and channels |
| MatExt.ElemSize1 | core/src/main/java/kr/edoli/edolview/image/MatExt.kt:338-339 | bytes per channel: 1 for 8-bit, 2 for 16-bit, 4 for 32-bit, 8 for 64-bit depths |
| MatExt.BitsPerPixel | core/src/main/java/kr/edoli/edolview/image/MatExt.kt:324-336 | `bitsPerPixel` by depth (`BitsPerPixelElemSize`) |
| MatExt.BitsPerPixelElemSize | core/src/main/java/kr/edoli/edolview/image/MatExt.kt:324-336 | `bitsPerPixel` is eight times the channel size for each of the eight depths, and -1 exactly for anything else |
| MatExt.TypeMax | core/src/main/java/kr/edoli/edolview/image/MatExt.kt:309-322 | `typeMax` by type (`TypeMaxKnown`, `TypeMaxLargest`) |
| MatExt.TypeMaxKnown | core/src/main/java/kr/edoli/edolview/image/MatExt.kt:309-322 | `typeMax` is -1 exactly for the types outside the nine it lists |
| MatExt.TypeMaxLargest | core/src/main/java/kr/edoli/edolview/image/MatExt.kt:309-322 | for a listed type it is the largest value of the depth: 2^8-1, 2^16-1 or 2^31-1 |
| MatExt.ContainsPoint | core/src/main/java/kr/edoli/edolview/image/MatExt.kt:29-32 | `contains(point)`: both coordinates non-negative and below the width and height (`ContainsFixedPixels`) |
| MatExt.Contains | core/src/main/java/kr/edoli/edolview/image/MatExt.kt:24-27 | `contains(rect)` as written, with `Int` sums that wrap (`ContainsAgree`, `ContainsOverflow`) |
| MatExt.ContainsFixed | core/src/main/java/kr/edoli/edolview/image/MatExt.kt:24-27 | `contains(rect)` compared without overflow (`ContainsAgree`, `ContainsFixedPixels`) |
| MatExt.ContainsAgree | core/src/main/java/kr/edoli/edolview/image/MatExt.kt:24-28 | when the right and bottom edges fit in an `Int`, `contains` as written is the mathematical containment |
| MatExt.ContainsOverflow | core/src/main/java/kr/edoli/edolview/image/MatExt.kt:24-28 | `Rect(1, 0, Int.MAX_VALUE, 1)` in a 1x1 Mat: as written it is contained, although its pixel (1, 0) is not |
| MatExt.ContainsFixedPixels | core/src/main/java/kr/edoli/edolview/image/MatExt.kt:24-33 | containment without overflow holds exactly when every pixel of a non-empty rectangle is a point `contains(point)` accepts |
| MatExt.Bound | core/src/main/java/kr/edoli/edolview/image/MatExt.kt:304-306 | `bound()` is contained, and every contained rectangle ends within it |
| MatExt.ElemSize | core/src/main/java/kr/edoli/edolview/image/MatExt.kt:338-339 | bytes per element are between 1 and 8 * 512 |
| MatExt.NBytes | core/src/main/java/kr/edoli/edolview/image/MatExt.kt:338-339 | `nbytes` with its `Int` arithmetic (`NBytesSize`) |
| MatExt.NBytesSize | core/src/main/java/kr/edoli/edolview/image/MatExt.kt:338-339 | `nbytes` is rows * cols * elemSize wrapped to an `Int`, and exact when that fits |
| MatExt.Binary | core/src/main/java/kr/edoli/edolview/image/MatExt.kt:36-48 | a Mat-Mat operator throws exactly when type, rows or cols differ; otherwise the result has the left operand's shape and type |
| MatExt.BinaryChain | core/src/main/java/kr/edoli/edolview/image/MatExt.kt:36-48 | the shape check is symmetric, and chaining a second operator on the result is checked as on the left operand |
| MatExt.MatObj.constructor | core/src/main/java/kr/edoli/edolview/image/MatExt.kt:62-71 | a Mat with its header and no operations applied |
| MatExt.MatObj.OpAssign | core/src/main/java/kr/edoli/edolview/image/MatExt.kt:62-71 | `+=`, `-=`, `*=`, `/=` with a Mat: mutates exactly when the shape check passes, keeping the header; otherwise throws and changes nothing |
| MatExt.MatObj.OpAssignScalar | core/src/main/java/kr/edoli/edolview/image/MatExt.kt:73-75 | the scalar forms always apply |
| MatExt.MatObj.PowAssign | core/src/main/java/kr/edoli/edolview/image/MatExt.kt:220-222 | `powAssign` always applies |
| MatExt.Elements | core/src/main/java/kr/edoli/edolview/image/MatExt.kt:389-390 | a Kotlin `first..last` range holds `first` to `last` inclusive |
| MatExt.Indices | core/src/main/java/kr/edoli/edolview/image/MatExt.kt:8-10 | an OpenCV `Range(start, end)` holds `start` to `end` exclusive |
| MatExt.Cv | core/src/main/java/kr/edoli/edolview/image/MatExt.kt:389-390 | `IntRange.cv` as written, `Range(first, last)` (`CvDropsLast`) |
| MatExt.CvDropsLast | core/src/main/java/kr/edoli/edolview/image/MatExt.kt:389-390 | `IntRange.cv` selects every element of the Kotlin range but the last |
| MatExt.CvFixed | core/src/main/java/kr/edoli/edolview/image/MatExt.kt:389-390 | `Range(first, last + 1)` selects exactly the Kotlin range |
| MatExt.Submat | core/src/main/java/kr/edoli/edolview/image/MatExt.kt:8-10 | `submat` succeeds exactly for ranges inside a two-dimensional Mat (`Range.all()` selecting a whole dimension), with one row and column per index, and is the empty 0 x 0 Mat when either range is empty |
| MatExt.Get | core/src/main/java/kr/edoli/edolview/image/MatExt.kt:8-10 | `operator fun Mat.get(rowRange, colRange)`: `submat` of the converted ranges (`GetWholeMat`, `GetDefaultMat`) |
| MatExt.GetFixed | core/src/main/java/kr/edoli/edolview/image/MatExt.kt:8-10 | the same with `CvFixed` (`GetWholeMat`) |
| MatExt.SubmatAll | core/src/main/java/kr/edoli/edolview/image/MatExt.kt:8-10 | `Range.all()` on both dimensions selects the whole of a two-dimensional Mat, and throws on `Mat()` |
| MatExt.GetDefaultMat | core/src/main/java/kr/edoli/edolview/image/MatExt.kt:8-10 | every `mat[rowRange, colRange]` on the `Mat()` the image loader returns on failure throws |
| MatExt.GetWholeMat | core/src/main/java/kr/edoli/edolview/image/MatExt.kt:8-10 | `mat[0 until rows, 0 until cols]` written as `0..rows-1`: as written it yields (rows-1) x (cols-1), or the empty Mat for a single row or column; with `CvFixed` the whole Mat |

## Left out

- RxJava's `BehaviorSubject` is modelled only as the latest value plus one delivery log per subscription. Callback bodies (`onNext`) and scheduling are not modelled.
- An action that throws inside `update` would skip `pop` and leave the node locked out of updates. Dafny has no exceptions, so actions always return.
- `ObservableContext.kt` is not part of this model. Its guard is modelled from its use in `update` as a set of in-flight node ids. The registries and the eager observable kinds are not modelled either.
- `doExecuteCount` is an unbounded integer. A 32-bit overflow would take 2^31 subscriptions.
- The timing in `executeUpdate` (`System.nanoTime`) is not modelled, because it is a clock reading. `BaseObservables.BaseObservable.SetLastTotalUpdateTime` takes the time and the current stack as parameters.
- Histograms.Histogram.constructor: requires `n >= 0`, because a Dafny array cannot have a negative length. `Histograms.NewHistogram` models the `NegativeArraySizeException` for a negative `n`.
- `Histogram.computeHistMat` and `Histogram.value` are left out: they compute in doubles and read pixel data from a `Mat`.
- Histograms.Histogram.AddDataPoint: the invariant that `maxFreq` is the largest bin is promised only while no bin sits at `Int.MAX_VALUE`. A bin there wraps to `Int.MIN_VALUE`, and the running maximum then no longer matches.
- Floating-point coordinates are modelled as reals, so single-precision rounding is not modelled. This covers the curve samples, the `transformY` arithmetic and the y-flip of matrices.
- SVG text formatting is not modelled: number formatting, colour and opacity strings, and the matrix-to-`transform` string. SVG elements are kept as structured values.
- The libGDX ellipse trigonometry is not computed. `GdxBackend.GdxSimpleVg.Ellipse` and `Circle` take the 25 unit-circle samples as a parameter.
- GdxBackend.CirclePoints: proved only for exact unit-circle samples. The single-precision samples of the source lie only near the circle.
- The libGDX batch and font are not modelled: their drawing calls are recorded in the log `drawn`.
- A libGDX `Matrix4` is modelled by its values. The one shared matrix object, the batch's own, is modelled by the entries `GdxBackend.Saved.BatchMatrix` on the group stack.
- SvgBackend.SvgSimpleVg.Dispose: ensures only that `Valid()` holds again exactly when no path was started. Every other method requires `Valid()`, so using the object after disposing it with a path open is not modelled; the widget disposes it last.
- `SVGSimpleVG.svgShapeTypeToSVG` and `colorToRGBString` produce attribute strings. They are modelled by `SvgBackend.ShapePaint`, whose result is structured paint, not text.
- The Guava cache's size-based eviction and `removalListener` are left out, as is `loadFromPath`'s file I/O and image decoding. Loading is the parameter `load`.
- `get(file: File)` is left out: it only reads the file's path and time.
- The PFM scale parsing (`mat *= abs(scale)`) is not modelled, because it parses doubles.
- The OpenCV numerics of `MatExt.kt` are not modelled: `Core.add/subtract/multiply/divide/pow`, `split`, `sum`, `min`, `max`, `minMax`, `normalize` and the `to*Array` copies. These are foreign calls over doubles. The in-place operators record which operation they asked for.
- The value-returning operators (`plus`, `minus`, `times`, `div`, the scalar and unary forms, `pow`) are modelled only through their shape check, `MatExt.Binary`. They allocate a new `Mat` and compute in doubles.
- The pixel accessors `get(rect)`, `get(row, col, channel)` and `get(point)` are left out. They are direct OpenCV calls.
- A Mat's `dims()` is modelled as 0 (the default `Mat()`) or 2. Mats of more than two dimensions are not modelled.
- OpenCV's failed assertion in `submat` and the shape errors of the operators are all the one failure `OperandMismatch`; the exception types and messages are not modelled.
- MatExt.CvFixed: requires `last < Int.MAX_VALUE`, because `last + 1` would overflow an `Int`.
- MatExt.NBytesSize: `elemSize()` is a `Long` in OpenCV's Java API. The model wraps the product to an `Int` twice, matching the Kotlin code's `Int` multiplication followed by `toInt()`.
- `Rectangle.cv`, `Point2D.cv` and `Rect.set` are left out. They are float-to-int copies outside the listed operations.

## Findings

| source | as written | input that shows it | evidently intended | confidence | as-written member | corrected member |
|---|---|---|---|---|---|---|
| core/src/main/java/kr/edoli/edolview/util/ObservableLazyValue.kt:34-41 | `unsubscribe(subject)` decrements the demand counter for each matching eager subscriber, then calls `unsubscribe(it)`, which decrements again | one eager subscriber under subject 1, then `unsubscribe(1)`: the counter goes from 1 to -1 | decrement once per removed eager subscriber | high (not executed) | LazyCell.UnsubscribeSubjectEffect | LazyCell.UnsubscribeSubjectFixedKeepsDemand |
| core/src/main/java/kr/edoli/edolview/util/ObservableLazyValue.kt:43-49 | `unsubscribe(subscriber)` decrements whether or not the subscriber is still in the list | unsubscribing the same eager subscriber twice: the counter goes from 1 to -1 | decrement only when a record was actually removed | high (not executed) | LazyCell.UnsubscribeTwice | LazyCell.UnsubscribeCheckedKeepsDemand |
| core/src/main/java/kr/edoli/edolview/util/ObservableLazyValue.kt:91-94 | `reset` drops the pending action and publishes the initial value but keeps the cached value | cached value 7, initial value 0, then `reset()`: `get()` returns 7 while `once` delivers 0 | `get()` after `reset` returns the initial value | medium (not executed) | LazyCell.ResetLeavesStaleValue | LazyCell.ResetFixedYieldsInitial |
| core/src/main/java/kr/edoli/edolview/ui/vg/SimpleVG.kt:492-509 | `drawPolyline` `return`s at the first polyline with fewer than two points, so every later polyline is skipped | a pending one-point sub-path followed by a two-point one, stroked: nothing is drawn | skip that polyline (`continue`) and draw the rest | medium (not executed) | GdxBackend.DrawPolylinesStopsEarly | GdxBackend.DrawPolylinesFixedConcat |
| core/src/main/java/kr/edoli/edolview/image/MatExt.kt:24-28 | `rect.x + rect.width` is `Int` addition and can wrap | `Rect(1, 0, Int.MAX_VALUE, 1)` in a 1x1 `Mat`: `contains` is true, although pixel (1, 0) is outside | compare without overflow | medium (not executed) | MatExt.ContainsOverflow | MatExt.ContainsFixedPixels |
| core/src/main/java/kr/edoli/edolview/image/MatExt.kt:389-390 | `IntRange.cv` is `Range(first, last)`, but OpenCV ranges exclude their end | `mat[0..rows-1, 0..cols-1]` on a `rows x cols` Mat gives `(rows-1) x (cols-1)`, and the empty Mat when `rows` is 1 | `Range(first, last + 1)` | medium (not executed) | MatExt.GetWholeMat | MatExt.CvFixed |
| core/src/main/java/kr/edoli/edolview/ui/vg/SimpleVG.kt:337-347 | `beginGroup` pushes `batch.transformMatrix`, which is the batch's own matrix object, and the setter then copies the new transform into that same object, so `endGroup` copies the matrix into itself | `beginGroup(t)` with `t` different from the current transform, then `endGroup()`: the batch keeps drawing with `t` | push `batch.transformMatrix.cpy()`, as `VGWidget` does around its own drawing | medium (not executed) | GdxBackend.EndGroupLeaksTransform | GdxBackend.NestedGroupsCopy |
