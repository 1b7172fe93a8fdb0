/**
 * The demand-gated lazy cell of util/ObservableLazyValue.kt, as a state machine
 * on values. Each operation of the cell is a function from the cell's state
 * (and its arguments) to the new state; the class in ObservableLazyValue.dfy
 * is proved to follow these functions, and the lemmas below state what the
 * operations promise.
 *
 * RxJava's BehaviorSubject is modelled by `latest` (the last value it was given,
 * which it replays to each new subscriber) and by one delivery log per
 * subscription, to which every publication appends while the subscription is live.
 */
module LazyCell {
  import opened Wrappers
  import opened Subscribers

  /** The identity of a node in the context's re-entrancy guard. */
  type NodeId = nat

  /**
   * A stored action `() -> T`. Its result is given; when invoked it first calls
   * `update(n)` on the same cell if `nested == Some(n)` (an action that re-triggers
   * its own cell), and then returns `result`.
   */
  datatype Action<T> = Action(result: T, nested: Option<Action<T>>)

  /** How deeply an action re-triggers its own cell. */
  function Depth<T>(a: Action<T>): nat
  {
    match a.nested
    case None => 0
    case Some(n) => 1 + Depth(n)
  }

  /** The state of one `ObservableLazyValue` together with the context's guard set. */
  datatype Cell<T> = Cell(
    id: NodeId,
    initValue: T,
    value: T,                      // the cached value
    stored: Option<Action<T>>,     // the pending action
    count: int,                    // doExecuteCount
    subscribers: seq<LazySubscriber>,
    latest: T,                     // the BehaviorSubject's current value
    logs: map<Handle, seq<T>>,     // what each subscription has been delivered
    live: set<Handle>,             // subscriptions not yet cancelled
    nextHandle: Handle,            // identity of the next subscription
    guard: set<NodeId>)            // ObservableContext's nodes in flight

  function StoredDepth<T>(s: Cell<T>): nat
  {
    if s.stored.Some? then Depth(s.stored.value) else 0
  }

  /** The state right after construction: the initial value is both cached and published. */
  function Init<T>(id: NodeId, initValue: T, guard: set<NodeId>): (s: Cell<T>)
    ensures s.value == s.latest == initValue && s.stored == None
    ensures s.count == 0 && s.subscribers == [] && s.live == {} && s.logs == map[]
  {
    Cell(id, initValue, initValue, None, 0, [], initValue, map[], {}, 0, guard)
  }

  /** `observable.onNext(v)`: every live subscription is delivered `v`, which becomes the latest value. */
  function Publish<T>(s: Cell<T>, v: T): (r: Cell<T>)
    ensures r.latest == v && r.logs.Keys == s.logs.Keys
    ensures forall h :: h in s.logs && h in s.live ==> r.logs[h] == s.logs[h] + [v]
    ensures forall h :: h in s.logs && h !in s.live ==> r.logs[h] == s.logs[h]
  {
    s.(latest := v, logs := map h | h in s.logs :: if h in s.live then s.logs[h] + [v] else s.logs[h])
  }

  /**
   * `update(action)`: a node already in the guard set ignores the call; otherwise
   * the action is stored and, if some subscriber asked for eager execution, run
   * at once; the guard is released before returning.
   */
  function Update<T>(s: Cell<T>, a: Action<T>, check: T -> T): Cell<T>
    decreases Depth(a), 2
  {
    if s.id in s.guard then s
    else
      var pushed := s.(guard := s.guard + {s.id}, stored := Some(a));
      var ran := if pushed.count > 0 then Execute(pushed, check) else pushed;
      ran.(guard := ran.guard - {s.id})
  }

  /** `executeUpdate()`: take the pending action out of its slot, then run it, if there is one. */
  function Execute<T>(s: Cell<T>, check: T -> T): Cell<T>
    decreases StoredDepth(s), 1
  {
    match s.stored
    case None => s
    case Some(a) => Fire(s.(stored := None), a, check)
  }

  /** Invoke `a`, validate its result with `check`, cache it and publish it. */
  function Fire<T>(s: Cell<T>, a: Action<T>, check: T -> T): Cell<T>
    decreases Depth(a), 0
  {
    var afterAction := match a.nested
      case None => s
      case Some(n) => Update(s, n, check);
    var v := check(a.result);
    Publish(afterAction.(value := v), v)
  }

  /** `get(doExecute)`: the new state and the value returned. */
  function Get<T>(s: Cell<T>, doExecute: bool, check: T -> T): (Cell<T>, T)
  {
    var t := if doExecute then Execute(s, check) else s;
    (t, t.value)
  }

  /**
   * `subscribe(subject, description, doExecute, onNext)`: the new state and the
   * record returned; `stack` is the caller's stack, captured by the record.
   */
  function Subscribe<T>(s: Cell<T>, subject: Subject, description: string, doExecute: bool,
                        stack: seq<Frame>, check: T -> T): (Cell<T>, LazySubscriber)
  {
    var forced := if doExecute then Execute(s.(count := s.count + 1), check) else s;
    var h := forced.nextHandle;
    var sub := NewLazySubscriber(subject, h, description, doExecute, stack);
    (forced.(nextHandle := h + 1, live := forced.live + {h},
             logs := forced.logs[h := [forced.latest]],
             subscribers := forced.subscribers + [sub]), sub)
  }

  /** `ArrayList.remove(x)`: drop the first element equal to `x`, if any. */
  function RemoveFirst(l: seq<LazySubscriber>, x: LazySubscriber): seq<LazySubscriber>
  {
    if l == [] then []
    else if LazyEquals(l[0], x) then l[1..]
    else [l[0]] + RemoveFirst(l[1..], x)
  }

  /** `unsubscribe(subscriber)`, as written: no check that `sub` is still subscribed. */
  function Unsubscribe<T>(s: Cell<T>, sub: LazySubscriber): Cell<T>
  {
    s.(count := if sub.doExecute then s.count - 1 else s.count,
       live := s.live - {sub.subscription},
       subscribers := RemoveFirst(s.subscribers, sub))
  }

  /** The subscribers registered under `subject`, in order (`subscribers.filter`). */
  function Matching(l: seq<LazySubscriber>, subject: Subject): (r: seq<LazySubscriber>)
    ensures forall i :: 0 <= i < |r| ==> r[i].subject == subject
  {
    if l == [] then []
    else if l[0].subject == subject then [l[0]] + Matching(l[1..], subject)
    else Matching(l[1..], subject)
  }

  /** The subscribers registered under any other subject, in order. */
  function NotMatching(l: seq<LazySubscriber>, subject: Subject): (r: seq<LazySubscriber>)
    ensures forall i :: 0 <= i < |r| ==> r[i].subject != subject
  {
    if l == [] then []
    else if l[0].subject != subject then [l[0]] + NotMatching(l[1..], subject)
    else NotMatching(l[1..], subject)
  }

  /** One iteration of the `forEach` in `unsubscribe(subject)`, as written: decrement, then `unsubscribe(it)`. */
  function SubjectStep<T>(s: Cell<T>, x: LazySubscriber): Cell<T>
  {
    Unsubscribe(s.(count := if x.doExecute then s.count - 1 else s.count), x)
  }

  /** The `forEach` over the filtered snapshot `xs`. */
  function SubjectSteps<T>(s: Cell<T>, xs: seq<LazySubscriber>): Cell<T>
    decreases |xs|
  {
    if xs == [] then s else SubjectSteps(SubjectStep(s, xs[0]), xs[1..])
  }

  /** `unsubscribe(subject)`, as written. */
  function UnsubscribeSubject<T>(s: Cell<T>, subject: Subject): Cell<T>
  {
    SubjectSteps(s, Matching(s.subscribers, subject))
  }

  /** `once(onNext, doExecute)`: the new state and the value delivered to `onNext`. */
  function Once<T>(s: Cell<T>, doExecute: bool, check: T -> T): (Cell<T>, T)
  {
    var t := if doExecute then Execute(s, check) else s;
    (t, t.latest)
  }

  /** `reset()`, as written: drop the pending action and publish the initial value. */
  function Reset<T>(s: Cell<T>): Cell<T>
  {
    Publish(s.(stored := None), s.initValue)
  }

  // ---------------------------------------------------------------------------
  // Demand accounting

  /** The number of subscribers that asked for eager execution. */
  function Demand(l: seq<LazySubscriber>): (n: nat)
    ensures n <= |l|
  {
    if l == [] then 0 else (if l[0].doExecute then 1 else 0) + Demand(l[1..])
  }

  /** The intended invariant: `doExecuteCount` counts the live `doExecute` subscriptions. */
  predicate DemandConsistent<T>(s: Cell<T>)
  {
    s.count == Demand(s.subscribers)
  }

  predicate Contains(l: seq<LazySubscriber>, x: LazySubscriber)
  {
    exists i :: 0 <= i < |l| && LazyEquals(l[i], x)
  }

  // ---------------------------------------------------------------------------
  // Running actions touches nothing but the value, the pending slot and the deliveries

  /** Everything an update leaves alone. */
  ghost predicate SameBookkeeping<T>(s: Cell<T>, t: Cell<T>)
  {
    t.id == s.id && t.initValue == s.initValue && t.count == s.count &&
    t.subscribers == s.subscribers && t.live == s.live && t.nextHandle == s.nextHandle &&
    t.guard == s.guard && t.logs.Keys == s.logs.Keys
  }

  lemma {:induction false} UpdateKeepsBookkeeping<T>(s: Cell<T>, a: Action<T>, check: T -> T)
    ensures SameBookkeeping(s, Update(s, a, check))
    decreases Depth(a), 2
  {
    if s.id !in s.guard {
      var pushed := s.(guard := s.guard + {s.id}, stored := Some(a));
      if pushed.count > 0 {
        FireKeepsBookkeeping(pushed.(stored := None), a, check);
      }
      assert (s.guard + {s.id}) - {s.id} == s.guard;
    }
  }

  lemma {:induction false} FireKeepsBookkeeping<T>(s: Cell<T>, a: Action<T>, check: T -> T)
    ensures SameBookkeeping(s, Fire(s, a, check))
    decreases Depth(a), 0
  {
    match a.nested
    case None =>
    case Some(n) => UpdateKeepsBookkeeping(s, n, check);
  }

  /** Forcing the pending action changes no subscription, demand count or guard. */
  lemma ExecuteKeepsBookkeeping<T>(s: Cell<T>, check: T -> T)
    ensures SameBookkeeping(s, Execute(s, check))
  {
    if s.stored.Some? {
      FireKeepsBookkeeping(s.(stored := None), s.stored.value, check);
    }
  }

  /** Running `a` caches and publishes its validated result; only a nested update touches the slot. */
  lemma FireEffect<T>(s: Cell<T>, a: Action<T>, check: T -> T)
    ensures Fire(s, a, check).value == check(a.result)
    ensures Fire(s, a, check).latest == check(a.result)
    ensures Fire(s, a, check).stored == match a.nested
      case None => s.stored
      case Some(n) => Update(s, n, check).stored
  {
  }

  /** Inside an update of the same node, a further update leaves the pending slot alone. */
  lemma FireGuardedKeepsStored<T>(s: Cell<T>, a: Action<T>, check: T -> T)
    requires s.id in s.guard
    ensures Fire(s, a, check).stored == s.stored
  {
    FireEffect(s, a, check);
  }

  /**
   * What an update leaves in the pending slot: nothing changes for a node already
   * in flight; with demand the action is consumed; without demand it waits.
   */
  lemma UpdateStored<T>(s: Cell<T>, a: Action<T>, check: T -> T)
    ensures Update(s, a, check).stored ==
      if s.id in s.guard then s.stored else if s.count > 0 then None else Some(a)
  {
    if s.id !in s.guard && s.count > 0 {
      var pushed := s.(guard := s.guard + {s.id}, stored := Some(a));
      FireGuardedKeepsStored(pushed.(stored := None), a, check);
    }
  }

  // ---------------------------------------------------------------------------
  // update

  /** A node already in the guard set ignores `update` entirely. */
  lemma UpdateWhenInFlight<T>(s: Cell<T>, a: Action<T>, check: T -> T)
    requires s.id in s.guard
    ensures Update(s, a, check) == s
  {
  }

  /** Without demand, `update(a)` only stores `a`: no value changes and nothing is published. */
  lemma UpdateWithoutDemand<T>(s: Cell<T>, a: Action<T>, check: T -> T)
    requires s.id !in s.guard && s.count <= 0
    ensures Update(s, a, check) == s.(stored := Some(a))
  {
    assert (s.guard + {s.id}) - {s.id} == s.guard;
  }

  /** With demand, `update(a)` runs `a` at once: its validated result is cached and published. */
  lemma UpdateWithDemand<T>(s: Cell<T>, a: Action<T>, check: T -> T)
    requires s.id !in s.guard && s.count > 0
    ensures Update(s, a, check).value == check(a.result)
    ensures Update(s, a, check).latest == check(a.result)
    ensures Update(s, a, check).stored == None
    ensures Update(s, a, check).guard == s.guard
  {
    UpdateStored(s, a, check);
    UpdateKeepsBookkeeping(s, a, check);
    FireEffect(s.(guard := s.guard + {s.id}, stored := None), a, check);
  }

  /**
   * Last write wins: two updates without demand leave exactly the state the
   * second alone would leave, so the first action never runs.
   */
  lemma LastWriteWins<T>(s: Cell<T>, a1: Action<T>, a2: Action<T>, check: T -> T)
    requires s.id !in s.guard && s.count <= 0
    ensures Update(Update(s, a1, check), a2, check) == Update(s, a2, check)
    ensures Get(Update(Update(s, a1, check), a2, check), true, check).1 == check(a2.result)
  {
    UpdateWithoutDemand(s, a1, check);
    UpdateWithoutDemand(s.(stored := Some(a1)), a2, check);
    UpdateWithoutDemand(s, a2, check);
    ExecutePending(s.(stored := Some(a2)), a2, check);
  }

  // ---------------------------------------------------------------------------
  // executeUpdate, get and once

  /**
   * Forcing a pending action `a` caches and publishes `check(a.result)`. The slot
   * is emptied before `a` runs, so an action that `a` itself stores survives
   * as pending when nobody demands eager execution.
   */
  lemma ExecutePending<T>(s: Cell<T>, a: Action<T>, check: T -> T)
    requires s.stored == Some(a)
    ensures Execute(s, check).value == check(a.result)
    ensures Execute(s, check).latest == check(a.result)
    ensures Execute(s, check).stored ==
      if a.nested.Some? && s.id !in s.guard && s.count <= 0 then a.nested else None
  {
    var cleared := s.(stored := None);
    FireEffect(cleared, a, check);
    match a.nested
    case None =>
    case Some(n) => UpdateStored(cleared, n, check);
  }

  /** `get()` with a pending action returns that action's validated result. */
  lemma GetForcesPending<T>(s: Cell<T>, a: Action<T>, check: T -> T)
    requires s.stored == Some(a)
    ensures Get(s, true, check).1 == check(a.result)
    ensures a.nested.None? ==> Get(s, true, check).0.stored == None
  {
    ExecutePending(s, a, check);
  }

  /** `get()` with nothing pending, and `get(false)` always, return the cached value and change nothing. */
  lemma GetWithoutRunning<T>(s: Cell<T>, doExecute: bool, check: T -> T)
    requires s.stored.None? || !doExecute
    ensures Get(s, doExecute, check) == (s, s.value)
  {
  }

  /** `once` neither subscribes nor changes the demand count. */
  lemma OnceKeepsSubscriptions<T>(s: Cell<T>, doExecute: bool, check: T -> T)
    ensures Once(s, doExecute, check).0.subscribers == s.subscribers
    ensures Once(s, doExecute, check).0.count == s.count
    ensures Once(s, doExecute, check).0.live == s.live
  {
    ExecuteKeepsBookkeeping(s, check);
  }

  // ---------------------------------------------------------------------------
  // subscribe

  /**
   * `subscribe(doExecute = true)` raises the demand count and forces the pending
   * action before the record is appended; the new subscription is delivered the
   * value published by then.
   */
  lemma SubscribeEager<T>(s: Cell<T>, subject: Subject, description: string, stack: seq<Frame>, check: T -> T)
    ensures var (t, sub) := Subscribe(s, subject, description, true, stack, check);
      t.count == s.count + 1 &&
      t.stored == (if s.stored.Some? && s.stored.value.nested.Some? && s.id !in s.guard && s.count + 1 <= 0
                   then s.stored.value.nested else None) &&
      t.subscribers == s.subscribers + [sub] && sub.doExecute && sub.subject == subject &&
      t.live == s.live + {sub.subscription} &&
      t.logs[sub.subscription] == [t.latest] &&
      (s.stored.Some? ==> t.value == t.latest == check(s.stored.value.result))
  {
    var raised := s.(count := s.count + 1);
    ExecuteKeepsBookkeeping(raised, check);
    if s.stored.Some? {
      ExecutePending(raised, s.stored.value, check);
    }
  }

  /** `subscribe(doExecute = false)` leaves the count, the pending action and the value alone. */
  lemma SubscribeLazy<T>(s: Cell<T>, subject: Subject, description: string, stack: seq<Frame>, check: T -> T)
    ensures var (t, sub) := Subscribe(s, subject, description, false, stack, check);
      t.count == s.count && t.stored == s.stored && t.value == s.value &&
      t.subscribers == s.subscribers + [sub] && !sub.doExecute &&
      t.logs[sub.subscription] == [s.latest]
  {
  }

  /** Subscribing keeps the demand count equal to the number of eager subscriptions. */
  lemma SubscribeKeepsDemand<T>(s: Cell<T>, subject: Subject, description: string, doExecute: bool,
                                stack: seq<Frame>, check: T -> T)
    requires DemandConsistent(s)
    ensures DemandConsistent(Subscribe(s, subject, description, doExecute, stack, check).0)
  {
    var forced := if doExecute then Execute(s.(count := s.count + 1), check) else s;
    ExecuteKeepsBookkeeping(s.(count := s.count + 1), check);
    var sub := Subscribe(s, subject, description, doExecute, stack, check).1;
    DemandAppend(forced.subscribers, sub);
  }

  /** Updates never change the demand accounting. */
  lemma UpdateKeepsDemand<T>(s: Cell<T>, a: Action<T>, check: T -> T)
    requires DemandConsistent(s)
    ensures DemandConsistent(Update(s, a, check))
  {
    UpdateKeepsBookkeeping(s, a, check);
  }

  lemma {:induction false} DemandAppend(l: seq<LazySubscriber>, x: LazySubscriber)
    ensures Demand(l + [x]) == Demand(l) + (if x.doExecute then 1 else 0)
  {
    if l != [] {
      assert (l + [x])[1..] == l[1..] + [x];
      DemandAppend(l[1..], x);
    }
  }

  // ---------------------------------------------------------------------------
  // unsubscribe(subscriber)

  /** Removing an element equal to `x` lowers the demand by `x`'s flag; nothing is removed otherwise. */
  lemma {:induction false} RemoveFirstDemand(l: seq<LazySubscriber>, x: LazySubscriber)
    ensures Contains(l, x) ==> Demand(RemoveFirst(l, x)) + (if x.doExecute then 1 else 0) == Demand(l)
    ensures !Contains(l, x) ==> RemoveFirst(l, x) == l
  {
    if l != [] {
      RemoveFirstDemand(l[1..], x);
      if !LazyEquals(l[0], x) {
        if Contains(l, x) {
          var i :| 0 <= i < |l| && LazyEquals(l[i], x);
          assert LazyEquals(l[1..][i - 1], x);
        }
        if !Contains(l, x) {
          assert forall i :: 0 <= i < |l[1..]| ==> l[1..][i] == l[i + 1];
        }
      }
    }
  }

  /**
   * `ArrayList.remove(x)` takes out exactly the first record data-class-equal
   * to `x`, whatever stack trace either of them carries, and keeps the rest in
   * order.
   */
  lemma {:induction false} RemoveFirstAt(l: seq<LazySubscriber>, x: LazySubscriber, i: nat)
    requires i < |l| && LazyEquals(l[i], x)
    requires forall j :: 0 <= j < i ==> !LazyEquals(l[j], x)
    ensures RemoveFirst(l, x) == l[..i] + l[i + 1..]
  {
    if i > 0 {
      RemoveFirstAt(l[1..], x, i - 1);
      assert l[1..][..i - 1] + l[1..][i..] == l[1..i] + l[i + 1..];
      assert [l[0]] + l[1..i] == l[..i];
    }
  }

  /** Unsubscribing a current subscriber keeps the demand count exact. */
  lemma UnsubscribeMemberKeepsDemand<T>(s: Cell<T>, sub: LazySubscriber)
    requires DemandConsistent(s) && Contains(s.subscribers, sub)
    ensures DemandConsistent(Unsubscribe(s, sub))
    ensures |Unsubscribe(s, sub).subscribers| == |s.subscribers| - 1
  {
    RemoveFirstDemand(s.subscribers, sub);
    RemoveFirstLength(s.subscribers, sub);
  }

  lemma {:induction false} RemoveFirstLength(l: seq<LazySubscriber>, x: LazySubscriber)
    requires Contains(l, x)
    ensures |RemoveFirst(l, x)| == |l| - 1
  {
    if !LazyEquals(l[0], x) {
      var i :| 0 <= i < |l| && LazyEquals(l[i], x);
      assert LazyEquals(l[1..][i - 1], x);
      RemoveFirstLength(l[1..], x);
    }
  }

  /**
   * As written, `unsubscribe(subscriber)` does not check membership: unsubscribing
   * an eager subscriber that is no longer subscribed still lowers the count, so
   * the count falls below the number of eager subscribers.
   */
  lemma UnsubscribeNonMemberBreaksDemand<T>(s: Cell<T>, sub: LazySubscriber)
    requires DemandConsistent(s) && !Contains(s.subscribers, sub) && sub.doExecute
    ensures Unsubscribe(s, sub).subscribers == s.subscribers
    ensures Unsubscribe(s, sub).count == Demand(s.subscribers) - 1
    ensures !DemandConsistent(Unsubscribe(s, sub))
  {
    RemoveFirstDemand(s.subscribers, sub);
  }

  /** Unsubscribing the same eager subscriber twice lowers the count by two. */
  lemma UnsubscribeTwice<T>(s: Cell<T>, sub: LazySubscriber)
    requires DemandConsistent(s) && sub.doExecute
    requires |s.subscribers| == 1 && LazyEquals(s.subscribers[0], sub)
    ensures Unsubscribe(Unsubscribe(s, sub), sub).count == -1
    ensures Unsubscribe(Unsubscribe(s, sub), sub).subscribers == []
  {
  }

  /** The corrected `unsubscribe(subscriber)`: a subscriber no longer subscribed is ignored. */
  function UnsubscribeChecked<T>(s: Cell<T>, sub: LazySubscriber): Cell<T>
  {
    if Contains(s.subscribers, sub) then Unsubscribe(s, sub) else s
  }

  /** The corrected form keeps the demand count exact whatever it is asked to remove. */
  lemma UnsubscribeCheckedKeepsDemand<T>(s: Cell<T>, sub: LazySubscriber)
    requires DemandConsistent(s)
    ensures DemandConsistent(UnsubscribeChecked(s, sub))
    ensures DemandConsistent(UnsubscribeChecked(UnsubscribeChecked(s, sub), sub))
  {
    if Contains(s.subscribers, sub) {
      UnsubscribeMemberKeepsDemand(s, sub);
    }
    var t := UnsubscribeChecked(s, sub);
    if Contains(t.subscribers, sub) {
      UnsubscribeMemberKeepsDemand(t, sub);
    }
  }

  // ---------------------------------------------------------------------------
  // unsubscribe(subject)

  lemma {:induction false} DemandSplit(l: seq<LazySubscriber>, subject: Subject)
    ensures Demand(Matching(l, subject)) + Demand(NotMatching(l, subject)) == Demand(l)
  {
    if l != [] {
      DemandSplit(l[1..], subject);
    }
  }

  /** Removing, one by one, elements none of which equals `h` commutes with a leading `h`. */
  lemma {:induction false} RemoveAllCons(h: LazySubscriber, t: seq<LazySubscriber>, xs: seq<LazySubscriber>, subject: Subject)
    requires h.subject != subject
    requires forall i :: 0 <= i < |xs| ==> xs[i].subject == subject
    ensures RemoveAll([h] + t, xs) == [h] + RemoveAll(t, xs)
    decreases |xs|
  {
    if xs != [] {
      assert ([h] + t)[1..] == t;
      RemoveAllCons(h, RemoveFirst(t, xs[0]), xs[1..], subject);
    }
  }

  /** Removing the elements of `xs` one by one, first occurrence each time. */
  function RemoveAll(l: seq<LazySubscriber>, xs: seq<LazySubscriber>): seq<LazySubscriber>
    decreases |xs|
  {
    if xs == [] then l else RemoveAll(RemoveFirst(l, xs[0]), xs[1..])
  }

  /** Removing every subscriber of `subject`, in list order, leaves exactly the others. */
  lemma {:induction false} RemoveAllMatching(l: seq<LazySubscriber>, subject: Subject)
    ensures RemoveAll(l, Matching(l, subject)) == NotMatching(l, subject)
  {
    if l != [] {
      RemoveAllMatching(l[1..], subject);
      if l[0].subject == subject {
        assert Matching(l, subject)[1..] == Matching(l[1..], subject);
      } else {
        assert l == [l[0]] + l[1..];
        RemoveAllCons(l[0], l[1..], Matching(l[1..], subject), subject);
      }
    }
  }

  /** The loop of `unsubscribe(subject)`: each step decrements twice for an eager subscriber. */
  lemma {:induction false} SubjectStepsEffect<T>(s: Cell<T>, xs: seq<LazySubscriber>)
    ensures SubjectSteps(s, xs).count == s.count - 2 * Demand(xs)
    ensures SubjectSteps(s, xs).subscribers == RemoveAll(s.subscribers, xs)
    ensures SubjectSteps(s, xs).stored == s.stored && SubjectSteps(s, xs).value == s.value
    ensures SubjectSteps(s, xs).logs == s.logs
    decreases |xs|
  {
    if xs != [] {
      SubjectStepsEffect(SubjectStep(s, xs[0]), xs[1..]);
    }
  }

  /**
   * `unsubscribe(subject)` removes every subscriber of `subject` but, as written,
   * lowers the count by TWO for each eager one, so it breaks the demand
   * accounting whenever it removes an eager subscriber.
   */
  lemma UnsubscribeSubjectEffect<T>(s: Cell<T>, subject: Subject)
    ensures UnsubscribeSubject(s, subject).subscribers == NotMatching(s.subscribers, subject)
    ensures UnsubscribeSubject(s, subject).count == s.count - 2 * Demand(Matching(s.subscribers, subject))
    ensures DemandConsistent(s) && Demand(Matching(s.subscribers, subject)) > 0 ==>
              !DemandConsistent(UnsubscribeSubject(s, subject))
  {
    SubjectStepsEffect(s, Matching(s.subscribers, subject));
    RemoveAllMatching(s.subscribers, subject);
    DemandSplit(s.subscribers, subject);
  }

  /** The corrected `unsubscribe(subject)`: the loop leaves the decrement to `unsubscribe(it)`. */
  function UnsubscribeSubjectFixed<T>(s: Cell<T>, subject: Subject): Cell<T>
  {
    UnsubscribeEach(s, Matching(s.subscribers, subject))
  }

  function UnsubscribeEach<T>(s: Cell<T>, xs: seq<LazySubscriber>): Cell<T>
    decreases |xs|
  {
    if xs == [] then s else UnsubscribeEach(Unsubscribe(s, xs[0]), xs[1..])
  }

  lemma {:induction false} UnsubscribeEachEffect<T>(s: Cell<T>, xs: seq<LazySubscriber>)
    ensures UnsubscribeEach(s, xs).count == s.count - Demand(xs)
    ensures UnsubscribeEach(s, xs).subscribers == RemoveAll(s.subscribers, xs)
    decreases |xs|
  {
    if xs != [] {
      UnsubscribeEachEffect(Unsubscribe(s, xs[0]), xs[1..]);
    }
  }

  /** The corrected form removes the subject's subscribers and keeps the demand count exact. */
  lemma UnsubscribeSubjectFixedKeepsDemand<T>(s: Cell<T>, subject: Subject)
    requires DemandConsistent(s)
    ensures UnsubscribeSubjectFixed(s, subject).subscribers == NotMatching(s.subscribers, subject)
    ensures DemandConsistent(UnsubscribeSubjectFixed(s, subject))
  {
    UnsubscribeEachEffect(s, Matching(s.subscribers, subject));
    RemoveAllMatching(s.subscribers, subject);
    DemandSplit(s.subscribers, subject);
  }

  // ---------------------------------------------------------------------------
  // reset

  /**
   * `reset()` drops the pending action and publishes the initial value to every
   * live subscription, but leaves the cached value, the count and the
   * subscriber list as they were.
   */
  lemma ResetEffect<T>(s: Cell<T>)
    ensures Reset(s).stored == None && Reset(s).latest == s.initValue
    ensures Reset(s).value == s.value && Reset(s).count == s.count
    ensures Reset(s).subscribers == s.subscribers && Reset(s).live == s.live
    ensures forall h :: h in s.logs && h in s.live ==> Reset(s).logs[h] == s.logs[h] + [s.initValue]
  {
  }

  /**
   * As written, after `reset()` a new subscriber (or `once`) is handed the initial
   * value while `get()` still returns the old cached value.
   */
  lemma ResetLeavesStaleValue<T>(s: Cell<T>, check: T -> T)
    requires s.value != s.initValue
    ensures Get(Reset(s), true, check).1 == s.value
    ensures Once(Reset(s), true, check).1 == s.initValue
    ensures Get(Reset(s), true, check).1 != Once(Reset(s), true, check).1
  {
  }

  /** The corrected `reset()`: the initial value is cached as well as published. */
  function ResetFixed<T>(s: Cell<T>): Cell<T>
  {
    Publish(s.(stored := None, value := s.initValue), s.initValue)
  }

  /** After the corrected `reset()`, `get()` and `once` both yield the initial value. */
  lemma ResetFixedYieldsInitial<T>(s: Cell<T>, doExecute: bool, check: T -> T)
    ensures Get(ResetFixed(s), doExecute, check).1 == s.initValue
    ensures Once(ResetFixed(s), doExecute, check).1 == s.initValue
    ensures ResetFixed(s).count == s.count && ResetFixed(s).subscribers == s.subscribers
  {
  }

  // ---------------------------------------------------------------------------
  // Worked examples

  /** Identity validation, the default `checkValue`. */
  function Identity(x: int): int { x }

  /**
   * A cell at 0 with identity validation and no subscribers: `update(() => 5)`
   * only stores; `get()` then returns 5, caches it and empties the slot.
   */
  lemma ScenarioDeferredUpdate(id: NodeId)
    ensures var s := Update(Init(id, 0, {}), Action(5, None), Identity);
      s.stored == Some(Action(5, None)) && s.value == 0 &&
      Get(s, true, Identity).1 == 5 && Get(s, true, Identity).0.stored == None
  {
    var a := Action(5, None);
    UpdateWithoutDemand(Init(id, 0, {}), a, Identity);
    ExecutePending(Init(id, 0, {}).(stored := Some(a)), a, Identity);
  }

  /**
   * Two eager subscribers on a cell at 0: `update(() => 1)` runs at once and both
   * subscriptions are delivered 1 after the 0 they were handed on subscribing.
   */
  lemma ScenarioEagerUpdate(id: NodeId, stack: seq<Frame>)
    ensures var (s1, sub1) := Subscribe(Init(id, 0, {}), 1, "a", true, stack, Identity);
            var (s2, sub2) := Subscribe(s1, 2, "b", true, stack, Identity);
            var s3 := Update(s2, Action(1, None), Identity);
      s2.count == 2 && s3.value == 1 && sub1.subscription in s3.logs && sub2.subscription in s3.logs &&
      s3.logs[sub1.subscription] == [0, 1] && s3.logs[sub2.subscription] == [0, 1]
  {
    var s0 := Init(id, 0, {});
    var (s1, sub1) := Subscribe(s0, 1, "a", true, stack, Identity);
    assert sub1.subscription == 0 && s1.logs == map[0 := [0]] && s1.live == {0};
    assert s1.count == 1 && s1.stored == None && s1.latest == 0 && s1.nextHandle == 1;
    var (s2, sub2) := Subscribe(s1, 2, "b", true, stack, Identity);
    assert sub2.subscription == 1 && s2.logs == map[0 := [0], 1 := [0]] && s2.live == {0, 1};
    assert s2.count == 2 && s2.id == id && s2.guard == {};
    var a := Action(1, None);
    var pushed := s2.(guard := {id}, stored := Some(a));
    var fired := Fire(pushed.(stored := None), a, Identity);
    assert fired == Publish(pushed.(stored := None, value := 1), 1);
    assert 0 in fired.logs && fired.logs[0] == [0, 1];
    assert 1 in fired.logs && fired.logs[1] == [0, 1];
    assert Update(s2, a, Identity) == fired.(guard := {});
  }
}
