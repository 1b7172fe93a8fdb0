/**
 * util/ObservableLazyValue.kt as the class it is: fields updated in place by
 * `subscribe`, `unsubscribe`, `update`, `get`, `once` and `reset`, with the
 * context's re-entrancy guard as a shared object. Every method is proved to
 * move the object from `old(State())` to the state the matching function of
 * module LazyCell computes; what those functions promise is proved there.
 */
module ObservableLazy {
  import opened Wrappers
  import opened Subscribers
  import LazyCell

  /** The re-entrancy guard of `ObservableContext`: the nodes whose `update` is in flight. */
  class ObservableContext {
    var inFlight: set<LazyCell.NodeId>

    constructor ()
      ensures inFlight == {}
    {
      inFlight := {};
    }

    /** Marks `id` as in flight; false when it already was. */
    method Push(id: LazyCell.NodeId) returns (ok: bool)
      modifies this
      ensures ok == (id !in old(inFlight))
      ensures inFlight == old(inFlight) + {id}
    {
      ok := id !in inFlight;
      inFlight := inFlight + {id};
    }

    /** Clears the mark of `id`. */
    method Pop(id: LazyCell.NodeId)
      modifies this
      ensures inFlight == old(inFlight) - {id}
    {
      inFlight := inFlight - {id};
    }
  }

  class ObservableLazyValue<T> {
    const id: LazyCell.NodeId
    const initValue: T
    const name: string
    const checkValue: T -> T
    const context: ObservableContext

    var subscribers: seq<LazySubscriber>
    var value: T
    var storedAction: Option<LazyCell.Action<T>>
    var doExecuteCount: int

    // The BehaviorSubject: its current value, what each subscription was delivered,
    // which subscriptions are still live, and the identity the next one gets.
    var latest: T
    var logs: map<Handle, seq<T>>
    var live: set<Handle>
    var nextHandle: Handle

    /** The abstract state of this cell and of the guard it shares. */
    ghost function State(): LazyCell.Cell<T>
      reads this, context
    {
      LazyCell.Cell(id, initValue, value, storedAction, doExecuteCount, subscribers,
                    latest, logs, live, nextHandle, context.inFlight)
    }

    ghost function StoredDepth(): nat
      reads this
    {
      if storedAction.Some? then LazyCell.Depth(storedAction.value) else 0
    }

    constructor (id: LazyCell.NodeId, initValue: T, name: string, checkValue: T -> T, context: ObservableContext)
      ensures this.context == context && this.checkValue == checkValue
      ensures State() == LazyCell.Init(id, initValue, context.inFlight)
    {
      this.id := id;
      this.initValue := initValue;
      this.name := name;
      this.checkValue := checkValue;
      this.context := context;
      subscribers := [];
      value := initValue;
      storedAction := None;
      doExecuteCount := 0;
      latest := initValue;
      logs := map[];
      live := {};
      nextHandle := 0;
    }

    /** `observable.onNext(v)`. */
    method Publish(v: T)
      modifies this
      ensures State() == LazyCell.Publish(old(State()), v)
    {
      latest := v;
      logs := map h | h in logs :: if h in live then logs[h] + [v] else logs[h];
    }

    method Subscribe(subject: Subject, description: string, doExecute: bool, stack: seq<Frame>)
      returns (subscriber: LazySubscriber)
      modifies this, context
      ensures (State(), subscriber) ==
        LazyCell.Subscribe(old(State()), subject, description, doExecute, stack, checkValue)
    {
      if doExecute {
        doExecuteCount := doExecuteCount + 1;
        ExecuteUpdate();
      }
      // observable.subscribe(onNext): a new live subscription, handed the current value
      var subscription := nextHandle;
      nextHandle := nextHandle + 1;
      live := live + {subscription};
      logs := logs[subscription := [latest]];
      subscriber := NewLazySubscriber(subject, subscription, description, doExecute, stack);
      subscribers := subscribers + [subscriber];
    }

    method UnsubscribeSubject(subject: Subject)
      modifies this
      ensures State() == LazyCell.UnsubscribeSubject(old(State()), subject)
    {
      var matching := LazyCell.Matching(subscribers, subject);
      for i := 0 to |matching|
        invariant LazyCell.SubjectSteps(State(), matching[i..]) == LazyCell.UnsubscribeSubject(old(State()), subject)
      {
        var it := matching[i];
        assert matching[i..][1..] == matching[i + 1..];
        if it.doExecute {
          doExecuteCount := doExecuteCount - 1;
        }
        Unsubscribe(it);
      }
    }

    method Unsubscribe(subscriber: LazySubscriber)
      modifies this
      ensures State() == LazyCell.Unsubscribe(old(State()), subscriber)
    {
      if subscriber.doExecute {
        doExecuteCount := doExecuteCount - 1;
      }
      live := live - {subscriber.subscription};
      subscribers := LazyCell.RemoveFirst(subscribers, subscriber);
    }

    method Update(action: LazyCell.Action<T>)
      modifies this, context
      decreases LazyCell.Depth(action), 2
      ensures State() == LazyCell.Update(old(State()), action, checkValue)
    {
      var pushed := context.Push(id);
      if !pushed {
        return;
      }
      storedAction := Some(action);
      if doExecuteCount > 0 {
        ExecuteUpdate();
      }
      context.Pop(id);
    }

    method ExecuteUpdate()
      modifies this, context
      decreases StoredDepth(), 1
      ensures State() == LazyCell.Execute(old(State()), checkValue)
    {
      var action := storedAction;
      storedAction := None;
      if action.Some? {
        var result := Invoke(action.value);
        value := checkValue(result);
        Publish(value);
      }
    }

    /** Calls the thunk `a`, which may itself call `update` on this cell. */
    method Invoke(a: LazyCell.Action<T>) returns (result: T)
      modifies this, context
      decreases LazyCell.Depth(a), 0
      ensures result == a.result
      ensures State() == match a.nested
        case None => old(State())
        case Some(n) => LazyCell.Update(old(State()), n, checkValue)
    {
      if a.nested.Some? {
        Update(a.nested.value);
      }
      result := a.result;
    }

    method Get(doExecute: bool) returns (v: T)
      modifies this, context
      ensures (State(), v) == LazyCell.Get(old(State()), doExecute, checkValue)
    {
      if doExecute {
        ExecuteUpdate();
      }
      v := value;
    }

    /** `once(onNext, doExecute)`: returns the one value handed to `onNext`. */
    method Once(doExecute: bool) returns (delivered: T)
      modifies this, context
      ensures (State(), delivered) == LazyCell.Once(old(State()), doExecute, checkValue)
    {
      if doExecute {
        ExecuteUpdate();
      }
      // observable.subscribe(onNext).unsubscribe(): the replayed value, then nothing more
      delivered := latest;
    }

    method Reset()
      modifies this
      ensures State() == LazyCell.Reset(old(State()))
    {
      storedAction := None;
      Publish(initValue);
    }
  }
}
