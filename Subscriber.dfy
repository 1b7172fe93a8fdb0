/**
 * The subscription records of the observables (util/Subscriber.kt): immutable
 * bindings of a subject to an RxJava subscription, each carrying the call stack
 * seen when it was created.
 */
module Subscribers {

  /** One frame of a thread's call stack, as the JVM reports it. */
  type Frame = string

  /** The opaque identity a consumer subscribes under, used for bulk unsubscription. */
  type Subject = nat

  /** An RxJava `Subscription`, compared by object identity. */
  type Handle = nat

  /** How many frames of the current stack a new subscription record drops. */
  const SubscriberFramesDropped: nat := 4

  /** Kotlin's `List.drop(n)`: the list without its first `n` elements, empty when it is shorter. */
  function Drop<X>(s: seq<X>, n: nat): (r: seq<X>)
    ensures n <= |s| ==> s == s[..n] + r
    ensures n > |s| ==> r == []
  {
    if n <= |s| then s[n..] else []
  }

  /** `Subscriber`: an eager subscription. */
  datatype Subscriber = Subscriber(
    subject: Subject,
    subscription: Handle,
    description: string,
    stackTrace: seq<Frame>)

  /** `LazySubscriber`: a subscription to a lazy cell, with its demand flag. */
  datatype LazySubscriber = LazySubscriber(
    subject: Subject,
    subscription: Handle,
    description: string,
    doExecute: bool,
    stackTrace: seq<Frame>)

  /** Constructs a `Subscriber`; `stack` is the thread's stack at the moment of construction. */
  function NewSubscriber(subject: Subject, subscription: Handle, description: string, stack: seq<Frame>): (r: Subscriber)
    ensures r.subject == subject && r.subscription == subscription && r.description == description
    ensures |stack| >= SubscriberFramesDropped ==> stack == stack[..SubscriberFramesDropped] + r.stackTrace
    ensures |stack| < SubscriberFramesDropped ==> r.stackTrace == []
  {
    Subscriber(subject, subscription, description, Drop(stack, SubscriberFramesDropped))
  }

  /** Constructs a `LazySubscriber`; `stack` is the thread's stack at the moment of construction. */
  function NewLazySubscriber(subject: Subject, subscription: Handle, description: string, doExecute: bool, stack: seq<Frame>): (r: LazySubscriber)
    ensures r.subject == subject && r.subscription == subscription && r.description == description
    ensures r.doExecute == doExecute
    ensures |stack| >= SubscriberFramesDropped ==> stack == stack[..SubscriberFramesDropped] + r.stackTrace
    ensures |stack| < SubscriberFramesDropped ==> r.stackTrace == []
  {
    LazySubscriber(subject, subscription, description, doExecute, Drop(stack, SubscriberFramesDropped))
  }

  /**
   * The equality of the Kotlin data class `Subscriber`: over its constructor
   * properties only; the captured stack trace is not one of them.
   */
  predicate SubscriberEquals(a: Subscriber, b: Subscriber)
  {
    a.subject == b.subject && a.subscription == b.subscription && a.description == b.description
  }

  /** The equality of the Kotlin data class `LazySubscriber`, which `ArrayList.remove` uses. */
  predicate LazyEquals(a: LazySubscriber, b: LazySubscriber)
  {
    a.subject == b.subject && a.subscription == b.subscription &&
    a.description == b.description && a.doExecute == b.doExecute
  }

  /** Two records built from the same fields are equal whatever stacks they were built under. */
  lemma LazyEqualsIgnoresStack(subject: Subject, subscription: Handle, description: string, doExecute: bool,
                               stack1: seq<Frame>, stack2: seq<Frame>)
    ensures LazyEquals(NewLazySubscriber(subject, subscription, description, doExecute, stack1),
                       NewLazySubscriber(subject, subscription, description, doExecute, stack2))
    ensures SubscriberEquals(NewSubscriber(subject, subscription, description, stack1),
                             NewSubscriber(subject, subscription, description, stack2))
  {
  }
}
