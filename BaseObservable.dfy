/**
 * util/BaseObservable.kt: the timing and call-stack bookkeeping every observable
 * node carries. The JVM's current stack is a parameter of the setter.
 */
module BaseObservables {
  import opened Subscribers

  /** How many frames of the current stack the update record drops. */
  const UpdateFramesDropped: nat := 3

  class BaseObservable {
    var lastTotalUpdateTime: int
    // Written only by SetLastTotalUpdateTime (the Kotlin `private set`).
    var lastUpdateStackTrace: seq<Frame>

    constructor ()
      ensures lastTotalUpdateTime == 0 && lastUpdateStackTrace == []
    {
      lastTotalUpdateTime := 0;
      lastUpdateStackTrace := [];
    }

    /**
     * The custom setter of `lastTotalUpdateTime`: every assignment also records
     * the caller's stack without its first three frames.
     */
    method SetLastTotalUpdateTime(time: int, currentStack: seq<Frame>)
      modifies this
      ensures lastTotalUpdateTime == time
      ensures |currentStack| >= UpdateFramesDropped ==>
                currentStack == currentStack[..UpdateFramesDropped] + lastUpdateStackTrace
      ensures |currentStack| < UpdateFramesDropped ==> lastUpdateStackTrace == []
    {
      lastUpdateStackTrace := Drop(currentStack, UpdateFramesDropped);
      lastTotalUpdateTime := time;
    }
  }
}
