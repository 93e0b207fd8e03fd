/**
 * Frame synchronisation over the serial line. The port is modelled as the
 * finite sequence of lines it will deliver and a read cursor: reading a line
 * is `stream[cursor]` followed by advancing the cursor. A VE.Direct device
 * repeats the `PID` line once per cycle, and both drivers synchronise on it.
 */
module Framing {
  import opened Wrappers
  import opened Protocol

  /** Index of the first `PID` line at or after `from`, if there is one. */
  function NextPid(stream: seq<Line>, from: nat): (r: Option<nat>)
    ensures r.Some? ==> from <= r.value < |stream| && IsPid(stream[r.value])
    ensures r.Some? ==> forall k :: from <= k < r.value ==> !IsPid(stream[k])
    ensures r.None? ==> forall k :: from <= k < |stream| ==> !IsPid(stream[k])
    decreases |stream| - from
  {
    if from >= |stream| then None
    else if IsPid(stream[from]) then Some(from)
    else NextPid(stream, from + 1)
  }

  /**
   * The port will deliver, from `cursor` on, a `PID` line and a later one.
   * The drivers have no timeout handling, so this is what they need to return.
   */
  predicate CycleAhead(stream: seq<Line>, cursor: nat) {
    && NextPid(stream, cursor).Some?
    && NextPid(stream, NextPid(stream, cursor).value + 1).Some?
  }

  /** Index of the `PID` line that ends the wait for a start of frame. */
  function FrameStart(stream: seq<Line>, cursor: nat): (i: nat)
    requires CycleAhead(stream, cursor)
    ensures cursor <= i < |stream| && IsPid(stream[i])
  {
    NextPid(stream, cursor).value
  }

  /** Index of the next `PID` line, which ends the collection. */
  function FrameEnd(stream: seq<Line>, cursor: nat): (j: nat)
    requires CycleAhead(stream, cursor)
    ensures FrameStart(stream, cursor) < j < |stream| && IsPid(stream[j])
    ensures forall k :: FrameStart(stream, cursor) < k < j ==> !IsPid(stream[k])
  {
    NextPid(stream, FrameStart(stream, cursor) + 1).value
  }

  /**
   * The "wait for start of frame" loop both drivers open with: read lines
   * until one starts with `PID`. Returns that line and the cursor after it.
   */
  method WaitForStartOfFrame(stream: seq<Line>, cursor: nat) returns (pid: Line, next: nat)
    requires NextPid(stream, cursor).Some?
    ensures next == NextPid(stream, cursor).value + 1
    ensures pid == stream[next - 1] && IsPid(pid)
    ensures forall k :: cursor <= k < next - 1 ==> !IsPid(stream[k])
  {
    ghost var start := NextPid(stream, cursor).value;
    next := cursor;
    while true
      invariant cursor <= next <= start
      decreases start - next
    {
      pid := stream[next];
      next := next + 1;
      if IsPid(pid) {
        return;
      }
    }
  }
}
