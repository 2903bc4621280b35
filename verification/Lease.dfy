/** LeaseConnection.java under its lock; each method is one synchronized block. */
module Leases {
  import opened LeaseModel

  class LeaseConnection {
    var queue: seq<Framed>
    var nextSeq: nat
    var drops: nat
    var closed: bool
    var up: bool
    var down: bool
    var helloSeq: nat

    ghost function View(): Core
      reads this
    {
      Core(queue, nextSeq, drops, closed, up, down, helloSeq)
    }

    constructor ()
      ensures View() == OPENED
    {
      queue, nextSeq, drops, closed, up, down, helloSeq := [], 0, 0, false, false, false, 0;
    }

    /** Pins the number of HELLO before the writer exists; false when already closed. */
    method Start() returns (spawn: bool)
      modifies this
      ensures (View(), spawn) == StartSection(old(View()))
    {
      if closed { return false; }
      helloSeq, nextSeq := nextSeq, nextSeq + 1;
      return true;
    }

    method Enqueue(e: OutEvent) returns (taken: bool)
      modifies this
      ensures (View(), taken) == EnqueueSection(old(View()), e)
    {
      if closed { return false; }
      if |queue| >= QUEUE_CAP && e.kind == Key {
        queue := queue[1..];
        drops := drops + 1;
      }
      queue := queue + [Framed(nextSeq, e)];
      nextSeq := nextSeq + 1;
      return true;
    }

    /** The result says whether this call is the one that closed it. */
    method Close() returns (mine: bool)
      modifies this
      ensures (View(), mine) == CloseSection(old(View()))
    {
      mine := !closed;
      closed := true;
    }

    method RaiseUp() returns (fire: bool)
      modifies this
      ensures View() == MarkUp(old(View()))
      ensures fire <==> up && !old(up)
    {
      fire := !closed && !up;
      if fire { up := true; }
    }

    method LowerDown() returns (fire: bool)
      modifies this
      ensures View() == MarkDown(old(View()))
      ensures fire <==> down && !old(down)
    {
      fire := up && !down;
      if fire { down := true; }
    }

    method Take(idle: bool) returns (taken: Taken)
      modifies this
      ensures (View(), taken) == TakeSection(old(View()), idle)
    {
      if closed { return Stop; }
      if queue != [] {
        taken := Frame(queue[0]);
        queue := queue[1..];
      } else if idle {
        taken := Frame(Framed(nextSeq, BEAT));
        nextSeq := nextSeq + 1;
      } else {
        taken := Wait;
      }
    }
  }
}
