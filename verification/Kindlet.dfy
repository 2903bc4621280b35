/** The fields of KindletShell.java under its lifecycle lock; each method is one synchronized block. */
module Kindlets {
  import opened Words
  import opened KindletModel

  class KindletShell {
    var generation: nat
    var stopped: bool
    var conn: Option<nat>
    var worker: Option<nat>
    var launching: bool

    ghost function View(): Core
      reads this
    {
      Core(generation, stopped, conn, worker, launching)
    }

    constructor ()
      ensures View() == CREATED
    {
      generation, stopped, conn, worker, launching := 0, false, None, None, false;
    }

    /** Returns the detached lease, to be closed outside the lock, and the thread to join. */
    method Start(thread: nat) returns (detached: Option<nat>, prev: Option<nat>)
      modifies this
      ensures (View(), detached, prev) == StartSection(old(View()), thread)
    {
      generation, stopped := generation + 1, false;
      detached, conn := conn, None;
      prev, worker := worker, Some(thread);
    }

    method Stop() returns (detached: Option<nat>)
      modifies this
      ensures (View(), detached) == StopSection(old(View()))
    {
      generation, stopped := generation + 1, true;
      detached, conn := conn, None;
    }

    method IsCurrent(g: nat) returns (r: bool)
      ensures r <==> Current(View(), g)
    {
      r := generation == g && !stopped;
    }

    method TakeLatch(g: nat) returns (entered: bool)
      modifies this
      ensures (View(), entered) == EnterLaunch(old(View()), g)
    {
      entered := generation == g && !stopped;
      if entered { launching := true; }
    }

    method DropLatch()
      modifies this
      ensures View() == LeaveLaunch(old(View()))
    {
      launching := false;
    }

    method Publish(g: nat, candidate: nat) returns (ext: Option<nat>)
      modifies this
      ensures (View(), ext) == PublishSection(old(View()), g, candidate)
    {
      var current := IsCurrent(g);
      if current {
        conn, ext := Some(candidate), None;
      } else {
        ext := Some(candidate);
      }
    }
  }
}
