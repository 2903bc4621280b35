/**
 What the lease (LeaseConnection.java) does with its queue over every run: which frames are lost, what is
 handed over next, and when the up callback fires.
 */
module LeaseRuns {
  import opened LeaseModel

  // ----- frames are lost only to keys on a full queue -----------------------------------------

  /** How many keys were enqueued on an open lease with 256 or more frames waiting. */
  function Overflows(l: Lease, actions: seq<Action>): nat
    decreases |actions|
  {
    if actions == [] then 0
    else
      var a := actions[0];
      (if a.Enqueue? && a.event.kind == Key && !l.core.closed && |l.core.queue| >= 256 then 1 else 0)
      + Overflows(Next(l, a), actions[1..])
  }

  lemma StepDrops(l: Lease, a: Action)
    ensures |Next(l, a).dropped| ==
            |l.dropped| + if a.Enqueue? && a.event.kind == Key && !l.core.closed && |l.core.queue| >= 256 then 1 else 0
  {
  }

  /** Over every run exactly one frame is lost for each key that met a full queue, and none otherwise. */
  lemma {:induction false} LosesOnlyToOverflow(l: Lease, actions: seq<Action>)
    ensures |Run(l, actions).dropped| == |l.dropped| + Overflows(l, actions)
    decreases |actions|
  {
    if actions != [] {
      hide Next;
      StepDrops(l, actions[0]);
      LosesOnlyToOverflow(Next(l, actions[0]), actions[1..]);
    }
  }

  // ----- what is handed over next -------------------------------------------------------------

  lemma TwoSteps(l: Lease, a: Action, b: Action)
    ensures Run(l, [a, b]) == Next(Next(l, a), b)
  {
    hide Next;
    assert [a, b][1..] == [b] && [b][1..] == [];
    assert Run(Next(l, a), [b]) == Run(Next(Next(l, a), b), []);
  }

  /**
   A writer in its loop, once its timer has run out: on an open lease its next two steps hand over the oldest
   frame waiting, or a heartbeat under the next number if there is none; a closed one it closes.
   */
  lemma HandsOverNext(l: Lease, ok: bool, bytes: bool)
    requires l.writer.Loop?
    ensures var l' := Run(l, [Step(true, bytes), Step(ok, bytes)]);
            if l.core.closed then l'.handed == l.handed && l'.writer == Gone
            else
              && l'.handed == l.handed + [if l.core.queue != [] then l.core.queue[0] else Framed(l.core.nextSeq, BEAT)]
              && l'.writer == if bytes then Write(false) else Loop
  {
    TwoSteps(l, Step(true, bytes), Step(ok, bytes));
  }

  /** Before its timer runs out, a writer with an empty queue hands over nothing. */
  lemma WaitsOutItsTimer(l: Lease, bytes: bool)
    requires l.writer.Loop? && !l.core.closed && l.core.queue == []
    ensures Next(l, Step(false, bytes)) == l
  {
  }

  // ----- the callbacks ------------------------------------------------------------------------

  /** The greeting is behind the writer. */
  predicate Greeted(w: Writer) { w.Loop? || (w.Encode? && !w.first) || (w.Write? && !w.first) }

  ghost predicate UpKnown(l: Lease) {
    && (Greeted(l.writer) ==> l.core.up || l.core.closed)
    && (l.core.up ==> l.handed != [])
    && (l.writer.RaiseUp? || (l.writer.Write? && l.writer.first) || Greeted(l.writer) ==> l.handed != [])
  }

  lemma StepKeepsUp(l: Lease, a: Action)
    requires UpKnown(l)
    ensures UpKnown(Next(l, a))
  {
  }

  lemma {:induction false} RunKeepsUp(l: Lease, actions: seq<Action>)
    requires UpKnown(l)
    ensures UpKnown(Run(l, actions))
    decreases |actions|
  {
    if actions != [] {
      hide Next;
      StepKeepsUp(l, actions[0]);
      RunKeepsUp(Next(l, actions[0]), actions[1..]);
    }
  }

  /** In every run a lease is up only once HELLO was handed over, and past its greeting an open one is up. */
  lemma UpOnceGreeted(actions: seq<Action>)
    ensures var l := Run(BOOT, actions);
            && (l.core.up ==> l.handed != [])
            && (Greeted(l.writer) && !l.core.closed ==> l.core.up)
  {
    RunKeepsUp(BOOT, actions);
  }

  /** The threads that have closed the lease and not yet run the down callback. */
  function Closers(l: Lease): nat { l.closers + if l.writer.SelfDown? then 1 else 0 }

  lemma {:induction false} ClosersBounded(l: Lease, actions: seq<Action>)
    requires Closers(l) <= if l.core.closed then 1 else 0
    ensures Closers(Run(l, actions)) <= if Run(l, actions).core.closed then 1 else 0
    decreases |actions|
  {
    if actions != [] { ClosersBounded(Next(l, actions[0]), actions[1..]); }
  }

  /** In every run at most one thread closes the lease, and none runs the down callback of an open one. */
  lemma OneThreadCloses(actions: seq<Action>)
    ensures Closers(Run(BOOT, actions)) <= if Run(BOOT, actions).core.closed then 1 else 0
  {
    ClosersBounded(BOOT, actions);
  }

  /** A lease closed before its writer ran: the writer hands nothing over, and no later step does. */
  lemma {:induction false} ClosedEarlyHandsNothing(l: Lease, actions: seq<Action>)
    requires (l.writer.Spawned? || l.writer.Gone? || l.writer.Unborn?) && l.core.closed
    ensures Run(l, actions).handed == l.handed
    decreases |actions|
  {
    if actions != [] { ClosedEarlyHandsNothing(Next(l, actions[0]), actions[1..]); }
  }
}
