/**
 The FLUSH barrier and the resync hysteresis of src/session.c, over every interleaving of
 SessionModel: how much of an old epoch can still reach the sink, and how long a lapped
 player can stay stalled.
 */
module SessionBarrier {
  import opened Words
  import opened SessionModel

  /** The two moments of a flush: its generation bump and its end. */
  predicate IsFlush(entry: Entry) {
    entry.Bumped? || entry.Flushing?
  }

  /** Entry i hands the sink samples from before flush f, after that moment of it. */
  ghost predicate StaleWrite(log: seq<Entry>, f: int, i: int) {
    0 <= f < i < |log| && IsFlush(log[f]) && log[i].Wrote? && log[i].gen < log[f].gen
  }

  /** From the generation bump on, samples from before the flush reach the sink in at most one sink_write call. */
  ghost predicate OneStaleWritePerFlush(log: seq<Entry>) {
    forall f, i, k :: StaleWrite(log, f, i) && StaleWrite(log, f, k) ==> i == k
  }

  ghost predicate RestartWithin(log: seq<Entry>, after: int, before: int) {
    exists r :: 0 <= r < |log| && after < r < before && log[r].Restarted?
  }

  predicate IsPop(entry: Entry) {
    entry.Played? || entry.Silenced?
  }

  /** A turn of the player, whether it pops or not. */
  predicate IsTurn(entry: Entry) {
    IsPop(entry) || entry.Idled?
  }

  /** If such a call happens after the flush has ended, the sink is restarted before anything else is popped. */
  ghost predicate RestartBeforeNextPop(log: seq<Entry>) {
    forall f, i, p :: StaleWrite(log, f, i) && log[f].Flushing? && i < p < |log| && IsPop(log[p]) ==>
                        RestartWithin(log, i, p)
  }

  ghost predicate Holding(pc: Pc) {
    pc.Check? || pc.Call?
  }

  ghost predicate BarrierInv(m: Machine) {
    && (forall f :: 0 <= f < |m.log| && IsFlush(m.log[f]) ==> m.log[f].gen <= m.core.gen)
    && OneStaleWritePerFlush(m.log)
    && RestartBeforeNextPop(m.log)
    && (Holding(m.pc) ==> m.pc.gen <= m.core.gen)
    && (Holding(m.pc) ==>
          forall f :: 0 <= f < |m.log| && m.log[f].Flushing? && m.pc.gen < m.log[f].gen ==> m.restartPending)
    // a player about to write stale samples has not yet done so since the flush
    && (m.pc.Call? ==> forall f, i :: StaleWrite(m.log, f, i) ==> m.pc.gen >= m.log[f].gen)
    // stale samples are followed by a restart, or one is pending and the player has yet to service it
    && (forall f, i :: StaleWrite(m.log, f, i) && m.log[f].Flushing? ==>
                         RestartWithin(m.log, i, |m.log|) || (m.restartPending && !m.pc.Ready?))
  }

  lemma StaleWriteAppend(log: seq<Entry>, entry: Entry, f: int, i: int)
    ensures StaleWrite(log + [entry], f, i) <==>
            || StaleWrite(log, f, i)
            || (i == |log| && 0 <= f < |log| && IsFlush(log[f]) && entry.Wrote? && entry.gen < log[f].gen)
  {
  }

  lemma RestartAppend(log: seq<Entry>, entry: Entry, after: int, before: int)
    requires RestartWithin(log, after, before)
    ensures RestartWithin(log + [entry], after, before)
  {
    var r :| 0 <= r < |log| && after < r < before && log[r].Restarted?;
    assert (log + [entry])[r] == log[r];
  }

  /** Logging an entry that is neither a write nor a pop disturbs neither property. */
  lemma QuietAppend(log: seq<Entry>, entry: Entry)
    requires OneStaleWritePerFlush(log) && RestartBeforeNextPop(log)
    requires !entry.Wrote? && !IsPop(entry)
    ensures OneStaleWritePerFlush(log + [entry]) && RestartBeforeNextPop(log + [entry])
    ensures forall f, i :: StaleWrite(log + [entry], f, i) <==> StaleWrite(log, f, i)
    ensures forall f, i :: StaleWrite(log, f, i) && RestartWithin(log, i, |log|)
                           ==> RestartWithin(log + [entry], i, |log| + 1)
  {
    var log' := log + [entry];
    forall f, i ensures StaleWrite(log', f, i) <==> StaleWrite(log, f, i) { StaleWriteAppend(log, entry, f, i); }
    forall f, i, p | StaleWrite(log', f, i) && log'[f].Flushing? && i < p < |log'| && IsPop(log'[p])
      ensures RestartWithin(log', i, p)
    {
      assert StaleWrite(log, f, i) && IsPop(log[p]);
      RestartAppend(log, entry, i, p);
    }
    forall f, i | StaleWrite(log, f, i) && RestartWithin(log, i, |log|) ensures RestartWithin(log', i, |log| + 1) {
      RestartAppend(log, entry, i, |log|);
    }
  }

  lemma PopAppend(log: seq<Entry>, entry: Entry)
    requires OneStaleWritePerFlush(log) && RestartBeforeNextPop(log) && IsPop(entry)
    requires forall f, i :: StaleWrite(log, f, i) && log[f].Flushing? ==> RestartWithin(log, i, |log|)
    ensures OneStaleWritePerFlush(log + [entry]) && RestartBeforeNextPop(log + [entry])
    ensures forall f, i :: StaleWrite(log + [entry], f, i) && (log + [entry])[f].Flushing? ==>
                             RestartWithin(log + [entry], i, |log| + 1)
  {
    var log' := log + [entry];
    forall f, i ensures StaleWrite(log', f, i) <==> StaleWrite(log, f, i) { StaleWriteAppend(log, entry, f, i); }
    forall f, i | StaleWrite(log', f, i) && log'[f].Flushing? ensures RestartWithin(log', i, |log|) {
      assert StaleWrite(log, f, i);
      RestartAppend(log, entry, i, |log|);
    }
    forall f, i, p | StaleWrite(log', f, i) && log'[f].Flushing? && i < p < |log'| && IsPop(log'[p])
      ensures RestartWithin(log', i, p)
    {
      assert StaleWrite(log, f, i);
      if p < |log| {
        assert IsPop(log[p]);
        RestartAppend(log, entry, i, p);
      }
    }
  }

  lemma WriteAppend(log: seq<Entry>, gen: nat)
    requires OneStaleWritePerFlush(log) && RestartBeforeNextPop(log)
    requires forall f, i :: StaleWrite(log, f, i) ==> gen >= log[f].gen
    ensures OneStaleWritePerFlush(log + [Wrote(gen)]) && RestartBeforeNextPop(log + [Wrote(gen)])
  {
    var entry := Wrote(gen);
    var log' := log + [entry];
    forall f, i, k | StaleWrite(log', f, i) && StaleWrite(log', f, k) ensures i == k {
      StaleWriteAppend(log, entry, f, i);
      StaleWriteAppend(log, entry, f, k);
      assert log'[f] == log[f];
    }
    forall f, i, p | StaleWrite(log', f, i) && log'[f].Flushing? && i < p < |log'| && IsPop(log'[p])
      ensures RestartWithin(log', i, p)
    {
      StaleWriteAppend(log, entry, f, i);
      assert IsPop(log[p]) && StaleWrite(log, f, i);
      RestartAppend(log, entry, i, p);
    }
  }

  lemma WriteKeepsBarrier(m: Machine, accepted: int)
    requires BarrierInv(m) && m.pc.Call?
    ensures BarrierInv(Next(m, SinkWrite(accepted)))
  {
    var m' := Next(m, SinkWrite(accepted));
    WriteAppend(m.log, m.pc.gen);
    forall f, i | StaleWrite(m'.log, f, i) && m'.log[f].Flushing?
      ensures RestartWithin(m'.log, i, |m'.log|) || (m'.restartPending && !m'.pc.Ready?)
    {
      StaleWriteAppend(m.log, Wrote(m.pc.gen), f, i);
      if StaleWrite(m.log, f, i) && RestartWithin(m.log, i, |m.log|) {
        RestartAppend(m.log, Wrote(m.pc.gen), i, |m.log|);
      }
    }
  }

  lemma ServiceKeepsBarrier(m: Machine)
    requires BarrierInv(m) && m.pc.LoopTop?
    ensures BarrierInv(Next(m, ServiceRestart))
  {
    if m.restartPending {
      QuietAppend(m.log, Restarted);
      var log' := m.log + [Restarted];
      assert log'[|m.log|].Restarted?;
      forall f, i | StaleWrite(log', f, i) ensures RestartWithin(log', i, |log'|) { }
    } else {
      assert m.log + [] == m.log;
    }
  }

  /** A turn logs one entry, and leaves the player holding at most samples of the current generation. */
  lemma TurnShape(m: Machine, decoded: nat)
    ensures var m' := Turned(m, decoded);
            && |m'.log| == |m.log| + 1 && m'.log == m.log + [m'.log[|m.log|]] && IsTurn(m'.log[|m.log|])
            && m'.core.gen == m.core.gen && m'.flushing == m.flushing && m'.restartPending == m.restartPending
            && !m'.pc.Ready? && !m'.pc.Call? && (Holding(m'.pc) ==> m'.pc.gen == m.core.gen)
  {
    TurnKeepsHeld(m.core);
  }

  lemma TurnKeepsBarrier(m: Machine, decoded: nat)
    requires BarrierInv(m) && m.pc.Ready?
    ensures BarrierInv(Turned(m, decoded))
  {
    hide Turned;
    TurnShape(m, decoded);
    var entry := Turned(m, decoded).log[|m.log|];
    if IsPop(entry) { PopAppend(m.log, entry); } else { QuietAppend(m.log, entry); }
  }

  /** A step of another thread: an arrival or one of the two halves of a flush. */
  lemma QuietStepKeepsBarrier(m: Machine, m': Machine, entry: Entry)
    requires BarrierInv(m) && !entry.Wrote? && !IsPop(entry)
    requires m'.log == m.log + [entry] && m'.pc == m.pc && m'.core.gen >= m.core.gen
    requires (m.restartPending ==> m'.restartPending) && (IsFlush(entry) ==> entry.gen == m'.core.gen)
    requires entry.Flushing? ==> m'.restartPending
    ensures BarrierInv(m')
  {
    QuietAppend(m.log, entry);
  }

  lemma StepKeepsBarrier(m: Machine, a: Action)
    requires BarrierInv(m)
    ensures BarrierInv(Next(m, a))
  {
    var m' := Next(m, a);
    match a
    case Arrive(wireSeq, wireTs, payload) =>
      var (core, event) := Receive(m.core, wireSeq, wireTs, payload);
      assert m.log + [] == m.log;
      if event.Stored? && m.flushing.None? { QuietStepKeepsBarrier(m, m', Accepted(event.ext, event.packet)); }
    case BeginFlush(_, _) =>
      if m.flushing.None? { QuietStepKeepsBarrier(m, m', Bumped(m.core.gen + 1, m.restartPending)); }
    case EndFlush =>
      if m.flushing.Some? {
        QuietStepKeepsBarrier(m, m', Flushing(m.core.gen, m.flushing.value.0, m.flushing.value.1, m.pc.Ready?));
      }
    case ServiceRestart => if m.pc.LoopTop? { ServiceKeepsBarrier(m); }
    case TakeTurn(decoded) => if m.pc.Ready? && m.flushing.None? { TurnKeepsBarrier(m, decoded); }
    case CompareGen =>
    case SinkWrite(accepted) => if m.pc.Call? { WriteKeepsBarrier(m, accepted); }
  }

  lemma {:induction false} RunKeepsBarrier(m: Machine, actions: seq<Action>)
    requires BarrierInv(m)
    ensures BarrierInv(RunMachine(m, actions))
    decreases |actions|
  {
    if actions != [] {
      StepKeepsBarrier(m, actions[0]);
      RunKeepsBarrier(Next(m, actions[0]), actions[1..]);
    }
  }

  // ----- resync hysteresis ----------------------------------------------------------------

  ghost predicate HysteresisInv(m: Machine) {
    m.core.hold + m.streak <= RESYNC_HOLD && (m.streak > 0 ==> m.core.hold > 0)
  }

  lemma StepKeepsHysteresis(m: Machine, a: Action)
    requires HysteresisInv(m)
    ensures HysteresisInv(Next(m, a))
  {
  }

  /**
   The streak counts the latest consecutive player iterations that stalled on a lapped buffer
   without a resync; the 64th such iteration always resyncs.
   */
  lemma {:induction false} ResyncWithin64Stalls(m: Machine, actions: seq<Action>)
    requires HysteresisInv(m)
    ensures HysteresisInv(RunMachine(m, actions))
    ensures RunMachine(m, actions).streak < RESYNC_HOLD
    decreases |actions|
  {
    if actions != [] {
      StepKeepsHysteresis(m, actions[0]);
      ResyncWithin64Stalls(Next(m, actions[0]), actions[1..]);
    }
  }

  /** From the start of a session, in every interleaving. */
  lemma NoLongStall(framesPerPacket: nat, seq0: Word16, ts0: Word32, actions: seq<Action>)
    ensures RunMachine(Begin(framesPerPacket, seq0, ts0), actions).streak < RESYNC_HOLD
  {
    ResyncWithin64Stalls(Begin(framesPerPacket, seq0, ts0), actions);
  }
}
