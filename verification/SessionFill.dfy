/**
 When the player of src/session.c plays: the start gate, which packets get past a flush boundary, and what
 becomes of the samples of a turn, all in terms of what has happened so far.
 */
module SessionFill {
  import opened Words
  import opened JitterModel
  import opened Playback
  import opened SessionModel
  import opened SessionBarrier

  // ----- the start gate -----------------------------------------------------------------------

  /** How many packets have been accepted since the latest flush. */
  function Fill(log: seq<Entry>): nat {
    if log == [] || log[|log| - 1].Flushing? then 0
    else Fill(log[..|log| - 1]) + if log[|log| - 1].Accepted? then 1 else 0
  }

  /** Every turn waits to fill exactly when the packets since the latest flush are fewer than the start fill. */
  ghost predicate Gated(log: seq<Entry>, framesPerPacket: nat) {
    forall p :: 0 <= p < |log| && IsTurn(log[p]) ==>
                  (log[p] == Idled(true) <==> Fill(log[..p]) * framesPerPacket < START_FILL_FRAMES)
  }

  ghost predicate FillInv(m: Machine, framesPerPacket: nat) {
    && m.core.framesPerPacket == framesPerPacket && m.core.rxCount == Fill(m.log)
    && (m.core.started ==> m.core.rxCount * framesPerPacket >= START_FILL_FRAMES)
    && Gated(m.log, framesPerPacket)
  }

  lemma GateAppend(log: seq<Entry>, e: Entry, framesPerPacket: nat)
    requires Gated(log, framesPerPacket)
    requires IsTurn(e) ==> (e == Idled(true) <==> Fill(log) * framesPerPacket < START_FILL_FRAMES)
    ensures Gated(log + [e], framesPerPacket)
    ensures Fill(log + [e]) == if e.Flushing? then 0 else Fill(log) + if e.Accepted? then 1 else 0
  {
    var log' := log + [e];
    assert log'[..|log|] == log;
    forall p | 0 <= p < |log'| && IsTurn(log'[p])
      ensures log'[p] == Idled(true) <==> Fill(log'[..p]) * framesPerPacket < START_FILL_FRAMES
    {
      if p < |log| { assert log'[..p] == log[..p] && log'[p] == log[p]; }
    }
  }

  /** A turn waits exactly while the gate is shut and the fill too small, and opens the gate otherwise. */
  lemma TurnFills(m: Machine, decoded: nat)
    ensures var m' := Turned(m, decoded);
            && |m'.log| == |m.log| + 1 && m'.log == m.log + [m'.log[|m.log|]] && IsTurn(m'.log[|m.log|])
            && m'.core.framesPerPacket == m.core.framesPerPacket && m'.core.rxCount == m.core.rxCount
            && (m'.log[|m.log|] == Idled(true) <==>
                  !m.core.started && m.core.rxCount * m.core.framesPerPacket < START_FILL_FRAMES)
            && (m'.core.started <==> m'.log[|m.log|] != Idled(true))
  {
    hide PlayerPop, ResyncStep;
  }

  /** What a step does to the fill count, in terms of the entry it logs. */
  lemma StepCounts(m: Machine, a: Action)
    ensures var m' := Next(m, a);
            && m'.core.framesPerPacket == m.core.framesPerPacket
            && (m'.log == m.log ==> m'.core.rxCount == m.core.rxCount && m'.core.started == m.core.started)
            && (m'.log != m.log ==>
                  && |m'.log| == |m.log| + 1 && m'.log == m.log + [m'.log[|m.log|]]
                  && var e := m'.log[|m.log|];
                  && m'.core.rxCount == (if e.Flushing? then 0 else m.core.rxCount + if e.Accepted? then 1 else 0)
                  && (IsTurn(e) ==> (e == Idled(true) <==>
                                       !m.core.started && m.core.rxCount * m.core.framesPerPacket < START_FILL_FRAMES))
                  && (m'.core.started ==> !e.Flushing? && (m.core.started || (IsTurn(e) && e != Idled(true)))))
  {
    hide Turned, InsertStep, FlushStep;
    assert m.log + [] == m.log;
    if a.TakeTurn? { TurnFills(m, a.decoded); }
  }

  lemma StepKeepsFill(m: Machine, a: Action, framesPerPacket: nat)
    requires FillInv(m, framesPerPacket)
    ensures FillInv(Next(m, a), framesPerPacket)
  {
    hide Next, Fill, Gated;
    StepCounts(m, a);
    var m' := Next(m, a);
    Grows(m.core.rxCount, framesPerPacket);
    if m'.log != m.log { GateAppend(m.log, m'.log[|m.log|], framesPerPacket); }
  }

  lemma Grows(n: nat, framesPerPacket: nat)
    ensures (n + 1) * framesPerPacket >= n * framesPerPacket
  {
  }

  lemma {:induction false} RunKeepsFill(m: Machine, actions: seq<Action>, framesPerPacket: nat)
    requires FillInv(m, framesPerPacket)
    ensures FillInv(RunMachine(m, actions), framesPerPacket)
    decreases |actions|
  {
    if actions != [] {
      hide FillInv, Next;
      StepKeepsFill(m, actions[0], framesPerPacket);
      RunKeepsFill(Next(m, actions[0]), actions[1..], framesPerPacket);
    }
  }

  /**
   In every interleaving a turn waits for the start fill if and only if the packets accepted since the
   latest flush, or since the start, hold fewer than 22050 frames; so nothing is popped before that.
   */
  lemma StartGateIff(framesPerPacket: nat, seq0: Word16, ts0: Word32, actions: seq<Action>)
    ensures Gated(RunMachine(Begin(framesPerPacket, seq0, ts0), actions).log, framesPerPacket)
  {
    RunKeepsFill(Begin(framesPerPacket, seq0, ts0), actions, framesPerPacket);
  }

  // ----- which packets a flush boundary keeps out ---------------------------------------------

  /** The timestamp of the latest flush. */
  function LatestFlush(log: seq<Entry>): Option<Word32> {
    if log == [] then None
    else if log[|log| - 1].Flushing? then Some(log[|log| - 1].ts)
    else LatestFlush(log[..|log| - 1])
  }

  ghost predicate FlushInv(m: Machine) {
    LatestFlush(m.log) == if m.core.flushed then Some(m.core.boundaryTs) else None
  }

  lemma LatestAppend(log: seq<Entry>, e: Entry)
    ensures LatestFlush(log + [e]) == if e.Flushing? then Some(e.ts) else LatestFlush(log)
  {
    assert (log + [e])[..|log|] == log;
  }

  lemma StepKeepsFlush(m: Machine, a: Action)
    requires FlushInv(m)
    ensures FlushInv(Next(m, a))
  {
    hide Turned, InsertStep, FlushStep, LatestFlush;
    var m' := Next(m, a);
    assert m.log + [] == m.log;
    if a.TakeTurn? { TurnFills(m, a.decoded); TurnKeepsHeld(m.core); TurnLogs(m, a.decoded); }
    if m'.log != m.log { LatestAppend(m.log, m'.log[|m.log|]); }
  }

  lemma TurnLogs(m: Machine, decoded: nat)
    ensures Turned(m, decoded).core == PlayerTurn(m.core).0
  {
    hide PlayerTurn;
  }

  lemma {:induction false} RunKeepsFlush(m: Machine, actions: seq<Action>)
    requires FlushInv(m)
    ensures FlushInv(RunMachine(m, actions))
    decreases |actions|
  {
    if actions != [] {
      hide FlushInv, Next;
      StepKeepsFlush(m, actions[0]);
      RunKeepsFlush(Next(m, actions[0]), actions[1..]);
    }
  }

  /**
   In every interleaving a packet leaves no trace if and only if its timestamp is at a negative signed
   distance from that of the latest flush; every other one is put to the jitter buffer, and logged if stored.
   */
  lemma BoundaryKeepsOut(framesPerPacket: nat, seq0: Word16, ts0: Word32, actions: seq<Action>,
                         wireSeq: Word16, wireTs: Word32, payload: seq<Byte>)
    requires RunMachine(Begin(framesPerPacket, seq0, ts0), actions).flushing.None?
    ensures var m := RunMachine(Begin(framesPerPacket, seq0, ts0), actions);
            var m' := Next(m, Arrive(wireSeq, wireTs, payload));
            var flush, (jit, event) := LatestFlush(m.log), InsertStep(m.core.jit, wireSeq, wireTs, payload);
            if flush.Some? && Signed32(wireTs - flush.value) < 0 then m' == m
            else
              && m'.core.jit == jit
              && m'.log == m.log + if event.Stored? then [Accepted(event.ext, event.packet)] else []
  {
    hide RunMachine, InsertStep;
    StartsUnflushed(framesPerPacket, seq0, ts0);
    RunKeepsFlush(Begin(framesPerPacket, seq0, ts0), actions);
  }

  lemma StartsUnflushed(framesPerPacket: nat, seq0: Word16, ts0: Word32)
    ensures FlushInv(Begin(framesPerPacket, seq0, ts0))
  {
  }

  // ----- what becomes of a turn's samples -----------------------------------------------------

  function Resyncs(m: Machine): nat { m.core.jit.counters.resyncs }

  function Owed(pc: Pc): nat { if pc.Check? || pc.Call? then pc.left else 0 }

  /** A turn owes the sink what was decoded, or a packet of silence for a lost one or a jump, and else nothing. */
  lemma TurnOwes(m: Machine, decoded: nat)
    requires m.pc.Ready? && m.flushing.None?
    ensures var m' := Next(m, TakeTurn(decoded));
            && Owed(m'.pc) == (match m'.log[|m'.log| - 1]
                               case Played(_, _) => decoded
                               case Silenced(_) => 2 * m.core.framesPerPacket
                               case _ => if Resyncs(m') > Resyncs(m) then 2 * m.core.framesPerPacket else 0)
            && (Owed(m'.pc) > 0 ==> m'.pc == Check(m.core.gen, Owed(m'.pc), 0))
  {
    hide ResyncTarget;
  }

  function Sum(replies: seq<int>): int {
    if replies == [] then 0 else Sum(replies[..|replies| - 1]) + replies[|replies| - 1]
  }

  /** How many of the last replies were zero. */
  function Zeros(replies: seq<int>): nat {
    if replies == [] || replies[|replies| - 1] != 0 then 0 else 1 + Zeros(replies[..|replies| - 1])
  }

  /** The sink's k-th reply makes the writer give up: an error, too many samples, or the 201st zero in a row. */
  ghost predicate Hopeless(left: nat, replies: seq<int>, k: nat)
    requires k < |replies|
  {
    replies[k] < 0 || replies[k] > left - Sum(replies[..k]) || Zeros(replies[..k + 1]) > MAX_BACKOFF_RETRIES
  }

  /** Calls of the sink with these replies, each after a look at the generation. */
  function Calls(replies: seq<int>): seq<Action> {
    if replies == [] then [] else Calls(replies[..|replies| - 1]) + [CompareGen, SinkWrite(replies[|replies| - 1])]
  }

  lemma OneCall(m: Machine, reply: int)
    requires m.pc.Check? && m.pc.left > 0 && m.core.gen == m.pc.gen
    ensures var m' := RunMachine(m, [CompareGen, SinkWrite(reply)]);
            m'.pc == AfterWrite(m.pc.gen, m.pc.left, m.pc.retries, reply) && m'.core == m.core
  {
    var m1 := Next(m, CompareGen);
    assert [CompareGen, SinkWrite(reply)][1..] == [SinkWrite(reply)] && [SinkWrite(reply)][1..] == [];
    assert RunMachine(m1, [SinkWrite(reply)]) == RunMachine(Next(m1, SinkWrite(reply)), []);
  }

  /**
   While the generation stands and no reply is hopeless, the sink is offered exactly what it has not taken
   yet, however few it takes at a time; the first hopeless reply ends the turn.
   */
  lemma {:induction false} SinkIsOfferedTheRest(m: Machine, replies: seq<int>)
    requires m.pc.Check? && m.pc.retries == 0 && m.core.gen == m.pc.gen
    requires forall k: nat :: k < |replies| ==> Sum(replies[..k]) < m.pc.left
    requires forall k: nat :: k + 1 < |replies| ==> !Hopeless(m.pc.left, replies, k)
    ensures var m' := RunMachine(m, Calls(replies));
            && m'.core == m.core
            && m'.pc == if replies != [] && Hopeless(m.pc.left, replies, |replies| - 1) then LoopTop
                        else Check(m.pc.gen, m.pc.left - Sum(replies), Zeros(replies))
    decreases |replies|
  {
    if replies != [] {
      var n := |replies| - 1;
      var before := replies[..n];
      assert forall k: nat :: k <= n ==> before[..k] == replies[..k];
      assert replies[..n + 1] == replies;
      forall k: nat | k < n ensures !Hopeless(m.pc.left, before, k) {
        assert !Hopeless(m.pc.left, replies, k);
        assert before[..k] == replies[..k] && before[..k + 1] == replies[..k + 1];
      }
      SinkIsOfferedTheRest(m, before);
      RunConcat(m, Calls(before), [CompareGen, SinkWrite(replies[n])]);
      OneCall(RunMachine(m, Calls(before)), replies[n]);
    }
  }
}
