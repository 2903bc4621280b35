/**
 The sink restart that a flush of src/session.c promises. The player reads the restart flag without the
 lock, so it may look between the generation bump and the request at the end of the flush section; this
 module says exactly when old samples written since the bump are followed by a restart before a pop.
 */
module SessionRestart {
  import opened Words
  import opened JitterModel
  import opened Playback
  import opened SessionModel
  import opened SessionBarrier

  /** A write of samples from before the flush that began at entry b. */
  ghost predicate Stale(log: seq<Entry>, b: int, i: int) {
    StaleWrite(log, b, i) && log[b].Bumped?
  }

  ghost predicate TurnWithin(log: seq<Entry>, after: int, before: int) {
    exists t :: 0 <= t < |log| && after < t < before && IsTurn(log[t])
  }

  ghost predicate RestartSince(log: seq<Entry>, after: int) {
    RestartWithin(log, after, |log|)
  }

  ghost predicate TurnSince(log: seq<Entry>, after: int) {
    TurnWithin(log, after, |log|)
  }

  /** The flush begun at b, with no restart requested by then, ended at f. */
  ghost predicate Unasked(log: seq<Entry>, b: int, f: int) {
    && 0 <= b < f < |log| && log[b].Bumped? && log[f].Flushing? && log[f].gen == log[b].gen
    && !log[b].pending
  }

  /** It ended after the player had looked for a request. */
  ghost predicate EndsUnseen(log: seq<Entry>, b: int, f: int) {
    Unasked(log, b, f) && log[f].ready
  }

  /** It ended so after the write i, and the player's next turn was the pop p. */
  ghost predicate SlipsThrough(log: seq<Entry>, b: int, i: int, p: int) {
    exists f :: i < f < p && EndsUnseen(log, b, f) && !TurnWithin(log, f, p)
  }

  // ----- what the log keeps ------------------------------------------------------------------

  /** A flush that began with no request pending ended before any restart. */
  ghost predicate NoneInSection(log: seq<Entry>) {
    forall b, f :: Unasked(log, b, f) ==> !RestartWithin(log, b, f)
  }

  /** A player that had looked when a flush ended takes a turn before it looks again. */
  ghost predicate TurnFirst(log: seq<Entry>) {
    forall f, r :: 0 <= f < r < |log| && log[f].Flushing? && log[f].ready && log[r].Restarted? ==> TurnWithin(log, f, r)
  }

  ghost predicate RestartOrSlip(log: seq<Entry>) {
    forall b, i, p :: Stale(log, b, i) && i < p < |log| && IsPop(log[p]) ==>
                        RestartWithin(log, i, p) || SlipsThrough(log, b, i, p)
  }

  lemma WithinAppend(log: seq<Entry>, e: Entry, after: int, before: int)
    requires before <= |log|
    ensures RestartWithin(log + [e], after, before) <==> RestartWithin(log, after, before)
    ensures TurnWithin(log + [e], after, before) <==> TurnWithin(log, after, before)
  {
    var log' := log + [e];
    if RestartWithin(log, after, before) { RestartAppend(log, e, after, before); }
    if r :| 0 <= r < |log'| && after < r < before && log'[r].Restarted? { assert log[r] == log'[r]; }
    if t :| 0 <= t < |log| && after < t < before && IsTurn(log[t]) { assert log'[t] == log[t]; }
    if t :| 0 <= t < |log'| && after < t < before && IsTurn(log'[t]) { assert log[t] == log'[t]; }
  }

  lemma SlipAppend(log: seq<Entry>, e: Entry, b: int, i: int, p: int)
    requires p <= |log| && SlipsThrough(log, b, i, p)
    ensures SlipsThrough(log + [e], b, i, p)
  {
    var f :| i < f < p && EndsUnseen(log, b, f) && !TurnWithin(log, f, p);
    WithinAppend(log, e, f, p);
    assert EndsUnseen(log + [e], b, f);
  }

  lemma SectionAppend(log: seq<Entry>, e: Entry)
    requires NoneInSection(log)
    requires e.Flushing? ==>
               forall b :: 0 <= b < |log| && log[b].Bumped? && log[b].gen == e.gen && !log[b].pending ==>
                             !RestartSince(log, b)
    ensures NoneInSection(log + [e])
  {
    var log' := log + [e];
    forall b, f | Unasked(log', b, f) ensures !RestartWithin(log', b, f) {
      WithinAppend(log, e, b, f);
      assert log'[b] == log[b];
      if f < |log| { assert Unasked(log, b, f); }
    }
  }

  lemma TurnFirstAppend(log: seq<Entry>, e: Entry)
    requires TurnFirst(log)
    requires e.Restarted? ==>
               forall f :: 0 <= f < |log| && log[f].Flushing? && log[f].ready ==> TurnSince(log, f)
    ensures TurnFirst(log + [e])
  {
    var log' := log + [e];
    forall f, r | 0 <= f < r < |log'| && log'[f].Flushing? && log'[f].ready && log'[r].Restarted?
      ensures TurnWithin(log', f, r)
    {
      WithinAppend(log, e, f, r);
      assert log'[f] == log[f] && (r < |log| ==> log'[r] == log[r]);
    }
  }

  lemma SlipOrRestartAppend(log: seq<Entry>, e: Entry)
    requires RestartOrSlip(log)
    requires IsPop(e) ==>
               forall b, i :: Stale(log, b, i) ==> RestartSince(log, i) || SlipsThrough(log, b, i, |log|)
    ensures RestartOrSlip(log + [e])
  {
    var log' := log + [e];
    forall b, i, p | Stale(log', b, i) && i < p < |log'| && IsPop(log'[p])
      ensures RestartWithin(log', i, p) || SlipsThrough(log', b, i, p)
    {
      StaleWriteAppend(log, e, b, i);
      assert log'[b] == log[b] && Stale(log, b, i) && (p < |log| ==> log'[p] == log[p]);
      WithinAppend(log, e, i, p);
      if !RestartWithin(log, i, p) { SlipAppend(log, e, b, i, p); }
    }
  }

  // ----- what the machine keeps ----------------------------------------------------------------

  /** The section of the flush begun at b is open, and nothing was requested when it began. */
  ghost predicate OpenUnasked(m: Machine, b: int)
    requires 0 <= b < |m.log| && m.log[b].Bumped?
  {
    m.flushing.Some? && m.log[b].gen == m.core.gen && !m.log[b].pending
  }

  ghost predicate Sections(m: Machine) {
    forall b :: 0 <= b < |m.log| && m.log[b].Bumped? ==>
                  && m.log[b].gen <= m.core.gen
                  && (OpenUnasked(m, b) ==> !m.restartPending && !RestartSince(m.log, b))
  }

  ghost predicate Looked(m: Machine) {
    forall f :: 0 <= f < |m.log| && m.log[f].Flushing? && m.log[f].ready && !TurnSince(m.log, f) ==>
                  m.pc.Ready? && m.restartPending
  }

  ghost predicate InTheHand(m: Machine) {
    Holding(m.pc) ==>
      forall b :: 0 <= b < |m.log| && m.log[b].Bumped? && m.pc.gen < m.log[b].gen ==>
                    m.restartPending || OpenUnasked(m, b)
  }

  /** What has become of a stale write: restarted since, about to be, in an open section still, or slipping through. */
  ghost predicate Followed(m: Machine, b: int, i: int)
    requires Stale(m.log, b, i)
  {
    || RestartSince(m.log, i)
    || (m.restartPending && !m.pc.Ready?)
    || OpenUnasked(m, b)
    || SlipsThrough(m.log, b, i, |m.log|)
  }

  ghost predicate RestartInv(m: Machine) {
    && NoneInSection(m.log) && TurnFirst(m.log) && RestartOrSlip(m.log)
    && Sections(m) && Looked(m) && InTheHand(m)
    && (forall b, i :: Stale(m.log, b, i) ==> Followed(m, b, i))
  }

  lemma SinceAppend(log: seq<Entry>, e: Entry, x: int)
    requires 0 <= x < |log|
    ensures RestartSince(log + [e], x) <==> RestartSince(log, x) || e.Restarted?
    ensures TurnSince(log + [e], x) <==> TurnSince(log, x) || IsTurn(e)
  {
    var log', n := log + [e], |log|;
    assert log'[n] == e;
    WithinAppend(log, e, x, n);
    if r :| 0 <= r < |log'| && x < r < n + 1 && log'[r].Restarted? && r < n { assert RestartWithin(log', x, n); }
    if RestartWithin(log', x, n) { var r :| 0 <= r < |log'| && x < r < n && log'[r].Restarted?; assert x < r < |log'|; }
    if t :| 0 <= t < |log'| && x < t < n + 1 && IsTurn(log'[t]) && t < n { assert TurnWithin(log', x, n); }
    if TurnWithin(log', x, n) { var t :| 0 <= t < |log'| && x < t < n && IsTurn(log'[t]); assert x < t < |log'|; }
  }

  lemma SlipSinceAppend(log: seq<Entry>, e: Entry, b: int, i: int)
    requires SlipsThrough(log, b, i, |log|) && !IsTurn(e)
    ensures SlipsThrough(log + [e], b, i, |log + [e]|)
  {
    var f :| i < f < |log| && EndsUnseen(log, b, f) && !TurnWithin(log, f, |log|);
    SinceAppend(log, e, f);
    assert EndsUnseen(log + [e], b, f);
  }

  /** The same facts for every entry and every stale write at once. */
  lemma EndAppend(log: seq<Entry>, log': seq<Entry>, e: Entry)
    requires log' == log + [e]
    ensures forall x :: 0 <= x < |log| ==> log'[x] == log[x]
    ensures forall x :: 0 <= x < |log| ==> (RestartSince(log', x) <==> RestartSince(log, x) || e.Restarted?)
    ensures forall x :: 0 <= x < |log| ==> (TurnSince(log', x) <==> TurnSince(log, x) || IsTurn(e))
    ensures !IsTurn(e) ==> forall b, i :: SlipsThrough(log, b, i, |log|) ==> SlipsThrough(log', b, i, |log'|)
  {
    forall x | 0 <= x < |log|
      ensures RestartSince(log', x) <==> RestartSince(log, x) || e.Restarted?
      ensures TurnSince(log', x) <==> TurnSince(log, x) || IsTurn(e)
    {
      SinceAppend(log, e, x);
    }
    if !IsTurn(e) {
      forall b, i | SlipsThrough(log, b, i, |log|) ensures SlipsThrough(log', b, i, |log'|) {
        SlipSinceAppend(log, e, b, i);
      }
    }
  }

  /** An entry that is no write, turn, restart or end of a flush. */
  predicate Plain(e: Entry) {
    e.Accepted? || e.Bumped?
  }

  lemma PlainLog(log: seq<Entry>, e: Entry)
    requires NoneInSection(log) && TurnFirst(log) && RestartOrSlip(log) && Plain(e)
    ensures NoneInSection(log + [e]) && TurnFirst(log + [e]) && RestartOrSlip(log + [e])
    ensures forall b, i :: Stale(log + [e], b, i) <==> Stale(log, b, i)
  {
    SectionAppend(log, e);
    TurnFirstAppend(log, e);
    SlipOrRestartAppend(log, e);
    forall b, i ensures Stale(log + [e], b, i) <==> Stale(log, b, i) { StaleWriteAppend(log, e, b, i); }
  }

  lemma AcceptKeeps(m: Machine, m': Machine, e: Entry)
    requires RestartInv(m) && e.Accepted? && m'.log == m.log + [e] && m'.core.gen == m.core.gen
    requires m'.pc == m.pc && m'.flushing == m.flushing && m'.restartPending == m.restartPending
    ensures RestartInv(m')
  {
    PlainLog(m.log, e);
    EndAppend(m.log, m'.log, e);
    forall b, i | Stale(m'.log, b, i) ensures Followed(m', b, i) { assert Followed(m, b, i); }
  }

  lemma BeginKeeps(m: Machine, newSeq: Word16, newTs: Word32)
    requires RestartInv(m) && m.flushing.None?
    ensures RestartInv(Next(m, BeginFlush(newSeq, newTs)))
  {
    var m', e := Next(m, BeginFlush(newSeq, newTs)), Bumped(m.core.gen + 1, m.restartPending);
    PlainLog(m.log, e);
    EndAppend(m.log, m'.log, e);
    forall b, i | Stale(m'.log, b, i) ensures Followed(m', b, i) { assert Followed(m, b, i); }
  }

  lemma EndKeeps(m: Machine)
    requires RestartInv(m) && m.flushing.Some?
    ensures RestartInv(Next(m, EndFlush))
  {
    var m', n := Next(m, EndFlush), |m.log|;
    var e := Flushing(m.core.gen, m.flushing.value.0, m.flushing.value.1, m.pc.Ready?);
    SectionAppend(m.log, e);
    TurnFirstAppend(m.log, e);
    SlipOrRestartAppend(m.log, e);
    EndAppend(m.log, m'.log, e);
    forall b, i | Stale(m'.log, b, i) ensures Followed(m', b, i) {
      StaleWriteAppend(m.log, e, b, i);
      assert Followed(m, b, i);
      if OpenUnasked(m, b) && m.pc.Ready? {
        assert EndsUnseen(m'.log, b, n) && !TurnSince(m'.log, n);
      }
    }
  }

  lemma RestartKeeps(m: Machine, m': Machine)
    requires RestartInv(m) && m.pc.LoopTop? && m.restartPending
    requires m' == m.(pc := Ready, restartPending := false, log := m.log + [Restarted])
    ensures RestartInv(m')
  {
    SectionAppend(m.log, Restarted);
    TurnFirstAppend(m.log, Restarted);
    SlipOrRestartAppend(m.log, Restarted);
    EndAppend(m.log, m'.log, Restarted);
    forall b, i | Stale(m'.log, b, i) ensures Followed(m', b, i) { StaleWriteAppend(m.log, Restarted, b, i); }
  }

  lemma LookKeeps(m: Machine, m': Machine)
    requires RestartInv(m) && m.pc.LoopTop? && !m.restartPending && m' == m.(pc := Ready)
    ensures RestartInv(m')
  {
    forall b, i | Stale(m'.log, b, i) ensures Followed(m', b, i) { assert Followed(m, b, i); }
  }

  lemma ServiceKeeps(m: Machine)
    requires RestartInv(m) && m.pc.LoopTop?
    ensures RestartInv(Next(m, ServiceRestart))
  {
    hide RestartInv;
    var m' := Next(m, ServiceRestart);
    assert m.log + [] == m.log;
    if m.restartPending { RestartKeeps(m, m'); } else { LookKeeps(m, m'); }
  }

  lemma TurnKeeps(m: Machine, m': Machine, e: Entry)
    requires RestartInv(m) && m.pc.Ready? && m.flushing.None? && IsTurn(e)
    requires m'.log == m.log + [e] && m'.core.gen == m.core.gen && m'.flushing.None? && !m'.pc.Ready?
    requires m'.restartPending == m.restartPending && (Holding(m'.pc) ==> m'.pc.gen == m.core.gen)
    ensures RestartInv(m')
  {
    forall b, i | Stale(m.log, b, i) ensures RestartSince(m.log, i) || SlipsThrough(m.log, b, i, |m.log|) {
      assert Followed(m, b, i);
    }
    SectionAppend(m.log, e);
    TurnFirstAppend(m.log, e);
    SlipOrRestartAppend(m.log, e);
    EndAppend(m.log, m'.log, e);
    forall b, i | Stale(m'.log, b, i) ensures Followed(m', b, i) {
      StaleWriteAppend(m.log, e, b, i);
      assert Followed(m, b, i);
      if !RestartSince(m.log, i) {
        var f :| i < f < |m.log| && EndsUnseen(m.log, b, f) && !TurnSince(m.log, f);
        assert m.restartPending;
      }
    }
  }

  lemma WriteKeeps(m: Machine, accepted: int)
    requires RestartInv(m) && m.pc.Call?
    ensures RestartInv(Next(m, SinkWrite(accepted)))
  {
    var m', e := Next(m, SinkWrite(accepted)), Wrote(m.pc.gen);
    SectionAppend(m.log, e);
    TurnFirstAppend(m.log, e);
    SlipOrRestartAppend(m.log, e);
    EndAppend(m.log, m'.log, e);
    forall b, i | Stale(m'.log, b, i) ensures Followed(m', b, i) {
      StaleWriteAppend(m.log, e, b, i);
      if i < |m.log| { assert Followed(m, b, i); }
    }
  }

  lemma CompareKeeps(m: Machine)
    requires RestartInv(m) && m.pc.Check?
    ensures RestartInv(Next(m, CompareGen))
  {
    var m' := Next(m, CompareGen);
    forall b, i | Stale(m'.log, b, i) ensures Followed(m', b, i) { assert Followed(m, b, i); }
  }

  lemma StepKeepsRestart(m: Machine, a: Action)
    requires RestartInv(m)
    ensures RestartInv(Next(m, a))
  {
    hide RestartInv;
    match a
    case Arrive(wireSeq, wireTs, payload) =>
      var (core, event) := Receive(m.core, wireSeq, wireTs, payload);
      if m.flushing.None? {
        if event.Stored? {
          AcceptKeeps(m, Next(m, a), Accepted(event.ext, event.packet));
        } else {
          assert m.log + [] == m.log;
          CoreMoves(m, core);
        }
      }
    case BeginFlush(newSeq, newTs) => if m.flushing.None? { BeginKeeps(m, newSeq, newTs); }
    case EndFlush => if m.flushing.Some? { EndKeeps(m); }
    case ServiceRestart => if m.pc.LoopTop? { ServiceKeeps(m); }
    case TakeTurn(decoded) =>
      if m.pc.Ready? && m.flushing.None? {
        hide Turned;
        TurnShape(m, decoded);
        TurnKeeps(m, Turned(m, decoded), Turned(m, decoded).log[|m.log|]);
      }
    case CompareGen => if m.pc.Check? { CompareKeeps(m); }
    case SinkWrite(accepted) => if m.pc.Call? { WriteKeeps(m, accepted); }
  }

  lemma CoreMoves(m: Machine, core: Core)
    requires RestartInv(m) && core.gen == m.core.gen
    ensures RestartInv(m.(core := core))
  {
    var m' := m.(core := core);
    forall b, i | Stale(m'.log, b, i) ensures Followed(m', b, i) { assert Followed(m, b, i); }
  }

  lemma {:induction false} RunKeepsRestart(m: Machine, actions: seq<Action>)
    requires RestartInv(m)
    ensures RestartInv(RunMachine(m, actions))
    decreases |actions|
  {
    if actions != [] {
      hide RestartInv, Next;
      StepKeepsRestart(m, actions[0]);
      RunKeepsRestart(Next(m, actions[0]), actions[1..]);
    }
  }

  lemma TurnNarrow(log: seq<Entry>, f: int, r: int, p: int)
    requires !TurnWithin(log, f, p) && r <= p
    ensures !TurnWithin(log, f, r)
  {
  }

  lemma NoneBetween(log: seq<Entry>, after: int, before: int, r: int)
    requires !RestartWithin(log, after, before) && after < r < before && 0 <= r < |log|
    ensures !log[r].Restarted?
  {
  }

  /** A write that slips through is followed by no restart up to the pop. */
  lemma SlipMeansNone(log: seq<Entry>, b: int, i: int, p: int, f: int)
    requires NoneInSection(log) && TurnFirst(log) && Stale(log, b, i)
    requires i < f < p < |log| && EndsUnseen(log, b, f) && !TurnWithin(log, f, p)
    ensures !RestartWithin(log, i, p)
  {
    forall r | 0 <= r < |log| && i < r < p ensures !log[r].Restarted? {
      if r < f {
        NoneBetween(log, b, f, r);
      } else if r > f {
        TurnNarrow(log, f, r, p);
      }
    }
  }

  lemma LogDecides(log: seq<Entry>, b: int, i: int, p: int)
    requires NoneInSection(log) && TurnFirst(log) && RestartOrSlip(log)
    requires Stale(log, b, i) && i < p < |log| && IsPop(log[p])
    ensures RestartWithin(log, i, p) <==> !SlipsThrough(log, b, i, p)
  {
    if SlipsThrough(log, b, i, p) {
      var f :| i < f < p && EndsUnseen(log, b, f) && !TurnWithin(log, f, p);
      SlipMeansNone(log, b, i, p, f);
    }
  }

  /** For every write of old samples since the generation bump of flush b, and every pop after it. */
  ghost predicate RestartUnlessSlipped(log: seq<Entry>) {
    forall b, i, p :: Stale(log, b, i) && i < p < |log| && IsPop(log[p]) ==>
                        (RestartWithin(log, i, p) <==> !SlipsThrough(log, b, i, p))
  }

  /**
   In every interleaving: once a flush has bumped the generation, old samples reach the sink through at
   most one more sink_write call. If they do, a sink restart comes before a pop exactly unless the player
   looked for the request after that call and before the end of the flush, with none pending from before,
   and its very next turn is that pop; after the end of the flush a restart always comes first.
   */
  lemma FlushBarrier(framesPerPacket: nat, seq0: Word16, ts0: Word32, actions: seq<Action>)
    ensures var log := RunMachine(Begin(framesPerPacket, seq0, ts0), actions).log;
            OneStaleWritePerFlush(log) && RestartBeforeNextPop(log) && RestartUnlessSlipped(log)
  {
    var m := Begin(framesPerPacket, seq0, ts0);
    RunKeepsBarrier(m, actions);
    RunKeepsRestart(m, actions);
    var log := RunMachine(m, actions).log;
    forall b, i, p | Stale(log, b, i) && i < p < |log| && IsPop(log[p])
      ensures RestartWithin(log, i, p) <==> !SlipsThrough(log, b, i, p)
    {
      LogDecides(log, b, i, p);
    }
  }

  // ----- a run in which the restart comes too late -------------------------------------------

  lemma Then(m: Machine, actions: seq<Action>, a: Action) returns (longer: seq<Action>)
    ensures RunMachine(m, longer) == Next(RunMachine(m, actions), a)
  {
    longer := actions + [a];
    OneMore(m, actions, a);
  }

  /** A pair of packets at the cursor of a buffer that holds nothing. */
  lemma TwoArrive(c: Core, ts: Word32, p: seq<Byte>)
    requires c.jit.held == map[] && c.jit.cursor == c.jit.boundary == c.jit.seqRef < 100 && |p| <= MAX_PAYLOAD
    requires !RejectStale(c, ts)
    ensures var n := c.jit.cursor;
            var (c1, e1) := Receive(c, n, ts, p);
            var (c2, e2) := Receive(c1, n + 1, ts, p);
            && e1 == Stored(n, Packet(ts, p)) && e2 == Stored(n + 1, Packet(ts, p))
            && c2.jit.held == map[n := Packet(ts, p), n + 1 := Packet(ts, p)] && c2.jit.cursor == n
            && c2.(jit := c.jit, rxCount := c.rxCount) == c && c2.rxCount == c.rxCount + 2
  {
    hide Receive;
    var n := c.jit.cursor;
    ArrivesInWindow(c, n, ts, p);
    ArrivesInWindow(Receive(c, n, ts, p).0, n + 1, ts, p);
  }

  /** The first of them is popped once the gate is open. */
  lemma PopsFirst(c: Core)
    requires c.jit.cursor in c.jit.held && (c.started || c.rxCount * c.framesPerPacket >= START_FILL_FRAMES)
    ensures var (c', turn) := PlayerTurn(c);
            turn == Popping(Data(c.jit.cursor, c.jit.held[c.jit.cursor])) && c'.gen == c.gen
  {
  }

  /** The player holds samples of the first packet and is about to write them. */
  lemma Writing0(p: seq<Byte>) returns (actions: seq<Action>)
    requires MIN_PAYLOAD <= |p| <= MAX_PAYLOAD
    ensures var m := RunMachine(Begin(MAX_FRAME_LENGTH, 0, 0), actions);
            && m.core.gen == 0 && m.core.framesPerPacket == MAX_FRAME_LENGTH && m.flushing.None? && !m.restartPending
            && m.pc == Call(0, 1, 0)
            && m.log == [Accepted(0, Packet(0, p)), Accepted(1, Packet(0, p)), Played(0, Packet(0, p))]
  {
    hide RunMachine, Receive, PlayerTurn;
    var b := Begin(MAX_FRAME_LENGTH, 0, 0);
    AtBegin(b);
    TwoArrive(b.core, 0, p);
    actions := Then(b, [], Arrive(0, 0, p));
    actions := Then(b, actions, Arrive(1, 0, p));
    actions := Then(b, actions, ServiceRestart);
    PopsFirst(RunMachine(b, actions).core);
    TurnKeepsFrames(RunMachine(b, actions).core);
    actions := Then(b, actions, TakeTurn(1));
    actions := Then(b, actions, CompareGen);
  }

  lemma AtBegin(m: Machine)
    ensures RunMachine(m, []) == m
  {
  }

  lemma TurnKeepsFrames(c: Core)
    ensures PlayerTurn(c).0.framesPerPacket == c.framesPerPacket
  {
  }

  /** A flush begins, the old samples are written, the player looks too early, the flush ends. */
  lemma LooksTooEarly(p: seq<Byte>) returns (actions: seq<Action>)
    requires MIN_PAYLOAD <= |p| <= MAX_PAYLOAD
    ensures var m := RunMachine(Begin(MAX_FRAME_LENGTH, 0, 0), actions);
            && m.core.jit.held == map[] && m.core.jit.cursor == m.core.jit.boundary == m.core.jit.seqRef == 10
            && m.core.flushed && m.core.boundaryTs == 100 && m.core.rxCount == 0
            && m.core.framesPerPacket == MAX_FRAME_LENGTH && m.flushing.None? && m.pc.Ready?
            && m.log == [Accepted(0, Packet(0, p)), Accepted(1, Packet(0, p)), Played(0, Packet(0, p)),
                         Bumped(1, false), Wrote(0), Flushing(1, 10, 100, true)]
  {
    hide RunMachine;
    var b := Begin(MAX_FRAME_LENGTH, 0, 0);
    actions := Writing0(p);
    actions := Then(b, actions, BeginFlush(10, 100));
    actions := Then(b, actions, SinkWrite(1));
    actions := Then(b, actions, CompareGen);
    actions := Then(b, actions, ServiceRestart);
    actions := Then(b, actions, EndFlush);
  }

  /** The gate fills again before the player takes its turn, and it pops new audio with no restart since the old. */
  lemma RestartComesTooLate(p: seq<Byte>)
    requires MIN_PAYLOAD <= |p| <= MAX_PAYLOAD
    ensures exists actions ::
              var log := RunMachine(Begin(MAX_FRAME_LENGTH, 0, 0), actions).log;
              |log| == 9 && Stale(log, 3, 4) && log[8] == Played(10, Packet(100, p)) && !RestartWithin(log, 4, 8)
  {
    hide RunMachine, Receive, PlayerTurn;
    var b := Begin(MAX_FRAME_LENGTH, 0, 0);
    var actions := LooksTooEarly(p);
    TwoArrive(RunMachine(b, actions).core, 100, p);
    actions := Then(b, actions, Arrive(10, 100, p));
    actions := Then(b, actions, Arrive(11, 100, p));
    PopsFirst(RunMachine(b, actions).core);
    actions := Then(b, actions, TakeTurn(1));
    var log := RunMachine(b, actions).log;
    assert log[3] == Bumped(1, false) && log[4] == Wrote(0) && log[5].Flushing? && log[6].Accepted? && log[7].Accepted?;
    assert Stale(log, 3, 4);
  }
}
