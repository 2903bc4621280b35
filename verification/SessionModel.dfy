/**
 The playing session of src/session.c. `Core` is what the session lock protects; each lock
 section is one function on it. `Machine` interleaves the receiver, the player thread (one
 step per lock section, generation check and sink_write call) and FLUSH in any order, and
 keeps a log of what happened. A flush is two steps, because the player reads the generation and the
 restart flag without the lock. Teardown and the ALAC decoder are choices of the environment.
 */
module SessionModel {
  import opened Words
  import opened SequenceExtension
  import opened JitterModel
  import opened Playback

  const RESYNC_HOLD: int := 64
  const MAX_BACKOFF_RETRIES: int := 200

  datatype Core = Core(jit: Jitter, framesPerPacket: nat, gen: nat, flushed: bool, boundaryTs: Word32,
                       started: bool, rxCount: nat, hold: nat)

  function Fresh(framesPerPacket: nat, seq0: Word16, ts0: Word32): Core {
    Core(Init(seq0, ts0), framesPerPacket, 0, false, 0, false, 0, 0)
  }

  /** A timestamp before the flush boundary under wrap-aware comparison. */
  predicate RejectStale(c: Core, ts: Word32) {
    c.flushed && Signed32(ts - c.boundaryTs) < 0
  }

  function Receive(c: Core, wireSeq: Word16, wireTs: Word32, payload: seq<Byte>): (Core, Event) {
    if RejectStale(c, wireTs) then (c, Refused)
    else
      var (jit, event) := InsertStep(c.jit, wireSeq, wireTs, payload);
      (c.(jit := jit, rxCount := c.rxCount + if event.Stored? then 1 else 0), event)
  }

  /** The flush section up to the generation bump, and the rest of it. */
  function Bump(c: Core): Core {
    c.(gen := c.gen + 1)
  }

  function FlushRest(c: Core, newSeq: Word16, newTs: Word32): Core {
    c.(jit := FlushStep(c.jit, newSeq, newTs).0, boundaryTs := newTs, flushed := true, started := false, rxCount := 0)
  }

  datatype Turn = Filling | Stalling | Jumped | Popping(event: Event)

  /** One iteration of the player up to releasing the lock. */
  ghost function PlayerTurn(c: Core): (Core, Turn) {
    var c := c.(hold := if c.hold > 0 then c.hold - 1 else 0);
    if !c.started && c.rxCount * c.framesPerPacket < START_FILL_FRAMES then (c, Filling)
    else
      var c := c.(started := true);
      var (jit, event) := PlayerPop(c.jit, ConcealWindow(c.framesPerPacket));
      if !event.Stall? then (c.(jit := jit), Popping(event))
      else if c.hold == 0 && Lapped(c.jit) then
        (c.(jit := ResyncStep(c.jit).0, hold := RESYNC_HOLD), Jumped)
      else (c, Stalling)
  }

  // ----- interleavings -----------------------------------------------------------------

  /** Where the player thread stands; the last two carry the generation its samples came from. */
  datatype Pc = LoopTop | Ready | Check(gen: nat, left: nat, retries: nat) | Call(gen: nat, left: nat, retries: nat)

  /**
   `pending` says whether a restart was already requested when a flush began, `ready` whether the player
   had already looked for a request when it ended; `Idled` is a turn of the player that pops nothing, waiting
   for the start fill or not.
   */
  datatype Entry =
    | Accepted(ext: nat, packet: Packet)
    | Bumped(gen: nat, pending: bool)
    | Flushing(gen: nat, boundary: nat, ts: Word32, ready: bool)
    | Played(ext: nat, packet: Packet)
    | Silenced(ext: nat)
    | Idled(filling: bool)
    | Wrote(gen: nat)
    | Restarted

  /** `flushing` holds the boundary of a flush that has bumped the generation and still has the lock. */
  datatype Machine = Machine(core: Core, flushing: Option<(Word16, Word32)>, restartPending: bool, pc: Pc, streak: nat,
                             log: seq<Entry>)

  datatype Action =
    | Arrive(wireSeq: Word16, wireTs: Word32, payload: seq<Byte>)
    | BeginFlush(newSeq: Word16, newTs: Word32)
    | EndFlush
    | ServiceRestart
    | TakeTurn(decoded: nat)
    | CompareGen
    | SinkWrite(accepted: int)

  function Begin(framesPerPacket: nat, seq0: Word16, ts0: Word32): Machine {
    Machine(Fresh(framesPerPacket, seq0, ts0), None, false, LoopTop, 0, [])
  }

  function Writing(gen: nat, samples: nat): Pc {
    if samples == 0 then LoopTop else Check(gen, samples, 0)
  }

  ghost function Turned(m: Machine, decoded: nat): Machine {
    var (core, turn) := PlayerTurn(m.core);
    var m' := m.(core := core, streak := 0);
    var silence := core.framesPerPacket * 2;
    match turn
    case Filling => m'.(pc := LoopTop, log := m.log + [Idled(true)])
    case Stalling =>
      m'.(pc := LoopTop, streak := if Lapped(core.jit) then m.streak + 1 else 0, log := m.log + [Idled(false)])
    case Jumped => m'.(pc := Writing(core.gen, silence), log := m.log + [Idled(false)])
    case Popping(event) =>
      if event.Data? then
        m'.(pc := Writing(core.gen, decoded), log := m.log + [Played(event.ext, event.packet)])
      else
        m'.(pc := Writing(core.gen, silence), log := m.log + [Silenced(m.core.jit.cursor)])
  }

  /** The pass through session_sink_write_all's loop after the sink took `accepted` samples. */
  function AfterWrite(gen: nat, left: nat, retries: nat, accepted: int): Pc {
    if accepted < 0 || accepted > left then LoopTop
    else if accepted == 0 then
      if retries + 1 > MAX_BACKOFF_RETRIES then LoopTop else Check(gen, left, retries + 1)
    else Check(gen, left - accepted, 0)
  }

  ghost function Next(m: Machine, a: Action): Machine {
    match a
    case Arrive(wireSeq, wireTs, payload) =>
      var (core, event) := Receive(m.core, wireSeq, wireTs, payload);
      if m.flushing.Some? then m
      else m.(core := core, log := m.log + if event.Stored? then [Accepted(event.ext, event.packet)] else [])
    case BeginFlush(newSeq, newTs) =>
      if m.flushing.Some? then m
      else
        m.(core := Bump(m.core), flushing := Some((newSeq, newTs)),
           log := m.log + [Bumped(m.core.gen + 1, m.restartPending)])
    case EndFlush =>
      if m.flushing.None? then m
      else
        var (newSeq, newTs) := m.flushing.value;
        m.(core := FlushRest(m.core, newSeq, newTs), flushing := None, restartPending := true,
           log := m.log + [Flushing(m.core.gen, newSeq, newTs, m.pc.Ready?)])
    case ServiceRestart =>
      if !m.pc.LoopTop? then m
      else m.(pc := Ready, restartPending := false, log := m.log + if m.restartPending then [Restarted] else [])
    case TakeTurn(decoded) => if !m.pc.Ready? || m.flushing.Some? then m else Turned(m, decoded)
    case CompareGen =>
      if !m.pc.Check? then m
      else if m.pc.left == 0 || m.core.gen != m.pc.gen then m.(pc := LoopTop)
      else m.(pc := Call(m.pc.gen, m.pc.left, m.pc.retries))
    case SinkWrite(accepted) =>
      if !m.pc.Call? then m
      else m.(pc := AfterWrite(m.pc.gen, m.pc.left, m.pc.retries, accepted), log := m.log + [Wrote(m.pc.gen)])
  }

  ghost function RunMachine(m: Machine, actions: seq<Action>): Machine
    decreases |actions|
  {
    if actions == [] then m else RunMachine(Next(m, actions[0]), actions[1..])
  }

  lemma {:induction false} RunConcat(m: Machine, a: seq<Action>, b: seq<Action>)
    ensures RunMachine(m, a + b) == RunMachine(RunMachine(m, a), b)
    decreases |a|
  {
    if a == [] {
      assert a + b == b;
    } else {
      assert (a + b)[1..] == a[1..] + b;
      RunConcat(Next(m, a[0]), a[1..], b);
    }
  }

  lemma OneMore(m: Machine, actions: seq<Action>, a: Action)
    ensures RunMachine(m, actions + [a]) == Next(RunMachine(m, actions), a)
  {
    hide Next;
    RunConcat(m, actions, [a]);
    assert [a][1..] == [];
  }

  lemma NoRivalInWindow(held: map<nat, Packet>, cursor: nat, ext: nat)
    requires cursor <= ext < cursor + SLOTS && forall e :: e in held ==> cursor <= e < cursor + SLOTS
    ensures Rivals(held, ext) == {}
  {
  }

  /** A packet within the window that is not held yet is stored and displaces nothing. */
  lemma ArrivesInWindow(c: Core, n: Word16, ts: Word32, p: seq<Byte>)
    requires Max(c.jit.cursor, c.jit.boundary) <= n < c.jit.cursor + SLOTS && n !in c.jit.held
    requires -32767 <= n - c.jit.seqRef <= 32767 && |p| <= MAX_PAYLOAD && !RejectStale(c, ts)
    requires forall e :: e in c.jit.held ==> c.jit.cursor <= e < c.jit.cursor + SLOTS
    ensures var (c', event) := Receive(c, n, ts, p);
            && event == Stored(n, Packet(ts, p)) && c'.jit.held == c.jit.held[n := Packet(ts, p)]
            && c'.jit.cursor == c.jit.cursor && c'.jit.boundary == c.jit.boundary
            && c'.jit.seqRef == Max(c.jit.seqRef, n) && c'.(jit := c.jit, rxCount := c.rxCount) == c
            && c'.rxCount == c.rxCount + 1
  {
    hide Rivals, ExtendSeq;
    assert n % WRAP16 == n;
    RecoveredIffNear(c.jit.seqRef, n);
    StoredIsWire(c.jit, n, ts, p);
    NoRivalInWindow(c.jit.held, c.jit.cursor, n);
  }

  // ----- only audio of the current epoch is played -------------------------------------

  ghost predicate NoFlushAfter(log: seq<Entry>, at: int) {
    forall k :: at < k < |log| && 0 <= k ==> !log[k].Flushing?
  }

  /** The packet was accepted at some point with no flush since. */
  ghost predicate AcceptedThisEpoch(log: seq<Entry>, ext: nat, packet: Packet) {
    exists a :: 0 <= a < |log| && log[a] == Accepted(ext, packet) && NoFlushAfter(log, a)
  }

  /** The packet is not before the boundary of the latest flush, by number or by timestamp. */
  ghost predicate WithinEpoch(log: seq<Entry>, ext: nat, packet: Packet) {
    forall f :: 0 <= f < |log| && log[f].Flushing? && NoFlushAfter(log, f) ==>
                  ext >= log[f].boundary && Signed32(packet.ts - log[f].ts) >= 0
  }

  ghost predicate OnlyFreshAudio(log: seq<Entry>) {
    forall p :: 0 <= p < |log| && log[p].Played? ==>
                  && AcceptedThisEpoch(log[..p], log[p].ext, log[p].packet)
                  && WithinEpoch(log[..p], log[p].ext, log[p].packet)
  }

  /** What the core knows about the latest flush. */
  ghost predicate FlushKnown(c: Core, log: seq<Entry>) {
    forall f :: 0 <= f < |log| && log[f].Flushing? && NoFlushAfter(log, f) ==>
                  c.flushed && log[f].boundary == c.jit.boundary && log[f].ts == c.boundaryTs
  }

  ghost predicate EpochInv(c: Core, log: seq<Entry>) {
    && (forall e :: e in c.jit.held ==> e >= c.jit.boundary)
    && FlushKnown(c, log)
    && OnlyFreshAudio(log)
    && (forall e :: e in c.jit.held ==>
                      AcceptedThisEpoch(log, e, c.jit.held[e]) && !RejectStale(c, c.jit.held[e].ts))
  }

  /** The core moves on within its epoch: what it holds it held before, or has just accepted. */
  ghost predicate SameEpoch(c: Core, c': Core) {
    && c'.flushed == c.flushed && c'.boundaryTs == c.boundaryTs && c'.jit.boundary == c.jit.boundary
  }

  ghost predicate HeldBefore(c: Core, c': Core, e: nat)
    requires e in c'.jit.held
  {
    e in c.jit.held && c'.jit.held[e] == c.jit.held[e]
  }

  lemma NoFlushAfterAppend(log: seq<Entry>, entry: Entry, at: int)
    requires -1 <= at < |log|
    ensures NoFlushAfter(log + [entry], at) <==> NoFlushAfter(log, at) && !entry.Flushing?
  {
    var log' := log + [entry];
    if NoFlushAfter(log', at) {
      assert !log'[|log|].Flushing?;
      forall k | at < k < |log| && 0 <= k ensures !log[k].Flushing? { assert log'[k] == log[k]; }
    }
  }

  /** Appending an entry other than a flush keeps what was accepted this epoch, and the latest flush. */
  lemma AppendInEpoch(c: Core, log: seq<Entry>, entry: Entry)
    requires !entry.Flushing? && FlushKnown(c, log)
    ensures FlushKnown(c, log + [entry])
    ensures forall ext, packet :: AcceptedThisEpoch(log, ext, packet) ==> AcceptedThisEpoch(log + [entry], ext, packet)
  {
    forall ext, packet | AcceptedThisEpoch(log, ext, packet)
      ensures AcceptedThisEpoch(log + [entry], ext, packet)
    {
      var a :| 0 <= a < |log| && log[a] == Accepted(ext, packet) && NoFlushAfter(log, a);
      NoFlushAfterAppend(log, entry, a);
      assert (log + [entry])[a] == log[a];
    }
    forall f | 0 <= f < |log + [entry]| && (log + [entry])[f].Flushing? && NoFlushAfter(log + [entry], f)
      ensures c.flushed && (log + [entry])[f].boundary == c.jit.boundary && (log + [entry])[f].ts == c.boundaryTs
    {
      NoFlushAfterAppend(log, entry, f);
      assert log[f].Flushing?;
    }
  }

  lemma FreshAfterAppend(log: seq<Entry>, entry: Entry)
    requires OnlyFreshAudio(log)
    requires entry.Played? ==> AcceptedThisEpoch(log, entry.ext, entry.packet)
                               && WithinEpoch(log, entry.ext, entry.packet)
    ensures OnlyFreshAudio(log + [entry])
  {
    var log' := log + [entry];
    forall p | 0 <= p < |log'| && log'[p].Played?
      ensures AcceptedThisEpoch(log'[..p], log'[p].ext, log'[p].packet)
              && WithinEpoch(log'[..p], log'[p].ext, log'[p].packet)
    {
      assert log'[..p] == log[..p];
      if p < |log| { assert log[p] == log'[p]; } else { assert log[..p] == log; }
    }
  }

  /** One entry is logged while the core moves on within its epoch. */
  lemma EpochGoesOn(c: Core, log: seq<Entry>, c': Core, entry: Entry)
    requires EpochInv(c, log) && SameEpoch(c, c') && !entry.Flushing?
    requires entry.Played? ==> entry.ext in c.jit.held && entry.packet == c.jit.held[entry.ext]
    requires forall e :: e in c'.jit.held ==>
                           || HeldBefore(c, c', e)
                           || (entry == Accepted(e, c'.jit.held[e]) && e >= c.jit.boundary
                               && !RejectStale(c, c'.jit.held[e].ts))
    ensures EpochInv(c', log + [entry])
  {
    if entry.Played? { HeldIsFresh(c, log, entry.ext); }
    AppendInEpoch(c, log, entry);
    FreshAfterAppend(log, entry);
    assert (log + [entry])[|log|] == entry;
    assert NoFlushAfter(log + [entry], |log|);
    hide NoFlushAfter, WithinEpoch, OnlyFreshAudio;
    forall e | e in c'.jit.held
      ensures AcceptedThisEpoch(log + [entry], e, c'.jit.held[e])
    {
      if HeldBefore(c, c', e) { assert AcceptedThisEpoch(log, e, c.jit.held[e]); }
    }
  }

  /** Nothing is logged and nothing is lost or gained. */
  lemma EpochStands(c: Core, log: seq<Entry>, c': Core)
    requires EpochInv(c, log) && SameEpoch(c, c') && c'.jit.held == c.jit.held
    ensures EpochInv(c', log)
  {
  }

  lemma ArriveKeepsEpoch(m: Machine, wireSeq: Word16, wireTs: Word32, payload: seq<Byte>)
    requires EpochInv(m.core, m.log)
    ensures var m' := Next(m, Arrive(wireSeq, wireTs, payload)); EpochInv(m'.core, m'.log)
  {
    if m.flushing.Some? { return; }
    var (core, event) := Receive(m.core, wireSeq, wireTs, payload);
    if event.Stored? {
      StoredIsWire(m.core.jit, wireSeq, wireTs, payload);
      EpochGoesOn(m.core, m.log, core, Accepted(event.ext, event.packet));
    } else {
      assert m.log + [] == m.log;
      EpochStands(m.core, m.log, core);
    }
  }

  lemma FlushKeepsEpoch(m: Machine)
    requires EpochInv(m.core, m.log) && m.flushing.Some?
    ensures var m' := Next(m, EndFlush); EpochInv(m'.core, m'.log)
  {
    var entry := Flushing(m.core.gen, m.flushing.value.0, m.flushing.value.1, m.pc.Ready?);
    FreshAfterAppend(m.log, entry);
    forall f | 0 <= f < |m.log + [entry]| && (m.log + [entry])[f].Flushing? && NoFlushAfter(m.log + [entry], f)
      ensures f == |m.log|
    {
      if f < |m.log| { NoFlushAfterAppend(m.log, entry, f); }
    }
  }

  /** The held packets after a turn are among those held before it. */
  lemma TurnKeepsHeld(c: Core)
    ensures var (c', turn) := PlayerTurn(c);
            && SameEpoch(c, c') && c'.gen == c.gen
            && (forall e :: e in c'.jit.held ==> HeldBefore(c, c', e))
            && (turn.Popping? ==> turn.event.Data? || turn.event.Conceal?)
            && (turn.Popping? && turn.event.Data? ==>
                  turn.event.ext in c.jit.held && turn.event.packet == c.jit.held[turn.event.ext])
            && (!turn.Popping? ==> c'.jit.held == c.jit.held)
  {
  }

  lemma HeldIsFresh(c: Core, log: seq<Entry>, ext: nat)
    requires EpochInv(c, log) && ext in c.jit.held
    ensures AcceptedThisEpoch(log, ext, c.jit.held[ext])
    ensures WithinEpoch(log, ext, c.jit.held[ext])
  {
  }

  lemma TurnKeepsEpoch(m: Machine, decoded: nat)
    requires EpochInv(m.core, m.log)
    ensures var m' := Turned(m, decoded); EpochInv(m'.core, m'.log)
  {
    var (core, turn) := PlayerTurn(m.core);
    TurnKeepsHeld(m.core);
    var entry := if !turn.Popping? then Idled(turn.Filling?)
                 else if turn.event.Data? then Played(turn.event.ext, turn.event.packet)
                 else Silenced(m.core.jit.cursor);
    EpochGoesOn(m.core, m.log, core, entry);
  }

  lemma StepKeepsEpoch(m: Machine, a: Action)
    requires EpochInv(m.core, m.log)
    ensures EpochInv(Next(m, a).core, Next(m, a).log)
  {
    match a
    case Arrive(wireSeq, wireTs, payload) => ArriveKeepsEpoch(m, wireSeq, wireTs, payload);
    case BeginFlush(_, _) =>
      if m.flushing.None? { EpochGoesOn(m.core, m.log, Bump(m.core), Bumped(m.core.gen + 1, m.restartPending)); }
    case EndFlush => if m.flushing.Some? { FlushKeepsEpoch(m); }
    case ServiceRestart =>
      assert m.log + [] == m.log;
      EpochGoesOn(m.core, m.log, m.core, Restarted);
    case TakeTurn(decoded) => TurnKeepsEpoch(m, decoded);
    case CompareGen =>
    case SinkWrite(_) =>
      if m.pc.Call? { EpochGoesOn(m.core, m.log, m.core, Wrote(m.pc.gen)); }
  }

  lemma {:induction false} RunKeepsEpoch(m: Machine, actions: seq<Action>)
    requires EpochInv(m.core, m.log)
    ensures var m' := RunMachine(m, actions); EpochInv(m'.core, m'.log)
    decreases |actions|
  {
    if actions != [] {
      StepKeepsEpoch(m, actions[0]);
      RunKeepsEpoch(Next(m, actions[0]), actions[1..]);
    }
  }

  /**
   In every interleaving, each packet played was accepted after the latest flush, has a number
   at or after its boundary and a timestamp at a non-negative signed distance from it.
   */
  lemma PlaysOnlyThisEpoch(framesPerPacket: nat, seq0: Word16, ts0: Word32, actions: seq<Action>)
    ensures OnlyFreshAudio(RunMachine(Begin(framesPerPacket, seq0, ts0), actions).log)
  {
    RunKeepsEpoch(Begin(framesPerPacket, seq0, ts0), actions);
  }
}
