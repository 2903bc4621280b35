/**
 Properties of whole runs of the jitter buffer: what one flush epoch pops, and when
 the 512-slot ring cannot be told from an unbounded map (src/jitter.c).
 */
module JitterRuns {
  import opened Words
  import opened SequenceExtension
  import opened JitterModel

  // ----- one flush epoch -----------------------------------------------------------

  ghost predicate NoFlush(ops: seq<Op>) {
    forall i :: 0 <= i < |ops| ==> !ops[i].Flush?
  }

  /** The numbers a run hands to the player, as audio or as concealment. */
  function Popped(events: seq<Event>): seq<nat> {
    if events == [] then []
    else if events[0].Data? || events[0].Conceal? then [events[0].ext] + Popped(events[1..])
    else Popped(events[1..])
  }

  function SkippedByResync(events: seq<Event>): nat {
    if events == [] then 0
    else (if events[0].Resynced? then events[0].skipped else 0) + SkippedByResync(events[1..])
  }

  ghost predicate StrictlyIncreasing(s: seq<nat>) {
    forall i, k :: 0 <= i < k < |s| ==> s[i] < s[k]
  }

  /**
   Within one flush epoch the popped numbers strictly increase, so none is handed over
   twice, and the cursor's travel is exactly the pops plus what resyncs skipped.
   */
  lemma {:induction false} EpochAccounting(j: Jitter, ops: seq<Op>)
    requires NoFlush(ops)
    ensures var popped := Popped(Trace(j, ops));
            && StrictlyIncreasing(popped)
            && (forall i :: 0 <= i < |popped| ==> j.cursor <= popped[i] < Run(j, ops).cursor)
            && Run(j, ops).cursor == j.cursor + |popped| + SkippedByResync(Trace(j, ops))
            && Run(j, ops).boundary == j.boundary
    decreases |ops|
  {
    if ops != [] {
      var (j1, event) := Step(j, ops[0]);
      EpochAccounting(j1, ops[1..]);
      var later := Trace(j1, ops[1..]);
      assert Trace(j, ops) == [event] + later;
      assert Trace(j, ops)[1..] == later;
      OneStep(j, ops[0]);
    }
  }

  lemma OneStep(j: Jitter, op: Op)
    requires !op.Flush?
    ensures var (j', event) := Step(j, op);
            && j'.boundary == j.boundary
            && match event
               case Data(ext, _) => ext == j.cursor && j'.cursor == j.cursor + 1
               case Conceal(ext) => ext == j.cursor && j'.cursor == j.cursor + 1
               case Resynced(skipped) => j'.cursor == j.cursor + skipped
               case _ => j'.cursor == j.cursor
  {
  }

  // ----- the ring against an unbounded map -------------------------------------------

  /** The reference: a map that keeps every packet accepted since the last flush. */
  datatype Free = Free(seqRef: nat, tsRef: Word64, kept: map<nat, Packet>, cursor: nat, boundary: nat)

  ghost function FreeStep(f: Free, op: Op): (Free, Event) {
    match op
    case Insert(wireSeq, wireTs, payload) =>
      var ext := ExtendSeq(f.seqRef, wireSeq);
      if |payload| > MAX_PAYLOAD || ext.None? then (f, Refused)
      else
        var seen := f.(seqRef := Advance(f.seqRef, ext));
        if ext.value < f.boundary then (seen, Refused)
        else if ext.value < f.cursor || ext.value in f.kept then (seen, Ignored)
        else
          var packet := Packet(wireTs, payload);
          (seen.(tsRef := Max(f.tsRef, ExtendTs(f.tsRef, wireTs)), kept := f.kept[ext.value := packet]),
           Stored(ext.value, packet))
    case Pop(pastDeadline) =>
      if f.cursor in f.kept then (f.(cursor := f.cursor + 1), Data(f.cursor, f.kept[f.cursor]))
      else if pastDeadline then (f.(cursor := f.cursor + 1), Conceal(f.cursor))
      else (f, Stall)
    case Flush(newSeq, newTs) => (Free(newSeq, newTs, map[], newSeq, newSeq), Flushed(newSeq, newTs))
    case Resync =>
      var target := ResyncTarget(Ahead(f.kept.Keys, f.cursor), f.cursor);
      if target.None? then (f, NoResync)
      else (f.(cursor := target.value), Resynced(target.value - f.cursor))
  }

  ghost function FreeTrace(f: Free, ops: seq<Op>): (events: seq<Event>)
    decreases |ops|
  {
    if ops == [] then [] else [FreeStep(f, ops[0]).1] + FreeTrace(FreeStep(f, ops[0]).0, ops[1..])
  }

  ghost function FreeRun(f: Free, ops: seq<Op>): Free
    decreases |ops|
  {
    if ops == [] then f else FreeRun(FreeStep(f, ops[0]).0, ops[1..])
  }

  /** The two agree on everything the player has yet to reach. */
  ghost predicate Agree(j: Jitter, f: Free) {
    && j.seqRef == f.seqRef && j.tsRef == f.tsRef && j.cursor == f.cursor && j.boundary == f.boundary
    && (forall e :: e >= j.cursor ==> (e in j.held <==> e in f.kept))
    && (forall e :: e >= j.cursor && e in j.held ==> j.held[e] == f.kept[e])
  }

  /** The number whose slot a call will claim: that of a packet to be stored, or of a missing one to be concealed. */
  function Claims(j: Jitter, op: Op): Option<nat> {
    match op
    case Insert(wireSeq, _, payload) =>
      var ext := ExtendSeq(j.seqRef, wireSeq);
      if |payload| <= MAX_PAYLOAD && ext.Some? && ext.value >= Max(j.boundary, j.cursor) && ext.value !in j.held
      then ext else None
    case Pop(pastDeadline) => if pastDeadline && j.cursor !in j.held then Some(j.cursor) else None
    case _ => None
  }

  /** That slot still holds another packet the player has yet to reach. */
  predicate Clash(j: Jitter, op: Op) {
    Claims(j, op).Some? && exists k :: k in Rivals(j.held, Claims(j, op).value) && k >= j.cursor
  }

  /** Every held packet at or after the new cursor is still held. */
  ghost predicate NothingLost(j: Jitter, j': Jitter) {
    forall e :: e in j.held && e >= j'.cursor ==> e in j'.held && j'.held[e] == j.held[e]
  }

  /** One call loses a packet exactly when the slot it claims holds one the player has yet to reach. */
  lemma EvictsIff(j: Jitter, op: Op)
    requires !op.Flush?
    ensures NothingLost(j, Step(j, op).0) <==> !Clash(j, op)
  {
    var j' := Step(j, op).0;
    if Claims(j, op).Some? {
      var ext := Claims(j, op).value;
      assert forall e :: e in j'.held <==>
                           (e in j.held && e !in Rivals(j.held, ext)) || (op.Insert? && e == ext);
    } else {
      assert forall e :: e in j.held && e >= j'.cursor ==> e in j'.held;
    }
  }

  /** The answer never tells the two apart; what they hold stays the same exactly without a clash. */
  lemma AgreeStep(j: Jitter, f: Free, op: Op)
    requires Agree(j, f)
    ensures Step(j, op).1 == FreeStep(f, op).1
    ensures Agree(Step(j, op).0, FreeStep(f, op).0) <==> !Clash(j, op)
  {
    match op
    case Insert(_, _, _) => InsertAgrees(j, f, op);
    case Pop(_) => PopAgrees(j, f, op);
    case Flush(_, _) =>
    case Resync => assert Ahead(j.held.Keys, j.cursor) == Ahead(f.kept.Keys, f.cursor);
  }

  /** Two maps that agree from the cursor on still do after a store exactly when the ring loses no packet there. */
  lemma StoreAgrees(held: map<nat, Packet>, kept: map<nat, Packet>, cursor: nat, ext: nat, packet: Packet)
    requires ext >= cursor && ext !in held
    requires forall e :: e >= cursor ==> (e in held <==> e in kept) && (e in held ==> held[e] == kept[e])
    ensures var held', kept' := (held - Rivals(held, ext))[ext := packet], kept[ext := packet];
            (forall e :: e >= cursor ==> (e in held' <==> e in kept') && (e in held' ==> held'[e] == kept'[e]))
            <==> forall k :: k in Rivals(held, ext) ==> k < cursor
  {
    var held', kept' := (held - Rivals(held, ext))[ext := packet], kept[ext := packet];
    if k :| k in Rivals(held, ext) && k >= cursor {
      assert k !in held' && k in kept';
    }
  }

  lemma InsertAgrees(j: Jitter, f: Free, op: Op)
    requires Agree(j, f) && op.Insert?
    ensures Step(j, op).1 == FreeStep(f, op).1
    ensures Agree(Step(j, op).0, FreeStep(f, op).0) <==> !Clash(j, op)
  {
    hide Rivals;
    StoredIsWire(j, op.wireSeq, op.wireTs, op.payload);
    if Claims(j, op).Some? {
      StoreAgrees(j.held, f.kept, j.cursor, Claims(j, op).value, Packet(op.wireTs, op.payload));
    }
  }

  lemma PopAgrees(j: Jitter, f: Free, op: Op)
    requires Agree(j, f) && op.Pop?
    ensures Step(j, op).1 == FreeStep(f, op).1
    ensures Agree(Step(j, op).0, FreeStep(f, op).0) <==> !Clash(j, op)
  {
    if Claims(j, op).Some? {
      ConcealAgrees(j, f);
    }
  }

  lemma ConcealAgrees(j: Jitter, f: Free)
    requires Agree(j, f) && j.cursor !in j.held
    ensures Agree(PopStep(j, true).0, f.(cursor := f.cursor + 1)) <==>
            forall k :: k in Rivals(j.held, j.cursor) ==> k < j.cursor
  {
    var j' := PopStep(j, true).0;
    assert j'.held == j.held - Rivals(j.held, j.cursor);
    if Agree(j', f.(cursor := f.cursor + 1)) {
      forall k | k in Rivals(j.held, j.cursor) ensures k < j.cursor {
        assert k !in j'.held && k in j.held && k != j.cursor;
      }
    }
  }

  // ----- whole runs -----------------------------------------------------------------------

  ghost predicate NoClash(j: Jitter, ops: seq<Op>)
    decreases |ops|
  {
    ops != [] ==> !Clash(j, ops[0]) && NoClash(Step(j, ops[0]).0, ops[1..])
  }

  ghost predicate AgreeThroughout(j: Jitter, f: Free, ops: seq<Op>)
    decreases |ops|
  {
    Agree(j, f) && (ops != [] ==> AgreeThroughout(Step(j, ops[0]).0, FreeStep(f, ops[0]).0, ops[1..]))
  }

  /**
   Over every run, the ring holds exactly what an unbounded map would of the packets the player has
   yet to reach if and only if no call claims the slot of such a packet; then the answers are the same too.
   */
  lemma {:induction false} RingIsUnboundedIff(j: Jitter, f: Free, ops: seq<Op>)
    requires Agree(j, f)
    ensures AgreeThroughout(j, f, ops) <==> NoClash(j, ops)
    ensures NoClash(j, ops) ==> Trace(j, ops) == FreeTrace(f, ops)
    decreases |ops|
  {
    if ops != [] {
      hide Agree, Clash, Step, FreeStep;
      AgreeStep(j, f, ops[0]);
      var j', f' := Step(j, ops[0]).0, FreeStep(f, ops[0]).0;
      if !Clash(j, ops[0]) { RingIsUnboundedIff(j', f', ops[1..]); }
      assert AgreeThroughout(j', f', ops[1..]) ==> Agree(j', f');
    }
  }

  // ----- a window that rules clashes out ---------------------------------------------------

  /** Every packet the run accepts lies less than one lap of the ring ahead of the cursor. */
  ghost predicate StaysInWindow(j: Jitter, ops: seq<Op>)
    decreases |ops|
  {
    ops != [] ==>
      var (j', event) := Step(j, ops[0]);
      && (event.Stored? ==> event.ext < j.cursor + SLOTS)
      && StaysInWindow(j', ops[1..])
  }

  ghost predicate InWindow(j: Jitter) {
    forall e :: e in j.held ==> e < j.cursor + SLOTS
  }

  lemma SlotsApart(a: nat, b: nat)
    requires SlotOf(a) == SlotOf(b) && a != b
    ensures a >= b + SLOTS || b >= a + SLOTS
  {
  }

  lemma WindowStep(j: Jitter, op: Op)
    requires InWindow(j)
    requires Step(j, op).1.Stored? ==> Step(j, op).1.ext < j.cursor + SLOTS
    ensures !Clash(j, op) && InWindow(Step(j, op).0)
  {
    if Claims(j, op).Some? {
      var ext := Claims(j, op).value;
      forall k | k in Rivals(j.held, ext) ensures k < j.cursor { SlotsApart(k, ext); }
    }
  }

  lemma {:induction false} WindowRulesOutClashes(j: Jitter, ops: seq<Op>)
    requires InWindow(j) && StaysInWindow(j, ops)
    ensures NoClash(j, ops)
    decreases |ops|
  {
    if ops != [] {
      WindowStep(j, ops[0]);
      WindowRulesOutClashes(Step(j, ops[0]).0, ops[1..]);
    }
  }

  // ----- from the start of a session -------------------------------------------------------

  function FreeInit(refSeq: Word16, refTs: Word32): Free {
    Free(refSeq, refTs, map[], refSeq, refSeq)
  }

  /** As long as no accepted packet lies a full lap ahead of the cursor, the ring is an unbounded map. */
  lemma RingIsUnbounded(refSeq: Word16, refTs: Word32, ops: seq<Op>)
    requires StaysInWindow(Init(refSeq, refTs), ops)
    ensures AgreeThroughout(Init(refSeq, refTs), FreeInit(refSeq, refTs), ops)
    ensures Trace(Init(refSeq, refTs), ops) == FreeTrace(FreeInit(refSeq, refTs), ops)
  {
    WindowRulesOutClashes(Init(refSeq, refTs), ops);
    RingIsUnboundedIff(Init(refSeq, refTs), FreeInit(refSeq, refTs), ops);
  }

  lemma TwoSteps(j: Jitter, f: Free, a: Op, b: Op)
    ensures Run(j, [a, b]) == Step(Step(j, a).0, b).0
    ensures FreeRun(f, [a, b]) == FreeStep(FreeStep(f, a).0, b).0
  {
    hide Step, FreeStep;
    assert [a, b][1..] == [b] && [b][1..] == [];
    assert Run(Step(j, a).0, [b]) == Step(Step(j, a).0, b).0;
    assert FreeRun(FreeStep(f, a).0, [b]) == FreeStep(FreeStep(f, a).0, b).0;
  }

  /** A run that does clash: a packet one lap ahead evicts the one the cursor is at. */
  lemma OneLapAheadEvicts(refTs: Word32, first: seq<Byte>, second: seq<Byte>)
    requires |first| <= MAX_PAYLOAD && |second| <= MAX_PAYLOAD
    ensures var ops := [Insert(0, refTs, first), Insert(512, refTs, second)];
            && Run(Init(0, refTs), ops).held == map[512 := Packet(refTs, second)]
            && FreeRun(FreeInit(0, refTs), ops).kept == map[0 := Packet(refTs, first), 512 := Packet(refTs, second)]
            && Run(Init(0, refTs), ops).cursor == 0
  {
    var ops := [Insert(0, refTs, first), Insert(512, refTs, second)];
    RecoveredIffNear(0, 0);
    RecoveredIffNear(0, 512);
    var j := Step(Init(0, refTs), ops[0]).0;
    assert j.held == map[0 := Packet(refTs, first)];
    assert Rivals(j.held, 512) == {0};
    TwoSteps(Init(0, refTs), FreeInit(0, refTs), ops[0], ops[1]);
  }

  /** Conservation from the start: every packet ever accepted is played, held, or lost in one of three ways. */
  lemma BooksBalance(refSeq: Word16, refTs: Word32, ops: seq<Op>)
    ensures Sound(Run(Init(refSeq, refTs), ops))
  {
    RunKeepsSound(Init(refSeq, refTs), ops);
  }
}
