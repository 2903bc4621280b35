/**
 The session struct of src/session.c and its lock sections, run on the real ring. Each method
 is proved to have exactly the effect of the corresponding function of SessionModel.
 */
module SessionSections {
  import opened Words
  import opened JitterModel
  import opened JitterRing
  import opened Playback
  import opened SessionModel

  class Session {
    const jit: JitterBuffer
    const framesPerPacket: nat
    var gen: nat
    var flushed: bool
    var boundaryTs: Word32
    var started: bool
    var rxCount: nat
    var hold: nat
    var restartPending: bool

    ghost predicate Valid()
      reads this, jit, jit.ring, jit.sx
    {
      jit.Valid()
    }

    ghost function View(): Core
      reads this, jit
    {
      Core(jit.model, framesPerPacket, gen, flushed, boundaryTs, started, rxCount, hold)
    }

    constructor (framesPerPacket: nat, seq0: Word16, ts0: Word32)
      ensures Valid() && fresh(jit) && fresh(jit.ring) && fresh(jit.sx)
      ensures View() == Fresh(framesPerPacket, seq0, ts0) && !restartPending
    {
      this.framesPerPacket := framesPerPacket;
      jit := new JitterBuffer(seq0, ts0);
      gen, flushed, boundaryTs, started, rxCount, hold, restartPending := 0, false, 0, false, 0, 0, false;
    }

    /** session_deadline: scans the ring past the missing number. */
    method Deadline() returns (passed: bool)
      requires Valid()
      ensures passed == PastDeadline(jit.model, ConcealWindow(framesPerPacket))
    {
      var packets := START_FILL_FRAMES / (if framesPerPacket > 0 then framesPerPacket else 1);
      if packets < 1 { packets := 1; }
      var last := jit.cursor + packets;
      var e := jit.cursor + 1;
      while e <= last && e < jit.cursor + SLOTS
        invariant jit.cursor < e <= jit.cursor + SLOTS
        invariant e <= last + 1
        invariant forall k :: jit.cursor < k < e ==> k !in jit.model.held
      {
        var s := jit.ring[SlotOf(e)];
        RivalIsInTheSlot(jit.ring[..], jit.gen, jit.model, e);
        if s.gen == jit.gen && s.ext == e && s.state == Received { return true; }
        e := e + 1;
      }
      passed := false;
    }

    method RxInsert(wireSeq: Word16, wireTs: Word32, payload: seq<Byte>) returns (event: Event)
      requires Valid()
      modifies this`rxCount, jit, jit.ring, jit.sx
      ensures Valid()
      ensures (View(), event) == Receive(old(View()), wireSeq, wireTs, payload)
    {
      if flushed && Signed32(wireTs - boundaryTs) < 0 { return Refused; }
      event := jit.Insert(wireSeq, wireTs, payload);
      if event.Stored? { rxCount := rxCount + 1; }
    }

    method Flush(newSeq: Word16, newTs: Word32)
      requires Valid()
      modifies this, jit, jit.sx
      ensures Valid()
      ensures View() == FlushRest(Bump(old(View())), newSeq, newTs) && restartPending
    {
      gen := gen + 1;
      jit.Flush(newSeq, newTs);
      boundaryTs := newTs;
      flushed := true;
      started := false;
      rxCount := 0;
      restartPending := true;
    }

    /** The atomic exchange at the top of the player's loop: a requested restart is taken exactly once. */
    method ExchangeRestart() returns (restart: bool)
      modifies this`restartPending
      ensures restart == old(restartPending) && !restartPending
    {
      restart := restartPending;
      restartPending := false;
    }

    /** One pass of pl_thread from the hysteresis decrement to the unlock. */
    method TakeTurn() returns (turn: Turn)
      requires Valid()
      modifies this`hold, this`started, jit, jit.ring
      ensures Valid()
      ensures (View(), turn) == PlayerTurn(old(View()))
    {
      if hold > 0 { hold := hold - 1; }
      if !started {
        if rxCount * framesPerPacket >= START_FILL_FRAMES {
          started := true;
        } else {
          return Filling;
        }
      }
      var passed := Deadline();
      ghost var before := jit.model;
      var event := jit.Pop(passed);
      if event.Stall? {
        assert jit.model == before;
        if hold <= 0 {
          var jump := jit.TryResync();
          if jump.Resynced? {
            hold := RESYNC_HOLD;
            return Jumped;
          }
        }
        return Stalling;
      }
      turn := Popping(event);
    }
  }
}
