/**
 The 512-slot, generation-tagged ring of src/jitter.c. Each method is proved to do to the
 map in JitterModel exactly what the corresponding model step does.
 */
module JitterRing {
  import opened Words
  import opened SequenceExtension
  import opened JitterModel

  datatype SlotState = Empty | Waiting | Resend | Received | Concealed | Consumed

  datatype Slot = Slot(state: SlotState, gen: nat, ext: nat, ts: Word32, payload: seq<Byte>)

  /** The resend range is the first maximal run of missing numbers that a held number follows. */
  ghost predicate IsFirstGap(j: Jitter, from: nat, to: nat) {
    && j.cursor <= from <= to < j.cursor + SLOTS - 1
    && (forall e :: j.cursor <= e < from ==> e in j.held)
    && (forall e :: from <= e <= to ==> e !in j.held)
    && to + 1 in j.held
  }

  /** No number missing at or after the cursor is followed by a held one within the ring's window. */
  ghost predicate NoGap(j: Jitter) {
    forall missing, later :: j.cursor <= missing < later < j.cursor + SLOTS && missing !in j.held ==> later !in j.held
  }

  predicate Live(s: Slot, gen: nat) {
    s.gen == gen && s.state == Received
  }

  predicate Terminal(s: Slot, gen: nat) {
    s.gen == gen && (s.state == Concealed || s.state == Consumed)
  }

  ghost predicate SlotAgrees(s: Slot, at: nat, gen: nat, j: Jitter) {
    && s.gen <= gen
    && (Live(s, gen) ==> SlotOf(s.ext) == at && s.ext in j.held && j.held[s.ext] == Packet(s.ts, s.payload))
    // consumed and concealed numbers lie behind the cursor
    && (Terminal(s, gen) ==> s.ext < j.cursor)
  }

  /** The live slots are exactly the packets the model holds, each in the slot of its number. */
  ghost predicate RingAgrees(slots: seq<Slot>, gen: nat, j: Jitter) {
    && |slots| == SLOTS
    && (forall i :: 0 <= i < SLOTS ==> SlotAgrees(slots[i], i, gen, j))
    && (forall e :: e in j.held ==> Live(slots[SlotOf(e)], gen) && slots[SlotOf(e)].ext == e)
  }

  lemma RivalIsInTheSlot(slots: seq<Slot>, gen: nat, j: Jitter, ext: nat)
    requires RingAgrees(slots, gen, j)
    ensures var s := slots[SlotOf(ext)];
            && (ext in j.held <==> Live(s, gen) && s.ext == ext)
            && (ext in j.held ==> j.held[ext] == Packet(s.ts, s.payload))
            && Rivals(j.held, ext) == if Live(s, gen) && s.ext != ext then {s.ext} else {}
  {
    var s := slots[SlotOf(ext)];
    assert SlotAgrees(s, SlotOf(ext), gen, j);
  }

  lemma RingAfterStore(slots: seq<Slot>, gen: nat, j: Jitter, ext: nat, wireTs: Word32, payload: seq<Byte>)
    requires RingAgrees(slots, gen, j)
    requires j.cursor <= ext
    ensures var ts := ExtendTs(j.tsRef, wireTs) % WRAP32;
            RingAgrees(slots[SlotOf(ext) := Slot(Received, gen, ext, ts, payload)], gen,
                       Store(j, ext, wireTs, payload))
  {
    RivalIsInTheSlot(slots, gen, j, ext);
    var slots' := slots[SlotOf(ext) := Slot(Received, gen, ext, ExtendTs(j.tsRef, wireTs) % WRAP32, payload)];
    var j' := Store(j, ext, wireTs, payload);
    forall i | 0 <= i < SLOTS ensures SlotAgrees(slots'[i], i, gen, j') {
      assert SlotAgrees(slots[i], i, gen, j);
    }
  }

  lemma RingAfterPop(slots: seq<Slot>, gen: nat, j: Jitter, pastDeadline: bool)
    requires RingAgrees(slots, gen, j)
    requires !PopStep(j, pastDeadline).1.Stall?
    ensures var at := SlotOf(j.cursor);
            RingAgrees(slots[at := if j.cursor in j.held then slots[at].(state := Consumed)
                                   else slots[at].(gen := gen, ext := j.cursor, state := Concealed)],
                       gen, PopStep(j, pastDeadline).0)
  {
    RivalIsInTheSlot(slots, gen, j, j.cursor);
    var j' := PopStep(j, pastDeadline).0;
    forall i | 0 <= i < SLOTS && i != SlotOf(j.cursor) ensures SlotAgrees(slots[i], i, gen, j') {
      assert SlotAgrees(slots[i], i, gen, j);
    }
  }

  lemma RingAfterResync(slots: seq<Slot>, gen: nat, j: Jitter)
    requires RingAgrees(slots, gen, j)
    ensures RingAgrees(slots, gen, ResyncStep(j).0)
  {
    var j' := ResyncStep(j).0;
    forall i | 0 <= i < SLOTS ensures SlotAgrees(slots[i], i, gen, j') {
      assert SlotAgrees(slots[i], i, gen, j);
    }
  }

  class JitterBuffer {
    const ring: array<Slot>
    const sx: Extender
    var gen: nat
    var cursor: nat
    var boundary: nat
    var counters: Counters
    ghost var model: Jitter

    ghost predicate Valid()
      reads this, ring, sx
    {
      && ring.Length == SLOTS
      && sx.seqRef == model.seqRef && sx.tsRef == model.tsRef
      && cursor == model.cursor && boundary == model.boundary && counters == model.counters
      && RingAgrees(ring[..], gen, model)
    }

    constructor (refSeq: Word16, refTs: Word32)
      ensures Valid() && fresh(ring) && fresh(sx)
      ensures model == Init(refSeq, refTs)
    {
      ring := new Slot[512](i => Slot(Empty, 0, 0, 0, []));
      sx := new Extender(refSeq, refTs);
      gen, cursor, boundary := 1, refSeq, refSeq;
      counters := NO_COUNTS;
      model := Init(refSeq, refTs);
      new;
      assert forall i :: 0 <= i < SLOTS ==> ring[..][i] == Slot(Empty, 0, 0, 0, []);
    }

    method Insert(wireSeq: Word16, wireTs: Word32, payload: seq<Byte>) returns (event: Event)
      requires Valid()
      modifies this, ring, sx
      ensures Valid()
      ensures (model, event) == InsertStep(old(model), wireSeq, wireTs, payload)
    {
      if |payload| > MAX_PAYLOAD { return Refused; }
      var ext := sx.Seq(wireSeq);
      if ext.None? { return Refused; }
      var e := ext.value;
      model := model.(seqRef := sx.seqRef);
      if e < boundary {
        counters := counters.(late := counters.late + 1);
        model := model.(counters := counters);
        return Refused;
      }
      if e < cursor {
        counters := counters.(late := counters.late + 1);
        model := model.(counters := counters);
        return Ignored;
      }
      var s := ring[SlotOf(e)];
      RivalIsInTheSlot(ring[..], gen, model, e);
      if s.gen == gen && s.ext == e && s.state == Received {
        counters := counters.(dupes := counters.dupes + 1);
        model := model.(counters := counters);
        return Ignored;
      }
      StoreAt(e, wireTs, payload);
      event := Stored(e, Packet(wireTs, payload));
    }

    /** The part of jitter_insert that claims the slot. */
    method StoreAt(e: nat, wireTs: Word32, payload: seq<Byte>)
      requires Valid() && cursor <= e && e !in model.held
      modifies this, ring, sx`tsRef
      ensures Valid()
      ensures model == Store(old(model), e, wireTs, payload)
      ensures model.held[e] == Packet(wireTs, payload)
    {
      var at := SlotOf(e);
      var s := ring[at];
      ghost var before := ring[..];
      RivalIsInTheSlot(before, gen, model, e);
      if s.gen == gen && s.state == Received && s.ext != e {
        counters := counters.(overwritten := counters.overwritten + 1);
      }
      var v := sx.Ts(wireTs);
      ring[at] := Slot(Received, gen, e, v % WRAP32, payload);
      assert ring[..] == before[at := ring[at]];
      RingAfterStore(before, gen, model, e, wireTs, payload);
      model := Store(model, e, wireTs, payload);
    }

    method Pop(pastDeadline: bool) returns (out: Event)
      requires Valid()
      modifies this, ring
      ensures Valid()
      ensures (model, out) == PopStep(old(model), pastDeadline)
    {
      ghost var next := PopStep(model, pastDeadline).0;
      var at := SlotOf(cursor);
      var s := ring[at];
      ghost var before := ring[..];
      RivalIsInTheSlot(before, gen, model, cursor);
      if s.gen == gen && s.ext == cursor && s.state == Received {
        out := Data(cursor, Packet(s.ts, s.payload));
        ring[at] := s.(state := Consumed);
        cursor := cursor + 1;
      } else if pastDeadline {
        out := Conceal(cursor);
        ring[at] := s.(gen := gen, ext := cursor, state := Concealed);
        counters := counters.(concealed := counters.concealed + 1, lost := counters.lost + 1);
        cursor := cursor + 1;
      } else {
        return Stall;
      }
      RingAfterPop(before, gen, model, pastDeadline);
      assert ring[..] == before[at := ring[at]];
      model := next;
    }

    method Flush(newSeq: Word16, newTs: Word32)
      requires Valid()
      modifies this, sx
      ensures Valid()
      ensures model == FlushStep(old(model), newSeq, newTs).0
    {
      gen := gen + 1;
      sx.Rebase(newSeq, newTs);
      cursor, boundary := newSeq, newSeq;
      model := FlushStep(model, newSeq, newTs).0;
      assert forall i :: 0 <= i < SLOTS ==> SlotAgrees(ring[..][i], i, gen - 1, old(model));
    }

    method NextResend() returns (range: Option<(nat, nat)>)
      requires Valid()
      ensures range.Some? ==> IsFirstGap(model, range.value.0, range.value.1)
      ensures range.None? ==> NoGap(model)
    {
      var start, inHole := 0, false;
      var e := cursor;
      while e < cursor + SLOTS
        invariant cursor <= e <= cursor + SLOTS
        invariant !inHole ==> forall k :: cursor <= k < e ==> k in model.held
        invariant inHole ==> cursor <= start < e
                             && (forall k :: cursor <= k < start ==> k in model.held)
                             && (forall k :: start <= k < e ==> k !in model.held)
      {
        var s := ring[SlotOf(e)];
        RivalIsInTheSlot(ring[..], gen, model, e);
        assert SlotAgrees(ring[..][SlotOf(e)], SlotOf(e), gen, model);
        var received := s.gen == gen && s.ext == e
                        && (s.state == Received || s.state == Concealed || s.state == Consumed);
        assert received <==> e in model.held;
        if !received {
          if !inHole { start, inHole := e, true; }
        } else if inHole {
          return Some((start, e - 1));
        }
        e := e + 1;
      }
      range := None;
    }

    /** The largest number held at or after the cursor. */
    method HighestAhead() returns (hi: Option<nat>)
      requires Valid()
      ensures hi.None? <==> Ahead(model.held.Keys, cursor) == {}
      ensures hi.Some? ==> Ahead(model.held.Keys, cursor) != {}
                           && hi.value == Highest(Ahead(model.held.Keys, cursor))
    {
      hi := None;
      ghost var live := Ahead(model.held.Keys, cursor);
      var i := 0;
      while i < SLOTS
        invariant 0 <= i <= SLOTS
        invariant hi.Some? ==> hi.value in live
        invariant forall e :: e in live && SlotOf(e) < i ==> hi.Some? && e <= hi.value
      {
        var s := ring[i];
        assert SlotAgrees(ring[..][i], i, gen, model);
        if s.gen == gen && s.state == Received && s.ext >= cursor {
          if hi.None? || s.ext > hi.value { hi := Some(s.ext); }
        }
        i := i + 1;
      }
    }

    /** Walks back from hi while the numbers below it are held. */
    method StartOfRun(hi: nat) returns (start: nat)
      requires Valid()
      requires hi in Ahead(model.held.Keys, cursor)
      ensures start == RunStart(Ahead(model.held.Keys, cursor), cursor, hi)
    {
      ghost var live := Ahead(model.held.Keys, cursor);
      start := hi;
      while start > cursor
        invariant cursor <= start <= hi && start in live
        invariant RunStart(live, cursor, hi) == RunStart(live, cursor, start)
        decreases start
      {
        var s := ring[SlotOf(start - 1)];
        RivalIsInTheSlot(ring[..], gen, model, start - 1);
        if s.gen == gen && s.ext == start - 1 && s.state == Received {
          start := start - 1;
        } else {
          break;
        }
      }
    }

    method FindTarget() returns (target: Option<nat>)
      requires Valid()
      ensures target == ResyncTarget(Ahead(model.held.Keys, cursor), cursor)
    {
      var hi := HighestAhead();
      if hi.None? || hi.value < cursor + RESYNC_BEHIND { return None; }
      var start := StartOfRun(hi.value);
      if hi.value - start + 1 < RESYNC_MIN_RUN { return None; }
      var t := if start > RESYNC_PREROLL then start - RESYNC_PREROLL else start;
      if t < cursor { t := cursor; }
      target := Some(t);
    }

    method TryResync() returns (event: Event)
      requires Valid()
      modifies this
      ensures Valid()
      ensures (model, event) == ResyncStep(old(model))
    {
      var target := FindTarget();
      if target.None? { return NoResync; }
      var skipped := target.value - cursor;
      RingAfterResync(ring[..], gen, model);
      model := ResyncStep(model).0;
      cursor := target.value;
      counters := counters.(resyncs := counters.resyncs + 1, skipped := counters.skipped + skipped);
      event := Resynced(skipped);
    }
  }

  /** At most one range qualifies, so NextResend has only one possible answer. */
  lemma FirstGapIsUnique(j: Jitter, from: nat, to: nat, from': nat, to': nat)
    requires IsFirstGap(j, from, to) && IsFirstGap(j, from', to')
    ensures from == from' && to == to'
    ensures !NoGap(j)
  {
    assert from !in j.held && from' !in j.held;
    assert to + 1 in j.held && to' + 1 in j.held;
  }

  /** The 16-bit first and count put on the wire. */
  function WireFirst(from: nat): Word16 {
    from % WRAP16
  }

  function WireCount(from: nat, to: nat): Word16
    requires from <= to
  {
    (to - from + 1) % WRAP16
  }

  /** A resend request for first and count asks for wire number w. */
  predicate AsksFor(first: Word16, count: Word16, w: Word16) {
    (w - first) % WRAP16 < count
  }

  /** The request asks for exactly the low 16 bits of the missing numbers, at least one and at most 511. */
  lemma RequestIsTheGap(j: Jitter, from: nat, to: nat, e: nat)
    requires IsFirstGap(j, from, to)
    requires from <= e < from + WRAP16
    ensures 1 <= WireCount(from, to) <= 511
    ensures AsksFor(WireFirst(from), WireCount(from, to), e % WRAP16) <==> e <= to
  {
    var k := e / WRAP16 - from / WRAP16;
    assert e % WRAP16 - from % WRAP16 == (e - from) - k * WRAP16;
    DivModIs(e % WRAP16 - from % WRAP16, WRAP16, -k, e - from);
  }
}
