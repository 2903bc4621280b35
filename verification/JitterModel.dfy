/**
 The jitter buffer of src/jitter.c as a map from extended sequence number to packet.
 JitterBuffer.dfy proves that the 512-slot, generation-tagged ring behaves exactly
 like this map.
 */
module JitterModel {
  import opened Words
  import opened SequenceExtension

  const SLOTS: int := 512
  const MAX_PAYLOAD: int := 2048
  /** rtp_parse_audio lets no shorter payload through. */
  const MIN_PAYLOAD: nat := 16
  const RESYNC_BEHIND: int := 128
  const RESYNC_MIN_RUN: int := 8
  const RESYNC_PREROLL: int := 16

  datatype Packet = Packet(ts: Word32, payload: seq<Byte>)

  datatype Counters = Counters(dupes: nat, late: nat, lost: nat, concealed: nat, overwritten: nat,
                               resyncs: nat, skipped: nat)

  const NO_COUNTS := Counters(0, 0, 0, 0, 0, 0, 0)

  /** What became of the accepted packets; the source does not keep these four. */
  datatype Ledger = Ledger(accepted: nat, played: nat, destroyed: nat, dropped: nat)

  datatype Jitter = Jitter(seqRef: nat, tsRef: Word64, held: map<nat, Packet>, cursor: nat,
                           boundary: nat, counters: Counters, ledger: Ledger)

  datatype Op =
    | Insert(wireSeq: Word16, wireTs: Word32, payload: seq<Byte>)
    | Pop(pastDeadline: bool)
    | Flush(newSeq: Word16, newTs: Word32)
    | Resync

  datatype Event =
    | Stored(ext: nat, packet: Packet)
    | Refused
    | Ignored
    | Data(ext: nat, packet: Packet)
    | Conceal(ext: nat)
    | Stall
    | Flushed(newSeq: Word16, newTs: Word32)
    | Resynced(skipped: nat)
    | NoResync

  function Init(refSeq: Word16, refTs: Word32): Jitter {
    Jitter(refSeq, refTs, map[], refSeq, refSeq, NO_COUNTS, Ledger(0, 0, 0, 0))
  }

  function SlotOf(ext: nat): nat {
    ext % SLOTS
  }

  /** The other held numbers that live in ext's slot. */
  function Rivals(held: map<nat, Packet>, ext: nat): (ks: set<nat>) {
    set k | k in held && SlotOf(k) == SlotOf(ext) && k != ext
  }

  function Store(j: Jitter, ext: nat, wireTs: Word32, payload: seq<Byte>): Jitter {
    var v := ExtendTs(j.tsRef, wireTs);
    var rivals := Rivals(j.held, ext);
    j.(held := (j.held - rivals)[ext := Packet(v % WRAP32, payload)],
       tsRef := Max(j.tsRef, v),
       counters := j.counters.(overwritten := j.counters.overwritten + if rivals == {} then 0 else 1),
       ledger := j.ledger.(accepted := j.ledger.accepted + 1))
  }

  function InsertStep(j: Jitter, wireSeq: Word16, wireTs: Word32, payload: seq<Byte>): (Jitter, Event) {
    if |payload| > MAX_PAYLOAD then (j, Refused)
    else
      var ext := ExtendSeq(j.seqRef, wireSeq);
      var seen := j.(seqRef := Advance(j.seqRef, ext));
      var lateCount := j.counters.(late := j.counters.late + 1);
      if ext.None? then (j, Refused)
      else if ext.value < j.boundary then (seen.(counters := lateCount), Refused)
      else if ext.value < j.cursor then (seen.(counters := lateCount), Ignored)
      else if ext.value in j.held then
        (seen.(counters := j.counters.(dupes := j.counters.dupes + 1)), Ignored)
      else
        var j' := Store(seen, ext.value, wireTs, payload);
        (j', Stored(ext.value, j'.held[ext.value]))
  }

  function PopStep(j: Jitter, pastDeadline: bool): (Jitter, Event) {
    if j.cursor in j.held then
      (j.(held := j.held - {j.cursor}, cursor := j.cursor + 1,
          ledger := j.ledger.(played := j.ledger.played + 1)),
       Data(j.cursor, j.held[j.cursor]))
    else if pastDeadline then
      var rivals := Rivals(j.held, j.cursor);
      (j.(held := j.held - rivals, cursor := j.cursor + 1,
          counters := j.counters.(lost := j.counters.lost + 1, concealed := j.counters.concealed + 1),
          ledger := j.ledger.(destroyed := j.ledger.destroyed + |rivals|)),
       Conceal(j.cursor))
    else (j, Stall)
  }

  function FlushStep(j: Jitter, newSeq: Word16, newTs: Word32): (Jitter, Event) {
    (j.(seqRef := newSeq, tsRef := newTs, held := map[], cursor := newSeq, boundary := newSeq,
        ledger := j.ledger.(dropped := j.ledger.dropped + |j.held|)),
     Flushed(newSeq, newTs))
  }

  /** The held numbers the player has yet to reach. */
  function Ahead(held: set<nat>, cursor: nat): (live: set<nat>)
    ensures forall k :: k in live <==> k in held && k >= cursor
  {
    set k | k in held && k >= cursor
  }

  lemma HasHighest(s: set<nat>)
    requires s != {}
    ensures exists hi :: hi in s && forall k :: k in s ==> k <= hi
    decreases |s|
  {
    var x :| x in s;
    var rest := s - {x};
    if rest != {} {
      HasHighest(rest);
      var hi :| hi in rest && forall k :: k in rest ==> k <= hi;
      assert Max(x, hi) in s && forall k :: k in s ==> k <= Max(x, hi) by {
        forall k | k in s ensures k <= Max(x, hi) { assert k == x || k in rest; }
      }
    } else {
      forall k | k in s ensures k <= x { assert k == x || k in rest; }
    }
  }

  ghost function Highest(s: set<nat>): (hi: nat)
    requires s != {}
    ensures hi in s && forall k :: k in s ==> k <= hi
  {
    HasHighest(s);
    var hi :| hi in s && forall k :: k in s ==> k <= hi;
    hi
  }

  /** The start of the contiguous run of held numbers that ends at hi, looking no lower than floor. */
  function RunStart(held: set<nat>, floor: nat, hi: nat): (start: nat)
    requires hi in held && floor <= hi
    ensures floor <= start <= hi
    ensures forall e :: start <= e <= hi ==> e in held
    ensures start == floor || start - 1 !in held
  {
    if hi > floor && hi - 1 in held then RunStart(held, floor, hi - 1) else hi
  }

  /** Where a resync moves the cursor to, or nothing when the buffer has not been lapped. */
  ghost function ResyncTarget(live: set<nat>, cursor: nat): (target: Option<nat>)
    requires forall k :: k in live ==> k >= cursor
    ensures target.Some? ==> cursor <= target.value
  {
    if live == {} then None
    else
      var hi := Highest(live);
      if hi < cursor + RESYNC_BEHIND then None
      else
        var start := RunStart(live, cursor, hi);
        if hi - start + 1 < RESYNC_MIN_RUN then None
        else
          var target := if start > RESYNC_PREROLL then start - RESYNC_PREROLL else start;
          Some(Max(target, cursor))
  }

  ghost function ResyncStep(j: Jitter): (Jitter, Event) {
    var target := ResyncTarget(Ahead(j.held.Keys, j.cursor), j.cursor);
    if target.None? then (j, NoResync)
    else
      var skipped := target.value - j.cursor;
      (j.(cursor := target.value,
          counters := j.counters.(resyncs := j.counters.resyncs + 1, skipped := j.counters.skipped + skipped)),
       Resynced(skipped))
  }

  ghost function Step(j: Jitter, op: Op): (Jitter, Event) {
    match op
    case Insert(wireSeq, wireTs, payload) => InsertStep(j, wireSeq, wireTs, payload)
    case Pop(pastDeadline) => PopStep(j, pastDeadline)
    case Flush(newSeq, newTs) => FlushStep(j, newSeq, newTs)
    case Resync => ResyncStep(j)
  }

  ghost function Run(j: Jitter, ops: seq<Op>): Jitter
    decreases |ops|
  {
    if ops == [] then j else Run(Step(j, ops[0]).0, ops[1..])
  }

  ghost function Trace(j: Jitter, ops: seq<Op>): (events: seq<Event>)
    ensures |events| == |ops|
    decreases |ops|
  {
    if ops == [] then [] else [Step(j, ops[0]).1] + Trace(Step(j, ops[0]).0, ops[1..])
  }

  /** A stored packet carries the timestamp and payload of the wire, and displaces only its rivals. */
  lemma StoredIsWire(j: Jitter, wireSeq: Word16, wireTs: Word32, payload: seq<Byte>)
    ensures var (j', event) := InsertStep(j, wireSeq, wireTs, payload);
            && j'.boundary == j.boundary
            && (event.Stored? ==>
                  && event.packet == Packet(wireTs, payload) && event.ext >= j.boundary
                  && j'.held == (j.held - Rivals(j.held, event.ext))[event.ext := event.packet])
  {
  }

  // ----- what every step keeps ---------------------------------------------------

  /** No two held packets share a slot, nothing below the boundary is held, and the books balance. */
  ghost predicate Sound(j: Jitter) {
    && (forall a, b :: a in j.held && b in j.held && SlotOf(a) == SlotOf(b) ==> a == b)
    && (forall e :: e in j.held ==> e >= j.boundary)
    && j.boundary <= j.cursor
    && Balanced(j)
  }

  /** Every accepted packet was played, is still held, or was lost in one of three ways. */
  ghost predicate Balanced(j: Jitter) {
    j.ledger.accepted ==
    j.ledger.played + |j.held| + j.counters.overwritten + j.ledger.destroyed + j.ledger.dropped
  }

  /** A packet has at most one rival for its slot. */
  lemma AtMostOneRival(j: Jitter, ext: nat)
    requires Sound(j)
    ensures |Rivals(j.held, ext)| <= 1
    ensures ext !in Rivals(j.held, ext)
  {
    var rivals := Rivals(j.held, ext);
    if rivals != {} {
      var k :| k in rivals;
      assert rivals == {k};
    }
  }

  lemma SizeWithout(held: map<nat, Packet>, gone: set<nat>)
    requires gone <= held.Keys
    ensures |held - gone| == |held| - |gone|
  {
    assert (held - gone).Keys == held.Keys - gone;
    assert |held.Keys - gone| == |held.Keys| - |gone|;
  }

  lemma StoreKeepsSound(j: Jitter, ext: nat, wireTs: Word32, payload: seq<Byte>)
    requires Sound(j) && ext !in j.held && ext >= j.boundary
    ensures Sound(Store(j, ext, wireTs, payload))
    // the packet is stored under its number with the timestamp it had on the wire
    ensures Store(j, ext, wireTs, payload).held == (j.held - Rivals(j.held, ext))[ext := Packet(wireTs, payload)]
  {
    var rivals := Rivals(j.held, ext);
    AtMostOneRival(j, ext);
    SizeWithout(j.held, rivals);
    var j' := Store(j, ext, wireTs, payload);
    assert j'.held.Keys == (j.held - rivals).Keys + {ext};
    assert |rivals| == if rivals == {} then 0 else 1;
  }

  lemma InsertKeepsSound(j: Jitter, wireSeq: Word16, wireTs: Word32, payload: seq<Byte>)
    requires Sound(j)
    ensures Sound(InsertStep(j, wireSeq, wireTs, payload).0)
  {
    var ext := ExtendSeq(j.seqRef, wireSeq);
    if InsertStep(j, wireSeq, wireTs, payload).1.Stored? {
      StoreKeepsSound(j.(seqRef := Advance(j.seqRef, ext)), ext.value, wireTs, payload);
    }
  }

  lemma PopKeepsSound(j: Jitter, pastDeadline: bool)
    requires Sound(j)
    ensures Sound(PopStep(j, pastDeadline).0)
  {
    if j.cursor in j.held {
      SizeWithout(j.held, {j.cursor});
    } else {
      SizeWithout(j.held, Rivals(j.held, j.cursor));
    }
  }

  lemma StepKeepsSound(j: Jitter, op: Op)
    requires Sound(j)
    ensures Sound(Step(j, op).0)
  {
    match op
    case Insert(wireSeq, wireTs, payload) => InsertKeepsSound(j, wireSeq, wireTs, payload);
    case Pop(pastDeadline) => PopKeepsSound(j, pastDeadline);
    case Flush(_, _) =>
    case Resync =>
  }

  /** Conservation: whatever is done to the buffer, every accepted packet stays accounted for. */
  lemma {:induction false} RunKeepsSound(j: Jitter, ops: seq<Op>)
    requires Sound(j)
    ensures Sound(Run(j, ops))
    decreases |ops|
  {
    if ops != [] {
      StepKeepsSound(j, ops[0]);
      RunKeepsSound(Step(j, ops[0]).0, ops[1..]);
    }
  }
}
