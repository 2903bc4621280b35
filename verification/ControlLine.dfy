/**
 From the key press to the relay: the lease's writer and its encoder (LeaseConnection.java,
 NowPlayingEncoder.java) put bytes on the control connection, and the supervisor's session
 (src/supervisor_main.c) acts on what arrives of them.
 */
module ControlLine {
  import opened Words
  import opened LeaseModel
  import opened Encoders
  import LineBuffers
  import S = SupervisorModel

  /** A lease with its encoder's press gate, the bytes encoded but not yet written, and those written. */
  datatype Line = Line(lease: Lease, gate: bool, pending: seq<Byte>, wire: seq<Byte>)

  const OPEN := Line(BOOT, false, [], [])

  /** A step of the lease; sent is how many bytes of a failing write still left. */
  datatype Act = Act(action: Action, sent: nat)

  /** writeOne: encode outside the lock; then write everything, or part of it and fail, unless closed. */
  function Advance(x: Line, a: Act): Line {
    var w := x.lease.writer;
    if a.action.Step? && w.Encode? then
      var bytes := Encoded(x.gate, w.frame.event);
      Line(Next(x.lease, Step(a.action.ok, bytes != [])), Gate(x.gate, w.frame.event), bytes, x.wire)
    else if a.action.Step? && w.Write? && !x.lease.core.closed then
      var left := if a.action.ok then x.pending else x.pending[..Min(a.sent, |x.pending|)];
      x.(lease := Next(x.lease, a.action), wire := x.wire + left)
    else x.(lease := Next(x.lease, a.action))
  }

  function Run(x: Line, acts: seq<Act>): Line
    decreases |acts|
  {
    if acts == [] then x else Run(Advance(x, acts[0]), acts[1..])
  }

  function Events(frames: seq<Framed>): seq<OutEvent> {
    seq(|frames|, i requires 0 <= i < |frames| => frames[i].event)
  }

  function Sent(x: Line): seq<Byte> { Stream(false, Events(x.lease.handed)) }

  /** The writer has given up or never began. */
  predicate Ending(w: Writer) { w.SelfClose? || w.SelfDown? || w.Gone? }

  /** What is on the wire is what the encoder made of the frames handed to it, up to a write that failed. */
  ghost predicate OnTheWire(x: Line) {
    && (!Ending(x.lease.writer) ==> x.gate == GateAfter(false, Events(x.lease.handed)))
    && (if Ending(x.lease.writer) then x.wire <= Sent(x)
        else if x.lease.writer.Write? then x.wire + x.pending == Sent(x)
        else x.wire == Sent(x))
  }

  lemma EventsSnoc(frames: seq<Framed>, f: Framed)
    ensures Events(frames + [f]) == Events(frames) + [f.event]
  {
  }

  lemma EncodeKeepsWire(x: Line, a: Act)
    requires OnTheWire(x) && a.action.Step? && x.lease.writer.Encode?
    ensures OnTheWire(Advance(x, a))
  {
    hide Encoded, Gate;
    var f := x.lease.writer.frame;
    EventsSnoc(x.lease.handed, f);
    StreamSnoc(false, Events(x.lease.handed), f.event);
    GateAfterSnoc(false, Events(x.lease.handed), f.event);
  }

  lemma AdvanceKeepsWire(x: Line, a: Act)
    requires OnTheWire(x)
    ensures OnTheWire(Advance(x, a))
  {
    hide Stream, GateAfter, Encoded, Gate, Events;
    if a.action.Step? && x.lease.writer.Encode? {
      EncodeKeepsWire(x, a);
    } else {
      assert Advance(x, a).lease.handed == x.lease.handed;
    }
  }

  lemma {:induction false} RunKeepsWire(x: Line, acts: seq<Act>)
    requires OnTheWire(x)
    ensures OnTheWire(Run(x, acts)) && Run(x, acts).wire <= Sent(Run(x, acts))
    decreases |acts|
  {
    if acts != [] {
      hide OnTheWire;
      AdvanceKeepsWire(x, acts[0]);
      RunKeepsWire(Advance(x, acts[0]), acts[1..]);
    }
  }

  /** The steps of the lease inside. */
  function Inside(x: Line, acts: seq<Act>): seq<Action>
    decreases |acts|
  {
    if acts == [] then []
    else
      var a, w := acts[0].action, x.lease.writer;
      [if a.Step? && w.Encode? then Step(a.ok, Encoded(x.gate, w.frame.event) != []) else a]
      + Inside(Advance(x, acts[0]), acts[1..])
  }

  /** The lease inside runs as the lease model says, so all that holds of every lease holds of it. */
  lemma {:induction false} LeaseInside(x: Line, acts: seq<Act>)
    ensures Run(x, acts).lease == LeaseModel.Run(x.lease, Inside(x, acts))
    decreases |acts|
  {
    if acts != [] {
      hide Next, Encoded, Gate;
      LeaseInside(Advance(x, acts[0]), acts[1..]);
      assert Inside(x, acts)[1..] == Inside(Advance(x, acts[0]), acts[1..]);
    }
  }

  /** Every frame handed over carries the event issued under its number. */
  lemma HandedAsIssued(acts: seq<Act>, i: nat)
    requires i < |Run(OPEN, acts).lease.handed|
    ensures var l := Run(OPEN, acts).lease;
            l.handed[i].seqNo < |l.issued| && l.handed[i].event == l.issued[l.handed[i].seqNo]
  {
    hide Run, Inside, LeaseModel.Run;
    StartsClean();
    LeaseInside(OPEN, acts);
    RunKeepsInv(BOOT, Inside(OPEN, acts));
    var l := Run(OPEN, acts).lease;
    assert LeaseModel.Line(l)[i] == l.handed[i];
  }

  /** Reading a prefix of a stream emits a prefix of its events. */
  lemma PrefixMeans(got: seq<Byte>, es: seq<OutEvent>)
    requires got <= Stream(false, es)
    ensures LineBuffers.EmitsAll(LineBuffers.EMPTY, got) <= Meanings(false, es)
  {
    hide LineBuffers.EmitsAll, Stream, Meanings;
    var all := Stream(false, es);
    assert all == got + all[|got|..];
    LineBuffers.PushConcat(LineBuffers.EMPTY, got, all[|got|..]);
    StreamMeans(false, es);
  }

  /**
   Whatever the producers, the writer, close() and the network do: the lines the supervisor acts on are
   the first ones of what the encoder makes of the frames handed to it, and the session relays exactly
   the commands among those lines, in order.
   */
  lemma FromKeyToRelay(acts: seq<Act>, at: int, startOk: bool, turns: seq<S.Turn>, end: int)
    requires S.AllBytes(turns) <= Run(OPEN, acts).wire
    ensures var l, z := Run(OPEN, acts).lease, S.Serve(at, startOk, turns, end);
            && z.handled <= Meanings(false, Events(l.handed))
            && z.log == [S.Began] + S.Relays(z.handled) + [S.TornDown]
  {
    hide S.Serve, S.Relays, LineBuffers.EmitsAll, Stream, Meanings, Run, OnTheWire;
    StartsClean();
    RunKeepsWire(OPEN, acts);
    S.SessionLog(at, startOk, turns, end);
    PrefixMeans(S.AllBytes(turns), Events(Run(OPEN, acts).lease.handed));
  }

  lemma StartsClean()
    ensures OnTheWire(OPEN) && Inv(OPEN.lease)
  {
    FreshInv();
    assert Events([]) == [];
  }
}
