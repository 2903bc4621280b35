/**
 The supervisor: the lease state machine (src/supervisor.c, sup_step) and the one session it serves
 (src/supervisor_main.c). Clock readings, poll and read outcomes and the exit code of the start
 script are inputs.
 */
module SupervisorModel {
  import opened Words
  import opened LineBuffers

  const TIMEOUT_MS: int := 30000

  datatype Phase = Idle | Active

  datatype Sup = Sup(phase: Phase, session: nat, lastBeat: int)

  const FRESH := Sup(Idle, 0, 0)

  datatype Order = NoOrder | StartOrder | StopOrder

  predicate IsCommand(ev: Event) { ev == NextItem || ev == PrevItem || ev == PlayPause }

  /** Proof of life: an accepted connection, a heartbeat or a command. */
  predicate IsSign(ev: Event) { ev == Accept || ev == Beat || IsCommand(ev) }

  predicate Expired(s: Sup, now: int) { s.phase == Active && now - s.lastBeat > TIMEOUT_MS }

  /** sup_step: the new state, and the order it gives. */
  function Stepped(s: Sup, ev: Event, now: int): Sup {
    match ev
    case Accept => Sup(Active, s.session + 1, now)
    case Beat => if s.phase == Active then s.(lastBeat := now) else s
    case NextItem => if s.phase == Active then s.(lastBeat := now) else s
    case PrevItem => if s.phase == Active then s.(lastBeat := now) else s
    case PlayPause => if s.phase == Active then s.(lastBeat := now) else s
    case StopLine => s.(phase := Idle)
    case Eof => s.(phase := Idle)
    case Tick => if Expired(s, now) then s.(phase := Idle) else s
    case Nothing => s
  }

  function Ordered(s: Sup, ev: Event, now: int): Order {
    match ev
    case Accept => StartOrder
    case StopLine => if s.phase == Active then StopOrder else NoOrder
    case Eof => if s.phase == Active then StopOrder else NoOrder
    case Tick => if Expired(s, now) then StopOrder else NoOrder
    case _ => NoOrder
  }

  datatype Timed = Timed(ev: Event, at: int)

  function After(s: Sup, run: seq<Timed>): Sup
    decreases |run|
  {
    if run == [] then s else After(Stepped(s, run[0].ev, run[0].at), run[1..])
  }

  /** The start and stop orders of a run, in order. */
  function Orders(s: Sup, run: seq<Timed>): seq<Order>
    decreases |run|
  {
    if run == [] then []
    else
      var o := Ordered(s, run[0].ev, run[0].at);
      (if o == NoOrder then [] else [o]) + Orders(Stepped(s, run[0].ev, run[0].at), run[1..])
  }

  /** Start and stop in turn, the first one fitting the phase it begins in. */
  predicate Alternate(orders: seq<Order>, phase: Phase)
    decreases |orders|
  {
    orders == [] ||
    (if phase == Idle then orders[0] == StartOrder && Alternate(orders[1..], Active)
     else orders[0] == StopOrder && Alternate(orders[1..], Idle))
  }

  predicate AcceptsWhenIdle(s: Sup, run: seq<Timed>)
    decreases |run|
  {
    run == [] ||
    ((run[0].ev == Accept ==> s.phase == Idle) && AcceptsWhenIdle(Stepped(s, run[0].ev, run[0].at), run[1..]))
  }

  /** START and STOP alternate exactly when no connection is accepted during a lease. */
  lemma {:induction false} AlternateIff(s: Sup, run: seq<Timed>)
    ensures Alternate(Orders(s, run), s.phase) <==> AcceptsWhenIdle(s, run)
    decreases |run|
  {
    if run != [] {
      var o, s' := Ordered(s, run[0].ev, run[0].at), Stepped(s, run[0].ev, run[0].at);
      AlternateIff(s', run[1..]);
      var rest := Orders(s', run[1..]);
      if o == NoOrder {
        assert Orders(s, run) == rest && s'.phase == s.phase;
      } else {
        assert Orders(s, run) == [o] + rest && ([o] + rest)[1..] == rest;
      }
    }
  }

  // ----- the heartbeat timeout --------------------------------------------------------------

  /** When the last sign of life in a run came. */
  function LastSign(run: seq<Timed>): Option<int>
    decreases |run|
  {
    if run == [] then None
    else if IsSign(run[|run| - 1].ev) then Some(run[|run| - 1].at)
    else LastSign(run[..|run| - 1])
  }

  lemma {:induction false} AfterSnoc(s: Sup, run: seq<Timed>)
    requires run != []
    ensures After(s, run) == Stepped(After(s, run[..|run| - 1]), run[|run| - 1].ev, run[|run| - 1].at)
    decreases |run|
  {
    if |run| > 1 {
      assert run[1..][..|run| - 2] == run[..|run| - 1][1..];
      AfterSnoc(Stepped(s, run[0].ev, run[0].at), run[1..]);
    } else {
      assert run[..0] == [] && run[1..] == [];
    }
  }

  lemma {:induction false} LastBeatIsLastSign(run: seq<Timed>)
    ensures After(FRESH, run).phase == Active ==> LastSign(run) == Some(After(FRESH, run).lastBeat)
    decreases |run|
  {
    if run != [] {
      AfterSnoc(FRESH, run);
      LastBeatIsLastSign(run[..|run| - 1]);
    }
  }

  lemma {:induction false} LastSignIsLatest(run: seq<Timed>, i: nat)
    requires i < |run| && IsSign(run[i].ev)
    requires forall j, k :: 0 <= j <= k < |run| ==> run[j].at <= run[k].at
    ensures LastSign(run).Some? && run[i].at <= LastSign(run).value
    decreases |run|
  {
    if !IsSign(run[|run| - 1].ev) { LastSignIsLatest(run[..|run| - 1], i); }
  }

  /** A tick ends the lease exactly when more than 30000 ms have passed since the last sign of life. */
  lemma TickIff(run: seq<Timed>, now: int)
    requires After(FRESH, run).phase == Active
    ensures LastSign(run).Some?
    ensures Ordered(After(FRESH, run), Tick, now) == StopOrder <==> now - LastSign(run).value > TIMEOUT_MS
  {
    LastBeatIsLastSign(run);
  }

  /** With a clock that does not run backwards, every sign of life is then more than 30000 ms old. */
  lemma TickEndsOnlyAfterSilence(run: seq<Timed>, now: int, i: nat)
    requires Ordered(After(FRESH, run), Tick, now) == StopOrder
    requires forall j, k :: 0 <= j <= k < |run| ==> run[j].at <= run[k].at
    requires i < |run| && IsSign(run[i].ev)
    ensures now - run[i].at > TIMEOUT_MS
  {
    LastBeatIsLastSign(run);
    LastSignIsLatest(run, i);
  }

  // ----- the one session --------------------------------------------------------------------

  /** read() is offered a 256 byte buffer. */
  const READ_MAX: nat := 256
  type Chunk = b: seq<Byte> | |b| <= READ_MAX

  datatype Poll = Interrupted | Failed | TimedOut | HungUp | ReadInterrupted | ReadFailed | Ended | Data(bytes: Chunk)

  /** One round of the loop: the clock at its tick, what poll and read gave, and the clock at each event. */
  datatype Turn = Turn(tick: int, poll: Poll, clock: seq<int>)

  function Clock(t: Turn, i: nat): int { if i < |t.clock| then t.clock[i] else t.tick }

  datatype Entry = Began | Relayed(cmd: Event) | TornDown

  /** `log` is what the supervisor does to the outside, `handled` the line events it has acted on. */
  datatype Session = Session(sup: Sup, buf: Buf, torn: bool, log: seq<Entry>, handled: seq<Event>)

  const BOOT := Session(FRESH, EMPTY, false, [], [])

  /** supervisor_teardown */
  function TearDown(x: Session): Session {
    if x.torn then x else x.(torn := true, log := x.log + [TornDown])
  }

  /** sup_step, and do_action when it orders a stop. */
  function Act(x: Session, ev: Event, now: int): Session {
    var y := x.(sup := Stepped(x.sup, ev, now));
    if Ordered(x.sup, ev, now) == StopOrder then TearDown(y) else y
  }

  function HandleLine(x: Session, ev: Event, now: int): Session {
    var y := x.(handled := x.handled + [ev], log := if IsCommand(ev) then x.log + [Relayed(ev)] else x.log);
    Act(y, ev, now)
  }

  function HandleLines(x: Session, evs: seq<Event>, t: Turn, i: nat): Session
    requires i <= |evs|
    decreases |evs| - i
  {
    if i == |evs| || x.sup.phase == Idle then x else HandleLines(HandleLine(x, evs[i], Clock(t, i)), evs, t, i + 1)
  }

  function Round(x: Session, t: Turn): Session {
    if Ordered(x.sup, Tick, t.tick) == StopOrder then Act(x, Tick, t.tick)
    else if t.poll.HungUp? || t.poll.ReadFailed? || t.poll.Ended? then Act(x, Eof, Clock(t, 0))
    else if t.poll.Data? then
      HandleLines(x.(buf := AfterAll(x.buf, t.poll.bytes)), EmitsAll(x.buf, t.poll.bytes), t, 0)
    else x
  }

  /** The list of turns ends where the stop signal is seen. */
  function Loop(x: Session, turns: seq<Turn>): Session
    decreases |turns|
  {
    if turns == [] || x.sup.phase == Idle then x
    else if turns[0].poll.Failed? then Round(x, turns[0])
    else Loop(Round(x, turns[0]), turns[1..])
  }

  /** From the accepted connection to the end of main. */
  function Serve(at: int, startOk: bool, turns: seq<Turn>, end: int): Session {
    var x := Act(BOOT, Accept, at).(log := [Began]);
    var y := if startOk then Loop(x, turns) else x;
    var z := if y.sup.phase == Active then Act(y, StopLine, end) else y;
    TearDown(z)
  }

  function Relays(evs: seq<Event>): seq<Entry>
    decreases |evs|
  {
    if evs == [] then []
    else Relays(evs[..|evs| - 1]) + (if IsCommand(evs[|evs| - 1]) then [Relayed(evs[|evs| - 1])] else [])
  }

  /** While the lease is held nothing has been torn down; afterwards the teardown is the last entry. */
  ghost predicate Shape(x: Session) {
    && (x.torn <==> x.sup.phase == Idle)
    && x.log == [Began] + Relays(x.handled) + (if x.torn then [TornDown] else [])
  }

  lemma ActKeepsShape(x: Session, ev: Event, now: int)
    requires Shape(x) && x.sup.phase == Active && ev != Accept
    ensures Shape(Act(x, ev, now)) && Act(x, ev, now).handled == x.handled && Act(x, ev, now).buf == x.buf
  {
  }

  lemma LineKeepsShape(x: Session, ev: Event, now: int)
    requires Shape(x) && x.sup.phase == Active && ev != Accept
    ensures Shape(HandleLine(x, ev, now))
    ensures HandleLine(x, ev, now).handled == x.handled + [ev] && HandleLine(x, ev, now).buf == x.buf
  {
    var y := x.(handled := x.handled + [ev], log := if IsCommand(ev) then x.log + [Relayed(ev)] else x.log);
    assert y.handled[..|y.handled| - 1] == x.handled;
    assert y.log == [Began] + Relays(y.handled) + [];
    ActKeepsShape(y, ev, now);
  }

  lemma {:induction false} LinesKeepShape(x: Session, evs: seq<Event>, t: Turn, i: nat)
    requires i <= |evs| && Shape(x) && Accept !in evs
    ensures var y := HandleLines(x, evs, t, i);
            && Shape(y) && y.buf == x.buf
            && |x.handled| <= |y.handled| <= |x.handled| + |evs| - i
            && y.handled == x.handled + evs[i..i + |y.handled| - |x.handled|]
            && (y.sup.phase == Active ==> y.handled == x.handled + evs[i..])
    decreases |evs| - i
  {
    hide Shape, HandleLine;
    if i == |evs| || x.sup.phase == Idle {
      assert x.handled == x.handled + evs[i..i];
    } else {
      assert evs[i] in evs;
      LineKeepsShape(x, evs[i], Clock(t, i));
      var x' := HandleLine(x, evs[i], Clock(t, i));
      LinesKeepShape(x', evs, t, i + 1);
      var n := |HandleLines(x', evs, t, i + 1).handled| - |x'.handled|;
      assert [evs[i]] + evs[i + 1..i + 1 + n] == evs[i..i + 1 + n];
      assert [evs[i]] + evs[i + 1..] == evs[i..];
    }
  }

  lemma {:induction false} LinesAreNotAccepts(b: Buf, data: seq<Byte>)
    ensures Accept !in EmitsAll(b, data)
    decreases |data|
  {
    if data != [] { LinesAreNotAccepts(LineBuffers.After(b, data[0]), data[1..]); }
  }

  function Bytes(t: Turn): seq<Byte> { if t.poll.Data? then t.poll.bytes else [] }

  function AllBytes(turns: seq<Turn>): seq<Byte>
    decreases |turns|
  {
    if turns == [] then [] else Bytes(turns[0]) + AllBytes(turns[1..])
  }

  lemma RoundKeepsShape(x: Session, t: Turn)
    requires Shape(x) && x.sup.phase == Active
    ensures var y := Round(x, t);
            && Shape(y)
            && x.handled <= y.handled <= x.handled + EmitsAll(x.buf, Bytes(t))
            && (y.sup.phase == Active ==>
                  y.handled == x.handled + EmitsAll(x.buf, Bytes(t)) && y.buf == AfterAll(x.buf, Bytes(t)))
  {
    hide Shape, HandleLines, Act;
    ActKeepsShape(x, Tick, t.tick);
    ActKeepsShape(x, Eof, Clock(t, 0));
    ActEndsIt(x, t.tick);
    ActEndsIt(x, Clock(t, 0));
    PushNothing(x.buf);
    if t.poll.Data? {
      LinesAreNotAccepts(x.buf, t.poll.bytes);
      BufferIsNotShape(x, AfterAll(x.buf, t.poll.bytes));
      LinesKeepShape(x.(buf := AfterAll(x.buf, t.poll.bytes)), EmitsAll(x.buf, t.poll.bytes), t, 0);
    }
  }

  lemma BufferIsNotShape(x: Session, b: Buf)
    requires Shape(x)
    ensures Shape(x.(buf := b))
  {
  }

  lemma ActEndsIt(x: Session, now: int)
    requires x.sup.phase == Active
    ensures Act(x, Eof, now).sup.phase == Idle
    ensures Ordered(x.sup, Tick, now) == StopOrder ==> Act(x, Tick, now).sup.phase == Idle
  {
  }

  lemma {:induction false} LoopKeepsShape(x: Session, turns: seq<Turn>)
    requires Shape(x)
    ensures var y := Loop(x, turns);
            && Shape(y) && x.handled <= y.handled <= x.handled + EmitsAll(x.buf, AllBytes(turns))
            && (y.sup.phase == Active && (forall t :: t in turns ==> !t.poll.Failed?) ==>
                  y.handled == x.handled + EmitsAll(x.buf, AllBytes(turns)))
    decreases |turns|
  {
    hide Shape, Round, EmitsAll, AfterAll;
    PushNothing(x.buf);
    if turns != [] && x.sup.phase == Active {
      RoundKeepsShape(x, turns[0]);
      var x' := Round(x, turns[0]);
      PushConcat(x.buf, Bytes(turns[0]), AllBytes(turns[1..]));
      assert turns[0] in turns && forall t :: t in turns[1..] ==> t in turns;
      if x'.sup.phase == Active { LoopKeepsShape(x', turns[1..]); }
    }
  }

  predicate HeldToTheEnd(at: int, startOk: bool, turns: seq<Turn>) {
    && startOk && Loop(Act(BOOT, Accept, at).(log := [Began]), turns).sup.phase == Active
    && forall t :: t in turns ==> !t.poll.Failed?
  }

  /**
   Over every session: the receiver is started once, the commands acted on are relayed in order,
   then there is one teardown, and nothing is relayed after it. The lines acted on are the first
   ones of the byte stream, however it was cut into reads.
   */
  lemma SessionLog(at: int, startOk: bool, turns: seq<Turn>, end: int)
    ensures var z := Serve(at, startOk, turns, end);
            && z.sup.phase == Idle
            && z.log == [Began] + Relays(z.handled) + [TornDown]
            && z.handled <= EmitsAll(EMPTY, AllBytes(turns))
            // a lease that only the stop signal ended had acted on every line
            && (HeldToTheEnd(at, startOk, turns) ==> z.handled == EmitsAll(EMPTY, AllBytes(turns)))
  {
    hide EmitsAll, Loop;
    var x := Act(BOOT, Accept, at).(log := [Began]);
    LoopKeepsShape(x, turns);
    var y := if startOk then Loop(x, turns) else x;
    assert Shape(y);
  }
}
