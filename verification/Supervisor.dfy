/** The supervisor as the program runs it: the lease state, the line buffer and the session loop. */
module Supervisors {
  import opened LineBuffers
  import opened SupervisorModel

  class Supervisor {
    var phase: Phase
    var session: nat
    var lastBeat: int
    var torn: bool
    const lb: LineBuffer
    var log: seq<Entry>
    ghost var handled: seq<LineBuffers.Event>

    ghost predicate Valid()
      reads this, lb
    {
      lb.Valid()
    }

    ghost function View(): Session
      requires Valid()
      reads this, lb, lb.buf
    {
      Session(Sup(phase, session, lastBeat), lb.View(), torn, log, handled)
    }

    constructor ()
      ensures Valid() && View() == BOOT && fresh(lb) && fresh(lb.buf)
    {
      phase, session, lastBeat, torn, log, handled := Idle, 0, 0, false, [], [];
      lb := new LineBuffer();
    }

    /** sup_step */
    method Step(ev: LineBuffers.Event, now: int) returns (order: Order)
      requires Valid()
      modifies this`phase, this`session, this`lastBeat
      ensures View() == old(View()).(sup := Stepped(old(View()).sup, ev, now))
      ensures order == Ordered(old(View()).sup, ev, now)
    {
      order := NoOrder;
      match ev {
        case Accept =>
          phase, session, lastBeat := Active, session + 1, now;
          order := StartOrder;
        case StopLine =>
          if phase == Active { phase, order := Idle, StopOrder; }
        case Eof =>
          if phase == Active { phase, order := Idle, StopOrder; }
        case Tick =>
          if phase == Active && now - lastBeat > TIMEOUT_MS { phase, order := Idle, StopOrder; }
        case Nothing =>
        case _ =>
          if phase == Active { lastBeat := now; }
      }
    }

    /** supervisor_teardown */
    method TearDownOnce()
      requires Valid()
      modifies this`torn, this`log
      ensures View() == TearDown(old(View()))
    {
      if !torn {
        torn := true;
        log := log + [TornDown];
      }
    }

    /** sup_step followed by do_action for a stop. */
    method StepAndAct(ev: LineBuffers.Event, now: int) returns (ended: bool)
      requires Valid()
      modifies this`phase, this`session, this`lastBeat, this`torn, this`log
      ensures View() == Act(old(View()), ev, now)
      ensures ended <==> Ordered(old(View()).sup, ev, now) == StopOrder
    {
      var order := Step(ev, now);
      ended := order == StopOrder;
      if ended { TearDownOnce(); }
    }

    /** The loop over the events of one read. */
    method ActOnLines(evs: seq<LineBuffers.Event>, t: Turn)
      requires Valid() && phase == Active
      modifies this`phase, this`session, this`lastBeat, this`torn, this`log, this`handled
      ensures View() == HandleLines(old(View()), evs, t, 0)
    {
      hide Act;
      var i: nat := 0;
      while i < |evs| && phase == Active
        invariant i <= |evs|
        invariant HandleLines(View(), evs, t, i) == HandleLines(old(View()), evs, t, 0)
        decreases |evs| - i
      {
        ghost var before := View();
        if IsCommand(evs[i]) { log := log + [Relayed(evs[i])]; }
        handled := handled + [evs[i]];
        var ended := StepAndAct(evs[i], Clock(t, i));
        assert View() == HandleLine(before, evs[i], Clock(t, i));
        i := i + 1;
      }
    }

    method OneRound(t: Turn)
      requires Valid() && phase == Active
      modifies this, lb, lb.buf
      ensures Valid() && View() == Round(old(View()), t)
    {
      hide Act, HandleLines, EmitsAll, AfterAll;
      ghost var before := View();
      var ended := StepAndAct(Tick, t.tick);
      if ended { return; }
      QuietTick(before, t.tick);
      match t.poll {
        case Data(bytes) =>
          var evs := lb.Push(bytes, READ_MAX);
          ActOnLines(evs, t);
        case HungUp => var _ := StepAndAct(Eof, Clock(t, 0));
        case ReadFailed => var _ := StepAndAct(Eof, Clock(t, 0));
        case Ended => var _ := StepAndAct(Eof, Clock(t, 0));
        case _ =>
      }
    }

    /** main from the accepted connection to the end. */
    method RunSession(at: int, startOk: bool, turns: seq<Turn>, end: int)
      requires Valid() && View() == BOOT
      modifies this, lb, lb.buf
      ensures Valid() && View() == Serve(at, startOk, turns, end)
      ensures log == [Began] + Relays(handled) + [TornDown]
    {
      hide Round, EmitsAll, Relays;
      var _ := StepAndAct(Accept, at);
      log := [Began];
      ghost var x := View();
      if startOk {
        var i: nat := 0;
        var broken := false;
        while i < |turns| && phase == Active && !broken
          invariant i <= |turns| && Valid()
          invariant if broken then View() == Loop(x, turns) else Loop(View(), turns[i..]) == Loop(x, turns)
          decreases |turns| - i
        {
          assert turns[i..][0] == turns[i] && turns[i..][1..] == turns[i + 1..];
          OneRound(turns[i]);
          broken := turns[i].poll.Failed?;
          i := i + 1;
        }
      }
      if phase == Active { var _ := StepAndAct(StopLine, end); }
      TearDownOnce();
      SessionLog(at, startOk, turns, end);
    }
  }

  lemma QuietTick(x: Session, now: int)
    requires Ordered(x.sup, Tick, now) != StopOrder
    ensures Act(x, Tick, now) == x
  {
  }
}
