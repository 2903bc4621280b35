/**
 When the resync of src/jitter.c brings a stalled player back, over every session src/session.c can
 reach: exactly when the conceal window covers the preroll, and so exactly for frame lengths up to 1378.
 */
module Recovery {
  import opened Words
  import opened JitterModel
  import opened Playback
  import opened SessionModel

  /** The player's i-th iteration from now on, with nothing arriving in between. */
  ghost function TurnAt(c: Core, i: nat): Turn
    decreases i
  {
    if i == 0 then PlayerTurn(c).1 else TurnAt(PlayerTurn(c).0, i - 1)
  }

  /** The run at the live edge fits the ring behind the preroll. */
  ghost predicate Fits(j: Jitter)
    requires Lapped(j)
  {
    LiveEdge(j).1 < LiveEdge(j).0 + SLOTS - RESYNC_PREROLL
  }

  /** The player is about to resync to a run that fits. */
  ghost predicate AboutToJump(m: Machine) {
    m.pc.Ready? && m.flushing.None? && PlayerTurn(m.core).1.Jumped? && Fits(m.core.jit)
  }

  /** The cursor moves forward, and every later iteration pops until the run has been played in full. */
  ghost predicate Resumes(c: Core)
    requires Lapped(c.jit)
  {
    var (start, hi) := LiveEdge(c.jit);
    var c' := PlayerTurn(c).0;
    && c.jit.cursor < c'.jit.cursor <= hi
    && (forall i: nat :: c'.jit.cursor + i <= hi ==> PlaysOn(TurnAt(c', i), c'.jit.cursor + i, start))
  }

  /** A pop of this number: audio from the start of the run on, audio or silence before it. */
  predicate PlaysOn(turn: Turn, ext: nat, start: nat) {
    && turn.Popping? && (turn.event.Data? || turn.event.Conceal?) && turn.event.ext == ext
    && (ext >= start ==> turn.event.Data?)
  }

  /** In every interleaving of a session with these frames per packet, a resync is followed by clean playing. */
  ghost predicate AlwaysRecovers(framesPerPacket: nat) {
    forall seq0: Word16, ts0: Word32, actions: seq<Action> ::
      var m := RunMachine(Begin(framesPerPacket, seq0, ts0), actions);
      AboutToJump(m) ==> Resumes(m.core)
  }

  lemma {:induction false} FramesStay(m: Machine, actions: seq<Action>)
    ensures RunMachine(m, actions).core.framesPerPacket == m.core.framesPerPacket
    decreases |actions|
  {
    if actions != [] {
      FramesStayOnce(m, actions[0]);
      FramesStay(Next(m, actions[0]), actions[1..]);
    }
  }

  lemma FramesStayOnce(m: Machine, a: Action)
    ensures Next(m, a).core.framesPerPacket == m.core.framesPerPacket
  {
  }

  /** While pops succeed, the iterations of an open gate are the pops of the buffer. */
  lemma {:induction false} TurnsArePops(c: Core, i: nat)
    requires c.started
    requires forall k: nat :: k <= i ==> !PlayAt(c.jit, ConcealWindow(c.framesPerPacket), k).Stall?
    ensures TurnAt(c, i) == Popping(PlayAt(c.jit, ConcealWindow(c.framesPerPacket), i))
    decreases i
  {
    var window := ConcealWindow(c.framesPerPacket);
    assert !PlayAt(c.jit, window, 0).Stall?;
    OpenTurn(c);
    if i > 0 {
      var c' := PlayerTurn(c).0;
      forall k: nat | k <= i - 1 ensures !PlayAt(c'.jit, window, k).Stall? {
        assert PlayAt(c.jit, window, k + 1) == PlayAt(c'.jit, window, k);
      }
      TurnsArePops(c', i - 1);
    }
  }

  lemma OpenTurn(c: Core)
    requires c.started && !PlayerPop(c.jit, ConcealWindow(c.framesPerPacket)).1.Stall?
    ensures var (c', turn) := PlayerTurn(c);
            var (jit, event) := PlayerPop(c.jit, ConcealWindow(c.framesPerPacket));
            && c'.jit == jit && turn == Popping(event)
            && c'.started && c'.framesPerPacket == c.framesPerPacket
  {
  }

  lemma LongWindowResumes(c: Core)
    requires ConcealWindow(c.framesPerPacket) >= RESYNC_PREROLL
    requires PlayerTurn(c).1.Jumped? && Fits(c.jit)
    ensures Resumes(c)
  {
    var window := ConcealWindow(c.framesPerPacket);
    var (start, hi) := LiveEdge(c.jit);
    var c' := PlayerTurn(c).0;
    ResyncLandsOnPreroll(c.jit, window);
    JumpLands(c);
    hide LiveEdge, ResyncStep, PlayerTurn, Lapped;
    forall i: nat | c'.jit.cursor + i <= hi ensures PlaysOn(TurnAt(c', i), c'.jit.cursor + i, start) {
      forall k: nat | k <= i ensures !PlayAt(c'.jit, window, k).Stall? {
        RunPlaysThrough(c'.jit, window, start, hi, k);
      }
      RunPlaysThrough(c'.jit, window, start, hi, i);
      TurnsArePops(c', i);
    }
  }

  lemma JumpLands(c: Core)
    requires PlayerTurn(c).1.Jumped?
    ensures var c' := PlayerTurn(c).0;
            c'.jit == ResyncStep(c.jit).0 && c'.started && c'.framesPerPacket == c.framesPerPacket
    ensures Lapped(c.jit) && Stalled(c.jit, ConcealWindow(c.framesPerPacket))
  {
  }

  // ----- a session that does not recover ------------------------------------------------------

  /** Sixteen packets with payload p arrive, the first of them 200 ahead of where the session began. */
  function Late(k: nat, p: seq<Byte>): seq<Action>
    requires k <= 16
  {
    if k == 0 then [] else Late(k - 1, p) + [Arrive(199 + k, 0, p)]
  }

  ghost predicate Behind(c: Core, k: nat) {
    && c.jit.cursor == 0 && c.jit.boundary == 0 && c.jit.seqRef == (if k == 0 then 0 else 199 + k)
    && (forall e :: e in c.jit.held <==> 200 <= e < 200 + k)
    && !c.flushed && !c.started && c.rxCount == k && c.hold == 0
  }

  lemma ArrivalFallsBehind(c: Core, k: nat, p: seq<Byte>)
    requires Behind(c, k) && k < 16 && |p| <= MAX_PAYLOAD
    ensures Behind(Receive(c, 200 + k, 0, p).0, k + 1)
  {
    hide Receive;
    ArrivesInWindow(c, 200 + k, 0, p);
  }

  lemma {:induction false} LateSession(framesPerPacket: nat, k: nat, p: seq<Byte>)
    requires k <= 16 && |p| <= MAX_PAYLOAD
    ensures var m := RunMachine(Begin(framesPerPacket, 0, 0), Late(k, p));
            Behind(m.core, k) && m.pc.LoopTop? && m.flushing.None?
  {
    if k > 0 {
      hide Behind, Receive;
      LateSession(framesPerPacket, k - 1, p);
      var m := RunMachine(Begin(framesPerPacket, 0, 0), Late(k - 1, p));
      OneMore(Begin(framesPerPacket, 0, 0), Late(k - 1, p), Arrive(199 + k, 0, p));
      ArrivalFallsBehind(m.core, k - 1, p);
    }
  }

  lemma BehindIsLapped(c: Core)
    requires Behind(c, 16)
    ensures Lapped(c.jit) && LiveEdge(c.jit) == (200, 215) && Fits(c.jit)
    ensures ResyncStep(c.jit).0.cursor == 184 && ResyncStep(c.jit).0.held == c.jit.held
  {
    assert FreshRun(c.jit, 215);
    ResyncFiresIff(c.jit);
    var (start, hi) := LiveEdge(c.jit);
    assert 215 in c.jit.held && hi == 215;
    assert 199 !in c.jit.held && start in c.jit.held;
    assert start > 200 ==> start - 1 in c.jit.held;
  }

  /** With a shorter window the player jumps, and the very next iteration stalls again. */
  lemma JumpsAndStalls(c: Core)
    requires Behind(c, 16) && ConcealWindow(c.framesPerPacket) < RESYNC_PREROLL
    ensures PlayerTurn(c).1.Jumped? && PlayerTurn(PlayerTurn(c).0).1.Stalling?
  {
    hide Lapped, LiveEdge, ResyncStep;
    BehindIsLapped(c);
    WindowCovers(c.framesPerPacket, RESYNC_PREROLL);
    assert !PastDeadline(c.jit, ConcealWindow(c.framesPerPacket));
    assert !PastDeadline(ResyncStep(c.jit).0, ConcealWindow(c.framesPerPacket));
  }

  lemma DoesNotResume(c: Core)
    requires Behind(c, 16) && ConcealWindow(c.framesPerPacket) < RESYNC_PREROLL
    ensures PlayerTurn(c).1.Jumped? && Lapped(c.jit) && Fits(c.jit) && !Resumes(c)
  {
    hide Behind, Lapped, LiveEdge, ResyncStep, PlayerTurn;
    BehindIsLapped(c);
    JumpsAndStalls(c);
    JumpLands(c);
    var c' := PlayerTurn(c).0;
    assert TurnAt(c', 0) == PlayerTurn(c').1;
    assert !PlaysOn(TurnAt(c', 0), c'.jit.cursor + 0, 200);
  }

  /** A session in which the player stalls again right after its own resync. */
  lemma ShortWindowStallsAgain(framesPerPacket: nat, p: seq<Byte>)
    requires ConcealWindow(framesPerPacket) < RESYNC_PREROLL && MIN_PAYLOAD <= |p| <= MAX_PAYLOAD
    ensures var m := RunMachine(Begin(framesPerPacket, 0, 0), Late(16, p) + [ServiceRestart]);
            AboutToJump(m) && !Resumes(m.core) && PlayerTurn(PlayerTurn(m.core).0).1.Stalling?
  {
    hide Behind, Lapped, Fits, Resumes, PlayerTurn, RunMachine;
    LateSession(framesPerPacket, 16, p);
    FramesStay(Begin(framesPerPacket, 0, 0), Late(16, p));
    OneMore(Begin(framesPerPacket, 0, 0), Late(16, p), ServiceRestart);
    var c := RunMachine(Begin(framesPerPacket, 0, 0), Late(16, p)).core;
    DoesNotResume(c);
    JumpsAndStalls(c);
  }

  /** A session always recovers exactly when its conceal window covers the preroll. */
  lemma RecoveryNeedsThePreroll(framesPerPacket: nat)
    ensures AlwaysRecovers(framesPerPacket) <==> ConcealWindow(framesPerPacket) >= RESYNC_PREROLL
  {
    if ConcealWindow(framesPerPacket) >= RESYNC_PREROLL {
      forall seq0: Word16, ts0: Word32, actions: seq<Action>
        ensures var m := RunMachine(Begin(framesPerPacket, seq0, ts0), actions); AboutToJump(m) ==> Resumes(m.core)
      {
        var m := RunMachine(Begin(framesPerPacket, seq0, ts0), actions);
        FramesStay(Begin(framesPerPacket, seq0, ts0), actions);
        if AboutToJump(m) { LongWindowResumes(m.core); }
      }
    } else {
      hide Resumes, AboutToJump;
      ShortWindowStallsAgain(framesPerPacket, seq(MIN_PAYLOAD, _ => 0));
    }
  }

  /** Of the frame lengths the SDP parser accepts, exactly those up to 1378 always recover. */
  lemma FrameLengthsThatRecover(frameLength: nat)
    requires 1 <= frameLength <= MAX_FRAME_LENGTH
    ensures AlwaysRecovers(frameLength) <==> frameLength <= 1378
  {
    hide AlwaysRecovers;
    RecoveryNeedsThePreroll(frameLength);
    WindowCovers(frameLength, RESYNC_PREROLL);
  }
}
