/**
 How long the control connection can be silent. The lease's writer (LeaseConnection.java) restarts its
 heartbeat timer after every frame it hands to the encoder, also after one the encoder
 (NowPlayingEncoder.java) makes nothing of, while the supervisor (src/supervisor.c) sees only bytes.
 */
module Silence {
  import opened LeaseModel
  import opened Encoders
  import LineBuffers
  import S = SupervisorModel
  import C = ControlLine

  /**
   The times at which frames are handed over, and the present after them, for a writer that wakes when its
   timer runs out: each at most a heartbeat interval after the one before.
   */
  ghost predicate Paced(times: seq<int>, interval: nat) {
    forall i :: 0 < i < |times| ==> times[i - 1] <= times[i] <= times[i - 1] + interval
  }

  /** A time for every frame and the present. */
  ghost predicate Clocked(es: seq<OutEvent>, times: seq<int>, interval: nat) {
    |times| == |es| + 1 && Paced(times, interval)
  }

  /** Frame i puts bytes on the wire. */
  predicate Speaks(es: seq<OutEvent>, i: nat)
    requires i < |es|
  {
    Encoded(GateAt(es, i), es[i]) != []
  }

  /** Frame i speaks, and no frame after it does before frame k, or before the present if k is the number of frames. */
  ghost predicate QuietFrom(es: seq<OutEvent>, i: nat, k: nat) {
    i < k <= |es| && Speaks(es, i) && forall j: nat :: i < j < k ==> !Speaks(es, j)
  }

  /** Whatever the pace, the wire is never silent for longer than the limit, a silence still open included. */
  ghost predicate NeverSilent(es: seq<OutEvent>, interval: nat, limit: int) {
    forall times: seq<int>, i: nat, k: nat ::
      Clocked(es, times, interval) && QuietFrom(es, i, k) ==> times[k] - times[i] <= limit
  }

  /** No stretch of silent frames is long enough to fill the limit. */
  ghost predicate QuietFits(es: seq<OutEvent>, interval: nat, limit: int) {
    forall i: nat, k: nat :: QuietFrom(es, i, k) ==> (k - i) * interval <= limit
  }

  /** Frames handed over exactly an interval apart. */
  function Spaced(n: nat, interval: nat): (times: seq<int>)
    ensures |times| == n && forall i :: 0 <= i < n ==> times[i] == i * interval
  {
    seq(n, i => i * interval)
  }

  lemma SpacedIsPaced(n: nat, interval: nat)
    ensures Paced(Spaced(n, interval), interval)
  {
    forall i | 0 < i < n ensures Spaced(n, interval)[i] == Spaced(n, interval)[i - 1] + interval {
      assert i * interval == (i - 1) * interval + interval;
    }
  }

  lemma {:induction false} PacedApart(times: seq<int>, interval: nat, i: nat, k: nat)
    requires Paced(times, interval) && i <= k < |times|
    ensures times[i] <= times[k] <= times[i] + (k - i) * interval
    decreases k - i
  {
    if i < k {
      PacedApart(times, interval, i, k - 1);
      assert (k - i) * interval == (k - 1 - i) * interval + interval;
    }
  }

  lemma SpacedApart(n: nat, interval: nat, i: nat, k: nat)
    requires i <= k < n
    ensures Spaced(n, interval)[k] - Spaced(n, interval)[i] == (k - i) * interval
  {
    assert k * interval - i * interval == (k - i) * interval;
  }

  /**
   For every event sequence, interval and limit: no pace of the writer leaves the wire silent beyond the
   limit if and only if no stretch of silent frames is that many intervals long.
   */
  lemma NeverSilentIff(es: seq<OutEvent>, interval: nat, limit: int)
    ensures NeverSilent(es, interval, limit) <==> QuietFits(es, interval, limit)
  {
    hide Speaks;
    if NeverSilent(es, interval, limit) {
      var times := Spaced(|es| + 1, interval);
      SpacedIsPaced(|es| + 1, interval);
      forall i: nat, k: nat | QuietFrom(es, i, k) ensures (k - i) * interval <= limit {
        SpacedApart(|es| + 1, interval, i, k);
        assert Clocked(es, times, interval);
      }
    }
    if QuietFits(es, interval, limit) {
      forall times: seq<int>, i: nat, k: nat | Clocked(es, times, interval) && QuietFrom(es, i, k)
        ensures times[k] - times[i] <= limit
      {
        PacedApart(times, interval, i, k);
      }
    }
  }

  // ----- the heartbeat promise ----------------------------------------------------------------

  /** From the first frame that speaks on, every frame does. */
  ghost predicate AllSpeak(es: seq<OutEvent>) {
    forall i: nat, j: nat :: i < j < |es| && Speaks(es, i) ==> Speaks(es, j)
  }

  /** The last frame to speak before k, given that one does. */
  lemma {:induction false} LastSpeaker(es: seq<OutEvent>, i: nat, k: nat) returns (b: nat)
    requires i < k <= |es| && Speaks(es, i)
    ensures i <= b && QuietFrom(es, b, k)
    decreases k
  {
    hide Speaks;
    if i < k - 1 && !Speaks(es, k - 1) {
      b := LastSpeaker(es, i, k - 1);
    } else {
      b := k - 1;
    }
  }

  /** The wire is never silent for longer than the heartbeat interval if and only if no frame is silent. */
  lemma HeartbeatIff(es: seq<OutEvent>, interval: nat)
    requires interval > 0
    ensures NeverSilent(es, interval, interval) <==> AllSpeak(es)
  {
    hide Speaks;
    NeverSilentIff(es, interval, interval);
    if AllSpeak(es) {
      forall i: nat, k: nat | QuietFrom(es, i, k) ensures (k - i) * interval <= interval {
        var next := if i + 1 < |es| then Speaks(es, i + 1) else true;
        assert k == i + 1;
      }
    } else {
      var i: nat, j: nat :| i < j < |es| && Speaks(es, i) && !Speaks(es, j);
      var b := LastSpeaker(es, i, j);
      assert QuietFrom(es, b, j + 1);
      Multiples(j + 1 - b, 2, interval);
    }
  }

  lemma {:induction false} Multiples(a: nat, b: nat, interval: nat)
    requires a >= b
    ensures a * interval >= b * interval
    decreases a
  {
    if a > b {
      Multiples(a - 1, b, interval);
      assert a * interval == (a - 1) * interval + interval;
    }
  }

  // ----- the supervisor's view ----------------------------------------------------------------

  /** What the supervisor makes of frame i. */
  function Heard(es: seq<OutEvent>, i: nat): seq<LineBuffers.Event>
    requires i < |es|
  {
    Meaning(GateAt(es, i), es[i])
  }

  /** It hears exactly the frames that speak, and each is one sign of life. */
  lemma HeardIffSpeaks(es: seq<OutEvent>, i: nat)
    requires i < |es|
    ensures Speaks(es, i) <==> Heard(es, i) != []
    ensures Speaks(es, i) ==> |Heard(es, i)| == 1 && S.IsSign(Heard(es, i)[0]) && Heard(es, i)[0] != LineBuffers.Accept
  {
  }

  /**
   A run of the supervisor up to the k-th frame: the connection, then for each frame what is heard of it
   at its time, and any number of ticks at any time before the next.
   */
  ghost predicate Watch(es: seq<OutEvent>, times: seq<int>, k: nat, run: seq<S.Timed>)
    requires |times| == |es| + 1 && k <= |es|
    decreases |run|, k
  {
    if k == 0 then run == [S.Timed(LineBuffers.Accept, times[0])]
    else
      || (Heard(es, k - 1) == [] && Watch(es, times, k - 1, run))
      || (run != [] &&
          var last, before := run[|run| - 1], run[..|run| - 1];
          || (last.ev == LineBuffers.Tick && times[k - 1] <= last.at <= times[k] && Watch(es, times, k, before))
          || (Heard(es, k - 1) == [last.ev] && last.at == times[k - 1] && Watch(es, times, k - 1, before)))
  }

  /** At every point of every run, at any pace, the lease is alive. */
  ghost predicate Survives(es: seq<OutEvent>, interval: nat) {
    forall times: seq<int>, k: nat, run: seq<S.Timed> ::
      k <= |es| && Clocked(es, times, interval) && Watch(es, times, k, run) ==> S.After(S.FRESH, run).phase == S.Active
  }

  /** In every run the supervisor's clock stands at the last frame that spoke. */
  lemma {:induction false} ClockStandsAt(es: seq<OutEvent>, times: seq<int>, i: nat, k: nat, run: seq<S.Timed>)
    requires |times| == |es| + 1 && QuietFrom(es, i, k) && Watch(es, times, k, run)
    ensures S.After(S.FRESH, run).phase == S.Active ==> S.After(S.FRESH, run).lastBeat == times[i]
    decreases |run|, k
  {
    hide Speaks, Heard, S.After, S.IsSign;
    HeardIffSpeaks(es, k - 1);
    if Heard(es, k - 1) == [] && Watch(es, times, k - 1, run) {
      ClockStandsAt(es, times, i, k - 1, run);
    } else {
      var last, before := run[|run| - 1], run[..|run| - 1];
      S.AfterSnoc(S.FRESH, run);
      if last.ev == LineBuffers.Tick && Watch(es, times, k, before) {
        ClockStandsAt(es, times, i, k, before);
      } else {
        Refreshes(S.After(S.FRESH, before), last.ev, last.at);
      }
    }
  }

  /** A sign of life other than a new connection keeps the phase and sets the clock of a live lease. */
  lemma Refreshes(s: S.Sup, ev: LineBuffers.Event, at: int)
    requires S.IsSign(ev) && ev != LineBuffers.Accept
    ensures S.Stepped(s, ev, at).phase == s.phase
    ensures s.phase == S.Active ==> S.Stepped(s, ev, at).lastBeat == at
  {
  }

  /** A tick of a live lease ends it if and only if the last frame to speak is more than 30000 ms old. */
  lemma TickEndsIff(es: seq<OutEvent>, times: seq<int>, i: nat, k: nat, run: seq<S.Timed>, now: int)
    requires |times| == |es| + 1 && QuietFrom(es, i, k) && Watch(es, times, k, run)
    requires S.After(S.FRESH, run).phase == S.Active
    ensures S.Ordered(S.After(S.FRESH, run), LineBuffers.Tick, now) == S.StopOrder <==> now - times[i] > S.TIMEOUT_MS
  {
    hide Speaks, Watch;
    ClockStandsAt(es, times, i, k, run);
  }

  lemma {:induction false} StaysAlive(es: seq<OutEvent>, times: seq<int>, interval: nat, k: nat, run: seq<S.Timed>)
    requires Clocked(es, times, interval) && QuietFits(es, interval, S.TIMEOUT_MS)
    requires es != [] && Speaks(es, 0) && k <= |es| && Watch(es, times, k, run)
    ensures S.After(S.FRESH, run).phase == S.Active
    decreases |run|, k
  {
    hide Speaks, Heard, S.After, S.IsSign, QuietFits;
    if k == 0 {
      S.AfterSnoc(S.FRESH, run);
    } else if Heard(es, k - 1) == [] && Watch(es, times, k - 1, run) {
      StaysAlive(es, times, interval, k - 1, run);
    } else {
      var last, before := run[|run| - 1], run[..|run| - 1];
      S.AfterSnoc(S.FRESH, run);
      if last.ev == LineBuffers.Tick && Watch(es, times, k, before) {
        StaysAlive(es, times, interval, k, before);
        var i := LastSpeaker(es, 0, k);
        ClockStandsAt(es, times, i, k, before);
        NeverSilentIff(es, interval, S.TIMEOUT_MS);
        assert times[k] - times[i] <= S.TIMEOUT_MS;
      } else {
        StaysAlive(es, times, interval, k - 1, before);
        HeardIffSpeaks(es, k - 1);
        Refreshes(S.After(S.FRESH, before), last.ev, last.at);
      }
    }
  }

  /** The run up to the k-th frame in which no tick comes. */
  function Untroubled(es: seq<OutEvent>, times: seq<int>, k: nat): seq<S.Timed>
    requires |times| == |es| + 1 && k <= |es|
  {
    if k == 0 then [S.Timed(LineBuffers.Accept, times[0])]
    else
      var before, heard := Untroubled(es, times, k - 1), Heard(es, k - 1);
      if heard == [] then before else before + [S.Timed(heard[0], times[k - 1])]
  }

  lemma Connects(s: S.Sup, at: int)
    ensures S.Stepped(s, LineBuffers.Accept, at).phase == S.Active
  {
  }

  lemma {:induction false} UntroubledLives(es: seq<OutEvent>, times: seq<int>, k: nat)
    requires |times| == |es| + 1 && k <= |es|
    ensures Watch(es, times, k, Untroubled(es, times, k))
    ensures S.After(S.FRESH, Untroubled(es, times, k)).phase == S.Active
  {
    hide Speaks, Heard, S.After, S.IsSign, S.Stepped;
    var run := Untroubled(es, times, k);
    if k == 0 {
      S.AfterSnoc(S.FRESH, run);
      Connects(S.After(S.FRESH, run[..0]), times[0]);
    } else {
      UntroubledLives(es, times, k - 1);
      HeardIffSpeaks(es, k - 1);
      if Heard(es, k - 1) != [] {
        var before := Untroubled(es, times, k - 1);
        assert run[..|run| - 1] == before;
        S.AfterSnoc(S.FRESH, run);
        Refreshes(S.After(S.FRESH, before), run[|run| - 1].ev, run[|run| - 1].at);
      }
    }
  }

  lemma OneMoreTick(es: seq<OutEvent>, times: seq<int>, k: nat, before: seq<S.Timed>, at: int)
    requires |times| == |es| + 1 && 0 < k <= |es| && times[k - 1] <= at <= times[k] && Watch(es, times, k, before)
    ensures var run := before + [S.Timed(LineBuffers.Tick, at)];
            && Watch(es, times, k, run)
            && S.After(S.FRESH, run) == S.Stepped(S.After(S.FRESH, before), LineBuffers.Tick, at)
  {
    hide Heard, S.After, S.Stepped;
    var run := before + [S.Timed(LineBuffers.Tick, at)];
    assert run[..|run| - 1] == before;
    S.AfterSnoc(S.FRESH, run);
  }

  /** With the frames an interval apart, the tick that comes just before frame k ends the lease. */
  lemma DiesIn(es: seq<OutEvent>, interval: nat, i: nat, k: nat)
    requires QuietFrom(es, i, k) && (k - i) * interval > S.TIMEOUT_MS
    ensures !Survives(es, interval)
  {
    hide Speaks, S.After, Watch, Untroubled, Spaced, Paced;
    var times := Spaced(|es| + 1, interval);
    SpacedIsPaced(|es| + 1, interval);
    SpacedApart(|es| + 1, interval, i, k);
    PacedApart(times, interval, k - 1, k);
    UntroubledLives(es, times, k);
    var before := Untroubled(es, times, k);
    ClockStandsAt(es, times, i, k, before);
    OneMoreTick(es, times, k, before, times[k]);
    assert Clocked(es, times, interval);
  }

  /**
   For every sequence of frames after HELLO: the lease outlives every pace of the writer and every choice of
   ticks if and only if no stretch of silent frames is more than 30000 ms of intervals long.
   */
  lemma SurvivesIff(es: seq<OutEvent>, interval: nat)
    requires es != [] && es[0] == HELLO
    ensures Survives(es, interval) <==> QuietFits(es, interval, S.TIMEOUT_MS)
    ensures Survives(es, interval) <==> NeverSilent(es, interval, S.TIMEOUT_MS)
  {
    assert Speaks(es, 0);
    hide Speaks, QuietFrom, S.After, Watch;
    NeverSilentIff(es, interval, S.TIMEOUT_MS);
    if QuietFits(es, interval, S.TIMEOUT_MS) {
      forall times: seq<int>, k: nat, run: seq<S.Timed>
        | k <= |es| && Clocked(es, times, interval) && Watch(es, times, k, run)
        ensures S.After(S.FRESH, run).phase == S.Active
      {
        StaysAlive(es, times, interval, k, run);
      }
    } else {
      var i: nat, k: nat :| QuietFrom(es, i, k) && (k - i) * interval > S.TIMEOUT_MS;
      DiesIn(es, interval, i, k);
    }
  }

  /** So it is for the frames handed over in every run of a lease. */
  lemma LeaseSurvivesIff(actions: seq<Action>, interval: nat)
    requires Run(BOOT, actions).handed != []
    ensures var es := C.Events(Run(BOOT, actions).handed);
            Survives(es, interval) <==> NeverSilent(es, interval, S.TIMEOUT_MS)
  {
    hide Run, Survives, NeverSilent;
    C.StartsClean();
    RunKeepsInv(BOOT, actions);
    SurvivesIff(C.Events(Run(BOOT, actions).handed), interval);
  }

  // ----- a held key outlasts the lease --------------------------------------------------------

  const PRESS := OutEvent(Key, 61448, true)

  /** HELLO, a press of the next key, and n repeats of it while it is held down. */
  function Held(n: nat): seq<OutEvent> {
    [HELLO, PRESS] + seq(n, _ => PRESS)
  }

  lemma HeldIsSilent(n: nat, i: nat)
    requires i < n + 2
    ensures Held(n)[i] == if i == 0 then HELLO else PRESS
    ensures Speaks(Held(n), i) <==> i < 2
  {
    if i >= 2 { HeldGate(n, i); } else if i == 1 { assert GateAt(Held(n), 1) == Gate(GateAt(Held(n), 0), HELLO); }
  }

  lemma {:induction false} HeldGate(n: nat, i: nat)
    requires 2 <= i <= n + 2
    ensures GateAt(Held(n), i)
  {
    assert Held(n)[i - 1] == PRESS && Held(n)[0] == HELLO;
    if i > 2 { HeldGate(n, i - 1); }
  }

  /** A key held down with n repeats can end the lease exactly if the intervals up to the next frame exceed 30000 ms. */
  lemma HeldKeyEndsTheLease(n: nat, interval: nat)
    ensures !Survives(Held(n), interval) <==> (n + 1) * interval > S.TIMEOUT_MS
  {
    hide Speaks, Survives;
    var es := Held(n);
    forall i: nat | i < n + 2 ensures Speaks(es, i) <==> i < 2 { HeldIsSilent(n, i); }
    SurvivesIff(es, interval);
    assert QuietFrom(es, 1, n + 2);
    forall i: nat, k: nat | QuietFrom(es, i, k) ensures (k - i) * interval <= (n + 1) * interval {
      assert k - i <= n + 1 by { var press := Speaks(es, 1); }
      Multiples(n + 1, k - i, interval);
    }
  }
}
