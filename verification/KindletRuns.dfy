/** What every interleaving of start, stop and worker steps keeps. */
module KindletRuns {
  import opened Words
  import opened KindletModel

  // ----- one worker at a time ---------------------------------------------------------------

  ghost predicate Chained(s: Shell) {
    && s.core.worker == (if s.workers == [] then None else Some(|s.workers| - 1))
    && (forall k :: 0 <= k < |s.workers| ==>
          s.workers[k].gen <= s.core.generation && s.workers[k].prev == if k == 0 then None else Some(k - 1))
  }

  /** Whoever is past its join has only finished workers before it. */
  ghost predicate Turns(s: Shell) {
    forall j, k :: 0 <= j < k < |s.workers| && s.workers[k].stage != Join ==> s.workers[j].stage == Done
  }

  /** The launching latch is set exactly while a worker is in the launch section. */
  ghost predicate Latched(s: Shell) {
    s.core.launching <==> exists k :: 0 <= k < |s.workers| && InSection(s.workers[k].stage)
  }

  // ----- no late launch ---------------------------------------------------------------------

  /** No worker older than generation g is between taking the launch latch and dropping it. */
  ghost predicate Quiet(s: Shell, g: nat) {
    && g <= s.core.generation
    && (forall k :: 0 <= k < |s.workers| && s.workers[k].gen < g ==> !InSection(s.workers[k].stage))
  }

  predicate WaitedOut(p: Phase) {
    (p.CloseConn? && !p.gaveUp) || (p.TearDown? && !p.gaveUp)
  }

  ghost predicate QuietAfterStop(s: Shell) {
    && (forall i :: 0 <= i < |s.calls| ==> s.calls[i].gen <= s.core.generation)
    && (forall i :: 0 <= i < |s.calls| && WaitedOut(s.calls[i].phase) ==> Quiet(s, s.calls[i].gen))
    && (forall i :: 0 <= i < |s.log| && s.log[i].TornDown? && !s.log[i].gaveUp ==> Quiet(s, s.log[i].gen))
  }

  ghost predicate NoLateLaunch(log: seq<Entry>) {
    forall i, j :: 0 <= i < j < |log| && log[i].TornDown? && !log[i].gaveUp && log[j].Launched? ==>
                     log[j].gen >= log[i].gen
  }

  ghost predicate Schedule(s: Shell) {
    Chained(s) && Turns(s) && Latched(s) && QuietAfterStop(s) && NoLateLaunch(s.log)
  }

  lemma StartKeepsSchedule(s: Shell)
    requires Schedule(s)
    ensures Schedule(StartCall(s))
  {
    var s' := StartCall(s);
    assert s'.workers == s.workers + [s'.workers[|s.workers|]] && s'.workers[|s.workers|].stage == Join;
    assert forall k :: 0 <= k < |s.workers| ==> s'.workers[k] == s.workers[k];
    assert forall g :: Quiet(s, g) ==> Quiet(s', g);
  }

  lemma StopKeepsSchedule(s: Shell)
    requires Schedule(s)
    ensures Schedule(StopCall(s))
  {
  }

  /** The wait of stop() ends early only with the latch clear, so nobody is in the section. */
  lemma CallKeepsSchedule(s: Shell, k: nat, gaveUp: bool)
    requires Schedule(s) && k < |s.calls|
    ensures Schedule(Advance(s, k, gaveUp))
  {
    var s' := Advance(s, k, gaveUp);
    assert s'.workers == s.workers && s'.core == s.core;
    assert forall g :: Quiet(s, g) ==> Quiet(s', g);
    if s.calls[k].phase.Await? && !s.core.launching {
      assert Quiet(s', s.calls[k].gen);
    }
  }

  /** A worker that can move is the only one that is neither waiting to join nor finished. */
  lemma OnlyOneRuns(s: Shell, k: nat)
    requires Chained(s) && Turns(s) && k < |s.workers|
    requires s.workers[k].stage != Done && (s.workers[k].stage == Join ==> Joined(s, k))
    ensures forall j :: 0 <= j < k ==> s.workers[j].stage == Done
    ensures forall j :: k < j < |s.workers| ==> s.workers[j].stage == Join
    ensures Latched(s) ==> (s.core.launching <==> InSection(s.workers[k].stage))
  {
    if s.workers[k].stage == Join && k > 0 {
      assert s.workers[k - 1].stage == Done;
    }
  }

  /** One worker step: it may enter the section only while current, and launch only inside it. */
  lemma MoveKeepsSchedule(s: Shell, s': Shell, k: nat, st: Stage)
    requires Schedule(s) && k < |s.workers| && st != Join
    requires s.workers[k].stage != Done && (s.workers[k].stage == Join ==> Joined(s, k))
    requires s'.workers == Move(s, k, st).workers && s'.calls == s.calls
    requires s'.core.generation == s.core.generation && s'.core.worker == s.core.worker
    requires s'.core.launching <==> InSection(st)
    requires InSection(st) ==> InSection(s.workers[k].stage) || s.workers[k].gen == s.core.generation
    requires s'.log == s.log || (s'.log == s.log + [Launched(s.workers[k].gen)] && InSection(s.workers[k].stage))
    ensures Schedule(s')
  {
    OnlyOneRuns(s, k);
    assert s'.workers[k].stage == st;
    assert forall g :: Quiet(s, g) ==> Quiet(s', g);
  }

  /** What a worker step does to the schedule, whichever branch it takes. */
  lemma WorkerShape(s: Shell, k: nat, ok: bool, throws: bool)
    requires k < |s.workers| && s.workers[k].stage != Done && (s.workers[k].stage == Join ==> Joined(s, k))
    requires s.core.launching <==> InSection(s.workers[k].stage)
    ensures var s' := WorkerNext(s, k, ok, throws);
            && |s'.workers| == |s.workers|
            && s'.workers[k].stage != Join
            && s'.workers == Move(s, k, s'.workers[k].stage).workers
            && s'.calls == s.calls
            && s'.core.generation == s.core.generation && s'.core.worker == s.core.worker
            && (s'.core.launching <==> InSection(s'.workers[k].stage))
            && (InSection(s'.workers[k].stage) ==> InSection(s.workers[k].stage) || Current(s.core, s.workers[k].gen))
            && (s'.core.conn == s.core.conn || s.workers[k].stage.Publish?)
            && (s'.log == s.log || (s'.log == s.log + [Launched(s.workers[k].gen)] && InSection(s.workers[k].stage)))
  {
  }

  predicate Blocked(s: Shell, k: nat)
    requires k < |s.workers|
  {
    s.workers[k].stage == Done || (s.workers[k].stage == Join && !Joined(s, k))
  }

  lemma BlockedStays(s: Shell, k: nat, ok: bool, throws: bool)
    requires k < |s.workers| && Blocked(s, k)
    ensures WorkerNext(s, k, ok, throws) == s
  {
  }

  lemma WorkerKeepsSchedule(s: Shell, k: nat, ok: bool, throws: bool)
    requires Schedule(s) && k < |s.workers|
    ensures Schedule(WorkerNext(s, k, ok, throws))
  {
    hide LaunchStep, PlainStep;
    if Blocked(s, k) {
      BlockedStays(s, k, ok, throws);
    } else {
      OnlyOneRuns(s, k);
      WorkerShape(s, k, ok, throws);
      var s' := WorkerNext(s, k, ok, throws);
      MoveKeepsSchedule(s, s', k, s'.workers[k].stage);
    }
  }

  // ----- who holds each lease ---------------------------------------------------------------

  function InHand(st: Stage): Option<nat> {
    if st.Publish? || st.Abandon? then Some(st.lease) else None
  }

  function Keeps(p: Phase): Option<nat> {
    if p.CloseOld? || p.Await? || p.CloseConn? then p.conn else None
  }

  ghost predicate Agrees(s: Shell, id: nat, h: Holder) {
    match h
    case Field => s.core.conn == Some(id)
    case InWorker(k) => k < |s.workers| && InHand(s.workers[k].stage) == Some(id)
    case InCall(k) => k < |s.calls| && Keeps(s.calls[k].phase) == Some(id)
    case Closed => true
  }

  ghost predicate Recorded(s: Shell, lease: Option<nat>, h: Holder) {
    lease.Some? ==> lease.value < |s.leases| && s.leases[lease.value].holder == h
  }

  ghost predicate Custody(s: Shell) {
    && (forall id :: 0 <= id < |s.leases| ==> Agrees(s, id, s.leases[id].holder))
    && Recorded(s, s.core.conn, Field)
    && (s.core.conn.Some? ==> !s.core.stopped && s.leases[s.core.conn.value].gen == s.core.generation)
    && (forall k :: 0 <= k < |s.workers| ==> Recorded(s, InHand(s.workers[k].stage), InWorker(k)))
    && (forall k :: 0 <= k < |s.workers| && InHand(s.workers[k].stage).Some? ==>
          s.leases[InHand(s.workers[k].stage).value].gen == s.workers[k].gen)
    && (forall k :: 0 <= k < |s.calls| ==> Recorded(s, Keeps(s.calls[k].phase), InCall(k)))
  }

  lemma StartKeepsCustody(s: Shell)
    requires Custody(s)
    ensures Custody(StartCall(s))
  {
  }

  lemma StopKeepsCustody(s: Shell)
    requires Custody(s)
    ensures Custody(StopCall(s))
  {
  }

  /** A call that moves on without letting go of its lease. */
  lemma PhaseKeepsCustody(s: Shell, s': Shell, k: nat, p: Phase)
    requires Custody(s) && k < |s.calls| && Keeps(p) == Keeps(s.calls[k].phase)
    requires s'.calls == s.calls[k := s.calls[k].(phase := p)]
    requires s'.core == s.core && s'.workers == s.workers && s'.leases == s.leases
    ensures Custody(s')
  {
  }

  /** A call that closes the lease it detached. */
  lemma CloseKeepsCustody(s: Shell, s': Shell, k: nat, p: Phase)
    requires Custody(s) && k < |s.calls| && Keeps(p) == None
    requires s'.calls == s.calls[k := s.calls[k].(phase := p)]
    requires s'.core == s.core && s'.workers == s.workers
    requires s'.leases == Give(s, Keeps(s.calls[k].phase), Closed).leases
    ensures Custody(s')
  {
  }

  lemma CallKeepsCustody(s: Shell, k: nat, gaveUp: bool)
    requires Custody(s) && k < |s.calls|
    ensures Custody(Advance(s, k, gaveUp))
  {
    hide Custody;
    var s', p := Advance(s, k, gaveUp), s.calls[k].phase;
    if p.CloseOld? || p.CloseConn? {
      CloseKeepsCustody(s, s', k, s'.calls[k].phase);
    } else if s' != s {
      PhaseKeepsCustody(s, s', k, s'.calls[k].phase);
    }
  }

  /** A step that neither takes up nor lets go of a lease. */
  lemma EmptyHandedKeepsCustody(s: Shell, s': Shell, k: nat, st: Stage)
    requires Custody(s) && k < |s.workers| && InHand(s.workers[k].stage) == None == InHand(st)
    requires s'.workers == Move(s, k, st).workers && s'.calls == s.calls && s'.leases == s.leases
    requires s'.core.(launching := s.core.launching) == s.core
    ensures Custody(s')
  {
  }

  lemma DialKeepsCustody(s: Shell, k: nat)
    requires Custody(s) && k < |s.workers| && s.workers[k].stage.Dial?
    ensures Custody(PlainStep(s, k, true))
  {
  }

  lemma PublishKeepsCustody(s: Shell, k: nat, ok: bool)
    requires Custody(s) && k < |s.workers| && s.workers[k].stage.Publish?
    requires s.core.conn.None? || !Current(s.core, s.workers[k].gen)
    ensures Custody(PlainStep(s, k, ok))
  {
  }

  lemma AbandonKeepsCustody(s: Shell, k: nat, ok: bool)
    requires Custody(s) && k < |s.workers| && s.workers[k].stage.Abandon?
    ensures Custody(PlainStep(s, k, ok))
  {
  }

  /** Generations rise from worker to worker. */
  ghost predicate Ordered(s: Shell) {
    && (forall k :: 0 <= k < |s.workers| ==> s.workers[k].gen <= s.core.generation)
    && (forall j, k :: 0 <= j < k < |s.workers| ==> s.workers[j].gen < s.workers[k].gen)
  }

  /** The worker of a published lease has finished, so no lease is ever published over another. */
  ghost predicate Spent(s: Shell) {
    && Ordered(s)
    && (s.core.conn.Some? ==>
          forall k :: 0 <= k < |s.workers| && s.workers[k].gen == s.core.generation ==> s.workers[k].stage == Done)
  }

  lemma PublishKeepsSpent(s: Shell, k: nat, ok: bool)
    requires Spent(s) && k < |s.workers| && s.workers[k].stage.Publish?
    ensures Spent(PlainStep(s, k, ok))
  {
    assert forall j :: 0 <= j < |s.workers| && j != k ==> s.workers[j].gen != s.workers[k].gen;
  }

  lemma WorkerKeepsSpent(s: Shell, k: nat, ok: bool, throws: bool)
    requires Schedule(s) && Spent(s) && k < |s.workers|
    ensures Spent(WorkerNext(s, k, ok, throws))
  {
    hide LaunchStep, PlainStep;
    if Blocked(s, k) {
      BlockedStays(s, k, ok, throws);
    } else if s.workers[k].stage.Publish? {
      PublishKeepsSpent(s, k, ok);
    } else {
      OnlyOneRuns(s, k);
      WorkerShape(s, k, ok, throws);
    }
  }

  lemma EmptyHanded(s: Shell, k: nat, ok: bool, throws: bool)
    requires k < |s.workers| && !Blocked(s, k) && InHand(s.workers[k].stage).None?
    requires s.workers[k].stage.Dial? ==> throws || !ok
    ensures var s' := WorkerNext(s, k, ok, throws);
            && |s'.workers| == |s.workers| && InHand(s'.workers[k].stage) == None
            && s'.workers == Move(s, k, s'.workers[k].stage).workers && s'.calls == s.calls && s'.leases == s.leases
            && s'.core.(launching := s.core.launching) == s.core
  {
  }

  lemma WorkerKeepsCustody(s: Shell, k: nat, ok: bool, throws: bool)
    requires Custody(s) && Spent(s) && k < |s.workers|
    ensures Custody(WorkerNext(s, k, ok, throws))
  {
    hide LaunchStep, PlainStep, Custody;
    var st := s.workers[k].stage;
    if Blocked(s, k) {
      BlockedStays(s, k, ok, throws);
    } else if st.Publish? {
      PublishKeepsCustody(s, k, ok);
    } else if st.Abandon? {
      AbandonKeepsCustody(s, k, ok);
    } else if st.Dial? && ok && !throws {
      DialKeepsCustody(s, k);
    } else {
      EmptyHanded(s, k, ok, throws);
      var s' := WorkerNext(s, k, ok, throws);
      EmptyHandedKeepsCustody(s, s', k, s'.workers[k].stage);
    }
  }

  // ----- at most one launch overtaken by a call ---------------------------------------------

  /** Entry j is a launch of a generation that a call, entry i, had already ended. */
  predicate Overtaken(log: seq<Entry>, i: nat, j: nat) {
    i < j < |log| && log[i].Called? && log[j].Launched? && log[j].gen < log[i].gen
  }

  ghost predicate NoneAtLaunch(ws: seq<Worker>, g: nat) {
    forall k :: 0 <= k < |ws| && ws[k].gen < g ==> !ws[k].stage.Launch?
  }

  ghost predicate CallsKnown(s: Shell) {
    forall i :: 0 <= i < |s.log| && s.log[i].Called? ==> s.log[i].gen <= s.core.generation
  }

  /** Such a launch had passed the gate before the call; no older worker passes it again, so there is no second one. */
  ghost predicate OneOvertaken(s: Shell) {
    && CallsKnown(s)
    && (forall i: nat, j: nat, k: nat :: Overtaken(s.log, i, j) && Overtaken(s.log, i, k) ==> j == k)
    && (forall i: nat, j: nat :: Overtaken(s.log, i, j) ==> NoneAtLaunch(s.workers, s.log[i].gen))
  }

  lemma CallsKeepOneOvertaken(s: Shell, s': Shell, e: Entry)
    requires OneOvertaken(s) && !e.Launched?
    requires s'.log == s.log + [e] && s'.core.generation >= s.core.generation
    requires e.Called? ==> e.gen == s'.core.generation
    requires |s'.workers| >= |s.workers| && s'.workers[..|s.workers|] == s.workers
    requires forall k :: |s.workers| <= k < |s'.workers| ==> s'.workers[k].stage == Join
    ensures OneOvertaken(s')
  {
    assert forall i: nat, j: nat :: Overtaken(s'.log, i, j) ==> Overtaken(s.log, i, j) && s'.log[i] == s.log[i];
    assert forall k :: 0 <= k < |s.workers| ==> s'.workers[k] == s.workers[k];
    assert forall g :: NoneAtLaunch(s.workers, g) ==> NoneAtLaunch(s'.workers, g);
  }

  lemma CallStepKeepsOneOvertaken(s: Shell, k: nat, gaveUp: bool)
    requires OneOvertaken(s) && k < |s.calls|
    ensures OneOvertaken(Advance(s, k, gaveUp))
  {
    var s', p := Advance(s, k, gaveUp), s.calls[k].phase;
    assert s'.workers == s.workers && s'.core == s.core;
    if p.TearDown? { CallsKeepOneOvertaken(s, s', TornDown(s.calls[k].gen, p.gaveUp)); }
  }

  lemma LaunchKeepsOneOvertaken(s: Shell, s': Shell, k: nat)
    requires OneOvertaken(s) && Chained(s) && Turns(s) && k < |s.workers| && s.workers[k].stage.Launch?
    requires s'.log == s.log + [Launched(s.workers[k].gen)] && s'.core == s.core
    requires |s'.workers| == |s.workers| && s'.workers == Move(s, k, s'.workers[k].stage).workers
    requires !s'.workers[k].stage.Launch?
    ensures OneOvertaken(s')
  {
    OnlyOneRuns(s, k);
    var n := |s.log|;
    assert forall i: nat, j: nat ::
        Overtaken(s'.log, i, j) && j < n ==> Overtaken(s.log, i, j) && s'.log[i] == s.log[i];
    assert forall i: nat, j: nat ::
        Overtaken(s'.log, i, n) && Overtaken(s.log, i, j) ==> NoneAtLaunch(s.workers, s.log[i].gen);
    assert forall g :: NoneAtLaunch(s'.workers, g);
  }

  lemma MoveKeepsOneOvertaken(s: Shell, s': Shell, k: nat)
    requires OneOvertaken(s) && k < |s.workers| && s'.log == s.log && s'.core.generation == s.core.generation
    requires |s'.workers| == |s.workers| && s'.workers == Move(s, k, s'.workers[k].stage).workers
    requires s'.workers[k].stage.Launch? ==> s.workers[k].gen == s.core.generation
    ensures OneOvertaken(s')
  {
    assert forall i: nat, j: nat :: Overtaken(s.log, i, j) ==> s.log[i].gen <= s.core.generation;
    assert forall g: nat :: g <= s.core.generation && NoneAtLaunch(s.workers, g) ==> NoneAtLaunch(s'.workers, g);
  }

  lemma LaunchShape(s: Shell, k: nat, ok: bool, throws: bool)
    requires k < |s.workers|
    ensures var s' := WorkerNext(s, k, ok, throws);
            && |s'.workers| == |s.workers|
            && (s'.workers[k].stage.Launch? ==> s.workers[k].gen == s.core.generation)
            && (s'.log != s.log ==> s'.log == s.log + [Launched(s.workers[k].gen)] && s.workers[k].stage.Launch?
                                      && !s'.workers[k].stage.Launch? && s'.core == s.core)
  {
  }

  lemma WorkerKeepsOneOvertaken(s: Shell, k: nat, ok: bool, throws: bool)
    requires OneOvertaken(s) && Schedule(s) && k < |s.workers|
    ensures OneOvertaken(WorkerNext(s, k, ok, throws))
  {
    hide LaunchStep, PlainStep, OneOvertaken;
    if Blocked(s, k) {
      BlockedStays(s, k, ok, throws);
    } else {
      OnlyOneRuns(s, k);
      WorkerShape(s, k, ok, throws);
      LaunchShape(s, k, ok, throws);
      var s' := WorkerNext(s, k, ok, throws);
      if s'.log != s.log { LaunchKeepsOneOvertaken(s, s', k); } else { MoveKeepsOneOvertaken(s, s', k); }
    }
  }

  // ----- every run --------------------------------------------------------------------------

  ghost predicate Inv(s: Shell) {
    Schedule(s) && Custody(s) && Spent(s) && OneOvertaken(s)
  }

  lemma StepKeepsInv(s: Shell, a: Action)
    requires Inv(s)
    ensures Inv(Next(s, a))
  {
    hide Schedule, Custody, WorkerNext, OneOvertaken;
    match a
    case Start =>
      StartKeepsSchedule(s);
      StartKeepsCustody(s);
      CallsKeepOneOvertaken(s, StartCall(s), Called(s.core.generation + 1));
    case Stop =>
      StopKeepsSchedule(s);
      StopKeepsCustody(s);
      CallsKeepOneOvertaken(s, StopCall(s), Called(s.core.generation + 1));
    case CallStep(k, g) =>
      if k < |s.calls| { CallKeepsSchedule(s, k, g); CallKeepsCustody(s, k, g); CallStepKeepsOneOvertaken(s, k, g); }
    case WorkerStep(k, ok, throws) =>
      if k < |s.workers| {
        WorkerKeepsSchedule(s, k, ok, throws);
        WorkerKeepsCustody(s, k, ok, throws);
        WorkerKeepsSpent(s, k, ok, throws);
        WorkerKeepsOneOvertaken(s, k, ok, throws);
      }
  }

  lemma {:induction false} RunKeepsInv(s: Shell, actions: seq<Action>)
    requires Inv(s)
    ensures Inv(Run(s, actions))
    decreases |actions|
  {
    if actions != [] {
      StepKeepsInv(s, actions[0]);
      RunKeepsInv(Next(s, actions[0]), actions[1..]);
    }
  }

  /** A published lease: the shell is not stopped and the lease belongs to the current generation. */
  lemma PublishedIsCurrent(actions: seq<Action>)
    ensures var s := Run(BOOT, actions);
            s.core.conn.Some? ==>
              && !s.core.stopped
              && s.core.conn.value < |s.leases|
              && s.leases[s.core.conn.value].gen == s.core.generation
              && s.leases[s.core.conn.value].holder != Closed
  {
    RunKeepsInv(BOOT, actions);
  }

  /** Some thread holds the lease at a point after which its only step with it is close(), or publish(). */
  ghost predicate InSomeHand(s: Shell, id: nat) {
    || (exists k :: 0 <= k < |s.workers| && InHand(s.workers[k].stage) == Some(id))
    || (exists k :: 0 <= k < |s.calls| && Keeps(s.calls[k].phase) == Some(id))
  }

  /** Every lease ever constructed is the published one, closed, or in the hands of a thread about to deal with it. */
  lemma NoLeaseIsLost(actions: seq<Action>, id: nat)
    requires id < |Run(BOOT, actions).leases|
    ensures var s := Run(BOOT, actions);
            s.core.conn == Some(id) || s.leases[id].holder == Closed || InSomeHand(s, id)
  {
    RunKeepsInv(BOOT, actions);
    var s := Run(BOOT, actions);
    assert Agrees(s, id, s.leases[id].holder);
  }

  /** At most one worker is past its join and not finished. */
  lemma OneWorkerRuns(actions: seq<Action>, j: nat, k: nat)
    requires j < |Run(BOOT, actions).workers| && k < |Run(BOOT, actions).workers| && j != k
    ensures var ws := Run(BOOT, actions).workers;
            ws[j].stage == Join || ws[j].stage == Done || ws[k].stage == Join || ws[k].stage == Done
  {
    RunKeepsInv(BOOT, actions);
  }

  /** After a stop() whose wait did not give up has reached teardown, no older generation launches. */
  lemma NoLaunchAfterTeardown(actions: seq<Action>, i: nat, j: nat)
    requires i < j < |Run(BOOT, actions).log|
    requires var log := Run(BOOT, actions).log; log[i].TornDown? && !log[i].gaveUp && log[j].Launched?
    ensures Run(BOOT, actions).log[j].gen >= Run(BOOT, actions).log[i].gen
  {
    RunKeepsInv(BOOT, actions);
  }

  /** Whatever the deadline does: after a call has ended a generation, at most one older launch still begins. */
  lemma OneLaunchOvertaken(actions: seq<Action>, i: nat, j: nat, k: nat)
    requires var log := Run(BOOT, actions).log; Overtaken(log, i, j) && Overtaken(log, i, k)
    ensures j == k
  {
    RunKeepsInv(BOOT, actions);
  }

  // ----- when an older launch can still begin --------------------------------------------------

  /** Some launch of a generation below g begins in a continuation. */
  ghost predicate OlderLaunch(s: Shell, more: seq<Action>, g: nat) {
    var log := Run(s, more).log;
    exists j :: |s.log| <= j < |log| && log[j].Launched? && log[j].gen < g
  }

  /** A step logs at most one entry, and a launch only by a worker that stands at it. */
  lemma LogGrows(s: Shell, a: Action)
    ensures var s' := Next(s, a);
            && s'.core.generation >= s.core.generation
            && (s'.log == s.log || (|s'.log| == |s.log| + 1 && s'.log[..|s.log|] == s.log))
            && (s'.log != s.log && s'.log[|s.log|].Launched? ==>
                  a.WorkerStep? && a.worker < |s.workers| && s.workers[a.worker].stage.Launch?
                  && s'.log[|s.log|].gen == s.workers[a.worker].gen)
  {
    hide WorkerNext;
    if a.WorkerStep? && a.worker < |s.workers| {
      LaunchShape(s, a.worker, a.ok, a.throws);
      WorkerKeepsGeneration(s, a.worker, a.ok, a.throws);
    }
  }

  lemma WorkerKeepsGeneration(s: Shell, k: nat, ok: bool, throws: bool)
    requires k < |s.workers|
    ensures WorkerNext(s, k, ok, throws).core.generation == s.core.generation
  {
  }

  /** No older worker comes to stand at a launch, because the gate before it is closed to it. */
  lemma StaysNoneAtLaunch(s: Shell, a: Action, g: nat)
    requires NoneAtLaunch(s.workers, g) && g <= s.core.generation
    ensures NoneAtLaunch(Next(s, a).workers, g)
  {
    hide WorkerNext;
    if a.WorkerStep? && a.worker < |s.workers| {
      LaunchShape(s, a.worker, a.ok, a.throws);
      MovesOnlyItself(s, a.worker, a.ok, a.throws);
      KeepsItsGeneration(s, a.worker, a.ok, a.throws);
    }
  }

  lemma KeepsItsGeneration(s: Shell, k: nat, ok: bool, throws: bool)
    requires k < |s.workers|
    ensures |WorkerNext(s, k, ok, throws).workers| == |s.workers|
    ensures WorkerNext(s, k, ok, throws).workers[k].gen == s.workers[k].gen
  {
  }

  lemma {:induction false} NoOlderLaunch(s: Shell, more: seq<Action>, g: nat)
    requires NoneAtLaunch(s.workers, g) && g <= s.core.generation
    ensures |s.log| <= |Run(s, more).log| && Run(s, more).log[..|s.log|] == s.log && !OlderLaunch(s, more, g)
    decreases |more|
  {
    if more != [] {
      hide Next;
      var s' := Next(s, more[0]);
      LogGrows(s, more[0]);
      StaysNoneAtLaunch(s, more[0], g);
      NoOlderLaunch(s', more[1..], g);
      var log := Run(s, more).log;
      assert log[..|s.log|] == log[..|s'.log|][..|s.log|];
      forall j | |s.log| <= j < |log| && log[j].Launched? ensures log[j].gen >= g {
        if j < |s'.log| { assert log[j] == log[..|s'.log|][j]; }
      }
    }
  }

  /** From any state, an older generation can still launch exactly when one of its workers stands at the launch. */
  lemma OlderLaunchIff(s: Shell, g: nat)
    requires g <= s.core.generation
    ensures (exists more :: OlderLaunch(s, more, g)) <==> !NoneAtLaunch(s.workers, g)
  {
    if NoneAtLaunch(s.workers, g) {
      forall more ensures !OlderLaunch(s, more, g) { NoOlderLaunch(s, more, g); }
    } else {
      var k :| 0 <= k < |s.workers| && s.workers[k].gen < g && s.workers[k].stage.Launch?;
      var more := [WorkerStep(k, true, false)];
      assert more[1..] == [];
      assert Run(s, more).log == s.log + [Launched(s.workers[k].gen)];
      assert Run(s, more).log[|s.log|] == Launched(s.workers[k].gen);
      assert OlderLaunch(s, more, g);
    }
  }

  /**
   In every run, at the moment a stop() reaches teardown: a launch of an older generation can still begin
   exactly when an older worker has passed its gate and not yet launched; and only if stop() gave up.
   */
  lemma LaunchAfterTeardownIff(actions: seq<Action>, k: nat)
    requires k < |Run(BOOT, actions).calls| && Run(BOOT, actions).calls[k].phase.TearDown?
    ensures var s := Run(BOOT, actions);
            var g, gaveUp, s' := s.calls[k].gen, s.calls[k].phase.gaveUp, Next(s, CallStep(k, false));
            && s'.log == s.log + [TornDown(g, gaveUp)]
            && ((exists more :: OlderLaunch(s', more, g)) <==> !NoneAtLaunch(s.workers, g))
            && (!gaveUp ==> NoneAtLaunch(s.workers, g))
  {
    RunKeepsInv(BOOT, actions);
    var s := Run(BOOT, actions);
    hide Run;
    assert WaitedOut(s.calls[k].phase) ==> Quiet(s, s.calls[k].gen);
    OlderLaunchIff(Next(s, CallStep(k, false)), s.calls[k].gen);
  }

  // ----- every worker finishes ----------------------------------------------------------------

  /** The loop counters are within their bounds. */
  predicate Bounded(st: Stage) {
    match st
    case Gate(a) => a < LAUNCH_ATTEMPTS
    case Launch(a) => a < LAUNCH_ATTEMPTS
    case Observe(a, i) => a < LAUNCH_ATTEMPTS && i <= READY_POLLS
    case Probe(a) => a < LAUNCH_ATTEMPTS
    case CheckSocket(i) => i < CONNECT_TRIES
    case Dial(i) => i < CONNECT_TRIES
    case Connect(i) => i <= CONNECT_TRIES
    case _ => true
  }

  /** How many of its own steps a worker has left at most. */
  function StepsLeft(st: Stage): nat
    requires Bounded(st)
  {
    match st
    case Done => 0
    case Abandon(_) => 1
    case Publish(_) => 2
    case Connect(i) => 3 + 3 * (CONNECT_TRIES - i)
    case CheckSocket(i) => 2 + 3 * (CONNECT_TRIES - i)
    case Dial(i) => 1 + 3 * (CONNECT_TRIES - i)
    case Leave(_) => 49
    case LastLook => 50
    case Probe(a) => 51 + 9 * (2 - a)
    case Observe(a, i) => 52 + 9 * (2 - a) + (READY_POLLS - i)
    case Launch(a) => 58 + 9 * (2 - a)
    case Gate(a) => 59 + 9 * (2 - a)
    case Enter => 78
    case CheckInstalled => 79
    case Install => 80
    case CheckPermitted => 81
    case Permissions => 82
    case CheckJoined => 83
    case Join => 84
  }

  lemma LaunchCounts(s: Shell, k: nat, ok: bool, throws: bool)
    requires k < |s.workers| && InSection(s.workers[k].stage) && Bounded(s.workers[k].stage)
    ensures var st := LaunchStep(s, k, ok, throws).workers[k].stage;
            Bounded(st) && st != Join && StepsLeft(st) < StepsLeft(s.workers[k].stage)
  {
  }

  lemma PlainCounts(s: Shell, k: nat, ok: bool)
    requires k < |s.workers| && !InSection(s.workers[k].stage) && Bounded(s.workers[k].stage)
    requires s.workers[k].stage != Done && (s.workers[k].stage == Join ==> Joined(s, k))
    ensures var st := PlainStep(s, k, ok).workers[k].stage;
            Bounded(st) && st != Join && StepsLeft(st) < StepsLeft(s.workers[k].stage)
  {
  }

  /** Each step of a worker that can move brings it closer to its end. */
  lemma StepCounts(s: Shell, k: nat, ok: bool, throws: bool)
    requires k < |s.workers| && Bounded(s.workers[k].stage) && !Blocked(s, k)
    ensures var st := WorkerNext(s, k, ok, throws).workers[k].stage;
            Bounded(st) && st != Join && StepsLeft(st) < StepsLeft(s.workers[k].stage)
  {
    hide LaunchStep, PlainStep;
    if InSection(s.workers[k].stage) { LaunchCounts(s, k, ok, throws); } else { PlainCounts(s, k, ok); }
  }

  lemma MovesOnlyItself(s: Shell, j: nat, ok: bool, throws: bool)
    requires j < |s.workers|
    ensures var s' := WorkerNext(s, j, ok, throws);
            |s'.workers| == |s.workers| && s'.workers == s.workers[j := s'.workers[j]]
  {
  }

  /** Nobody else moves a worker on. */
  lemma OthersLeaveIt(s: Shell, a: Action, k: nat)
    requires k < |s.workers| && !(a.WorkerStep? && a.worker == k)
    ensures k < |Next(s, a).workers| && Next(s, a).workers[k] == s.workers[k]
  {
    hide WorkerNext;
    if a.WorkerStep? && a.worker < |s.workers| { MovesOnlyItself(s, a.worker, a.ok, a.throws); }
  }

  function OwnSteps(actions: seq<Action>, k: nat): nat
    decreases |actions|
  {
    if actions == [] then 0
    else (if actions[0].WorkerStep? && actions[0].worker == k then 1 else 0) + OwnSteps(actions[1..], k)
  }

  /**
   Whatever every other thread and the system do, a worker past its join finishes within 83 steps of its
   own, so a launch section ends, stop() is not kept waiting, and the next worker's join returns.
   */
  lemma {:induction false} WorkerFinishes(s: Shell, actions: seq<Action>, k: nat)
    requires k < |s.workers| && Bounded(s.workers[k].stage) && s.workers[k].stage != Join
    ensures k < |Run(s, actions).workers| && Bounded(Run(s, actions).workers[k].stage)
    ensures Run(s, actions).workers[k].stage == Done ||
            StepsLeft(Run(s, actions).workers[k].stage) + OwnSteps(actions, k) <= StepsLeft(s.workers[k].stage)
    ensures OwnSteps(actions, k) >= 83 ==> Run(s, actions).workers[k].stage == Done
    decreases |actions|
  {
    if actions != [] {
      var a := actions[0];
      if a.WorkerStep? && a.worker == k {
        MovesOnlyItself(s, k, a.ok, a.throws);
        if s.workers[k].stage == Done {
          BlockedStays(s, k, a.ok, a.throws);
        } else {
          StepCounts(s, k, a.ok, a.throws);
        }
      } else {
        OthersLeaveIt(s, a, k);
      }
      hide WorkerNext, StepsLeft, Bounded;
      WorkerFinishes(Next(s, a), actions[1..], k);
    }
    EndIsDone(Run(s, actions).workers[k].stage);
    LeftAtMost(s.workers[k].stage);
  }

  /** The counters stay within their bounds in every run, so this holds of every worker there ever is. */
  lemma {:induction false} AlwaysBounded(s: Shell, actions: seq<Action>)
    requires forall k :: 0 <= k < |s.workers| ==> Bounded(s.workers[k].stage)
    ensures forall k :: 0 <= k < |Run(s, actions).workers| ==> Bounded(Run(s, actions).workers[k].stage)
    decreases |actions|
  {
    if actions != [] {
      var a := actions[0];
      forall k | 0 <= k < |Next(s, a).workers| ensures Bounded(Next(s, a).workers[k].stage) {
        hide WorkerNext;
        if a.WorkerStep? && a.worker == k {
          MovesOnlyItself(s, k, a.ok, a.throws);
          if Blocked(s, k) { BlockedStays(s, k, a.ok, a.throws); } else { StepCounts(s, k, a.ok, a.throws); }
        } else if k < |s.workers| {
          OthersLeaveIt(s, a, k);
        } else if a.WorkerStep? && a.worker < |s.workers| {
          MovesOnlyItself(s, a.worker, a.ok, a.throws);
        }
      }
      AlwaysBounded(Next(s, a), actions[1..]);
    }
  }

  lemma EndIsDone(st: Stage)
    requires Bounded(st)
    ensures StepsLeft(st) == 0 <==> st == Done
  {
  }

  lemma LeftAtMost(st: Stage)
    requires Bounded(st) && st != Join
    ensures StepsLeft(st) <= 83
  {
  }

  lemma {:induction false} RunConcat(s: Shell, a: seq<Action>, b: seq<Action>)
    ensures Run(s, a + b) == Run(Run(s, a), b)
    decreases |a|
  {
    if a == [] {
      assert a + b == b;
    } else {
      assert (a + b)[1..] == a[1..] + b;
      RunConcat(Next(s, a[0]), a[1..], b);
    }
  }

  lemma Then(actions: seq<Action>, a: Action) returns (longer: seq<Action>)
    ensures Run(BOOT, longer) == Next(Run(BOOT, actions), a)
  {
    longer := actions + [a];
    RunConcat(BOOT, actions, [a]);
  }

  /** The first worker, through its checks and the gate, about to launch. */
  lemma ReadyToLaunch() returns (actions: seq<Action>)
    ensures var s := Run(BOOT, actions);
            && s.core.generation == 1 && s.core.conn == None && s.core.launching
            && s.workers == [Worker(1, None, Launch(0))] && |s.calls| == 1 && s.log == [Called(1)]
  {
    hide Run;
    var go := WorkerStep(0, true, false);
    StartsAtBoot();
    actions := Then([], Start);
    actions := Then(actions, go);
    actions := Then(actions, go);
    actions := Then(actions, go);
    actions := Then(actions, go);
    assert Run(BOOT, actions).workers == [Worker(1, None, Install)];
    actions := Then(actions, go);
    actions := Then(actions, go);
    actions := Then(actions, go);
    actions := Then(actions, go);
  }

  lemma StartsAtBoot()
    ensures Run(BOOT, []) == BOOT
  {
  }

  /** The deadline is needed: a stop() that gives up can reach teardown before an older launch begins. */
  lemma GivingUpLetsALaunchThrough()
    ensures exists actions :: Run(BOOT, actions).log == [Called(1), Called(2), TornDown(2, true), Launched(1)]
  {
    hide Run;
    var actions := ReadyToLaunch();
    actions := Then(actions, Stop);
    actions := Then(actions, CallStep(1, true));
    actions := Then(actions, CallStep(1, true));
    actions := Then(actions, CallStep(1, true));
    assert Run(BOOT, actions).log == [Called(1), Called(2), TornDown(2, true)];
    actions := Then(actions, WorkerStep(0, true, false));
  }
}
