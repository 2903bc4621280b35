/**
 What becomes of a start() (KindletShell.java): when its worker publishes a lease, how long the lease stays
 published, what must have succeeded before each thing the worker does, and that nothing else holds it up.
 */
module KindletCourse {
  import opened Words
  import opened KindletModel
  import opened KindletRuns

  predicate IsCall(a: Action) { a.Start? || a.Stop? }

  ghost predicate NoCall(actions: seq<Action>) {
    forall i :: 0 <= i < |actions| ==> !IsCall(actions[i])
  }

  // ----- calls and generations ----------------------------------------------------------------

  /** The last call of a run. */
  function LastCall(actions: seq<Action>): Option<Action> {
    if actions == [] then None
    else if IsCall(actions[|actions| - 1]) then Some(actions[|actions| - 1])
    else LastCall(actions[..|actions| - 1])
  }

  lemma StepCalls(s: Shell, a: Action)
    ensures var s' := Next(s, a);
            && (IsCall(a) ==> s'.core.generation == s.core.generation + 1 && s'.core.conn.None?)
            && (a.Start? ==> !s'.core.stopped && |s'.workers| == |s.workers| + 1
                             && s'.workers[|s.workers|] == Worker(s'.core.generation, s.core.worker, Join))
            && (a.Stop? ==> s'.core.stopped)
            && (!IsCall(a) ==> s'.core.generation == s.core.generation && s'.core.stopped == s.core.stopped)
            && |s'.workers| >= |s.workers|
            && (forall k :: 0 <= k < |s.workers| ==> s'.workers[k].gen == s.workers[k].gen)
  {
    hide WorkerNext;
    if a.WorkerStep? && a.worker < |s.workers| {
      MovesOnlyItself(s, a.worker, a.ok, a.throws);
      KeepsItsGeneration(s, a.worker, a.ok, a.throws);
      WorkerKeepsGeneration(s, a.worker, a.ok, a.throws);
      WorkerKeepsStopped(s, a.worker, a.ok, a.throws);
    }
  }

  lemma WorkerKeepsStopped(s: Shell, k: nat, ok: bool, throws: bool)
    requires k < |s.workers|
    ensures WorkerNext(s, k, ok, throws).core.stopped == s.core.stopped
  {
  }

  lemma OneMore(actions: seq<Action>, a: Action)
    ensures Run(BOOT, actions + [a]) == Next(Run(BOOT, actions), a)
  {
    hide Next;
    RunConcat(BOOT, actions, [a]);
    assert [a][1..] == [];
  }

  /** The shell is stopped if and only if the last call was stop(). */
  lemma {:induction false} StoppedIff(actions: seq<Action>)
    ensures Run(BOOT, actions).core.stopped <==> LastCall(actions) == Some(Stop)
    decreases |actions|
  {
    if actions != [] {
      hide Run, Next;
      var before, a := actions[..|actions| - 1], actions[|actions| - 1];
      StoppedIff(before);
      assert actions == before + [a];
      OneMore(before, a);
      StepCalls(Run(BOOT, before), a);
    } else {
      StartsAtBoot();
    }
  }

  /** The worker of a start() is current exactly until the next call. */
  lemma {:induction false} CurrentUntilCalled(s: Shell, k: nat, after: seq<Action>)
    requires k < |s.workers| && Current(s.core, s.workers[k].gen)
    ensures k < |Run(s, after).workers| && Run(s, after).workers[k].gen == s.workers[k].gen
    ensures Current(Run(s, after).core, s.workers[k].gen) <==> NoCall(after)
    ensures Run(s, after).core.generation >= s.core.generation
    decreases |after|
  {
    if after != [] {
      hide Next;
      var s', rest := Next(s, after[0]), after[1..];
      StepCalls(s, after[0]);
      if IsCall(after[0]) {
        GenerationsGrow(s', k, rest);
      } else {
        CurrentUntilCalled(s', k, rest);
        assert NoCall(after) <==> NoCall(rest) by {
          if NoCall(rest) { assert forall i :: 1 <= i < |after| ==> after[i] == rest[i - 1]; }
        }
      }
    }
  }

  lemma {:induction false} GenerationsGrow(s: Shell, k: nat, actions: seq<Action>)
    requires k < |s.workers|
    ensures Run(s, actions).core.generation >= s.core.generation
    ensures k < |Run(s, actions).workers| && Run(s, actions).workers[k].gen == s.workers[k].gen
    decreases |actions|
  {
    if actions != [] {
      hide Next;
      StepCalls(s, actions[0]);
      GenerationsGrow(Next(s, actions[0]), k, actions[1..]);
    }
  }

  // ----- publishing ---------------------------------------------------------------------------

  /** What the next step of a worker at publish() does, and the one after it if the lease came back. */
  lemma PublishDoes(s: Shell, k: nat, id: nat, ok: bool, throws: bool)
    requires k < |s.workers| && s.workers[k].stage == Publish(id) && id < |s.leases|
    ensures var s' := WorkerNext(s, k, ok, throws);
            && |s'.workers| == |s.workers| && |s'.leases| == |s.leases|
            && if Current(s.core, s.workers[k].gen) then
                 s'.core.conn == Some(id) && s'.leases[id].holder == Field && s'.workers[k].stage == Done
               else
                 && s'.core.conn == s.core.conn && s'.workers[k].stage == Abandon(id)
                 && |WorkerNext(s', k, ok, throws).leases| == |s.leases|
                 && WorkerNext(s', k, ok, throws).core.conn == s.core.conn
                 && WorkerNext(s', k, ok, throws).leases[id].holder == Closed
  {
  }

  /**
   In every run: the worker of a start() that has dialled makes its connection the published lease if no call has
   been made since that start(); otherwise it leaves the published lease alone and closes its own.
   */
  lemma PublishesIffUncalled(before: seq<Action>, after: seq<Action>, id: nat, ok: bool, throws: bool)
    requires var k, s := |Run(BOOT, before).workers|, Run(BOOT, before + [Start] + after);
             k < |s.workers| && s.workers[k].stage == Publish(id)
    ensures var k, s := |Run(BOOT, before).workers|, Run(BOOT, before + [Start] + after);
            var s' := Next(s, WorkerStep(k, ok, throws));
            && id < |s'.leases| && k < |s'.workers|
            && if NoCall(after) then s'.core.conn == Some(id) && s'.leases[id].holder == Field
               else
                 var s'' := Next(s', WorkerStep(k, ok, throws));
                 && s'.core.conn == s.core.conn != Some(id) && s''.core.conn == s.core.conn
                 && id < |s''.leases| && s''.leases[id].holder == Closed
  {
    hide Run, WorkerNext;
    var s0 := Run(BOOT, before);
    var s1, k := Next(s0, Start), |s0.workers|;
    OneMore(before, Start);
    RunConcat(BOOT, before + [Start], after);
    StepCalls(s0, Start);
    CurrentUntilCalled(s1, k, after);
    var s := Run(BOOT, before + [Start] + after);
    StartsWell();
    RunKeepsInv(BOOT, before + [Start] + after);
    HeldByWorker(s, k, id);
    PublishDoes(s, k, id, ok, throws);
  }

  lemma StartsWell()
    ensures Inv(BOOT)
  {
  }

  lemma HeldByWorker(s: Shell, k: nat, id: nat)
    requires Inv(s) && k < |s.workers| && s.workers[k].stage == Publish(id)
    ensures id < |s.leases| && s.core.conn != Some(id)
  {
    assert Recorded(s, InHand(s.workers[k].stage), InWorker(k));
  }

  lemma ConnStays(s: Shell, a: Action)
    requires Inv(s) && s.core.conn.Some? && !IsCall(a)
    ensures Next(s, a).core.conn == s.core.conn
  {
    hide WorkerNext, Schedule, Custody, OneOvertaken;
    if a.WorkerStep? && a.worker < |s.workers| {
      var k := a.worker;
      assert Spent(s) && Custody(s);
      NotStopped(s);
      if s.workers[k].stage.Publish? {
        PublishedOver(s, k, a.ok, a.throws);
      } else {
        OthersKeepConn(s, k, a.ok, a.throws);
      }
    }
  }

  lemma NotStopped(s: Shell)
    requires Custody(s) && s.core.conn.Some?
    ensures !s.core.stopped
  {
  }

  lemma PublishedOver(s: Shell, k: nat, ok: bool, throws: bool)
    requires k < |s.workers| && s.workers[k].stage.Publish? && !Current(s.core, s.workers[k].gen)
    ensures WorkerNext(s, k, ok, throws).core == s.core
  {
  }

  lemma OthersKeepConn(s: Shell, k: nat, ok: bool, throws: bool)
    requires k < |s.workers| && !s.workers[k].stage.Publish?
    ensures WorkerNext(s, k, ok, throws).core.conn == s.core.conn
  {
  }

  lemma {:induction false} RunKeepsConn(s: Shell, more: seq<Action>)
    requires Inv(s) && s.core.conn.Some? && NoCall(more)
    ensures Run(s, more).core.conn == s.core.conn
    decreases |more|
  {
    if more != [] {
      hide Inv, Next;
      assert !IsCall(more[0]) && forall i :: 0 <= i < |more| - 1 ==> more[1..][i] == more[i + 1];
      StepKeepsInv(s, more[0]);
      ConnStays(s, more[0]);
      RunKeepsConn(Next(s, more[0]), more[1..]);
    }
  }

  /** Whatever the threads do, a published lease stays published until the next call, which takes it down. */
  lemma PublishedUntilCalled(actions: seq<Action>, more: seq<Action>, call: Action)
    requires Run(BOOT, actions).core.conn.Some? && NoCall(more) && IsCall(call)
    ensures Run(BOOT, actions + more).core.conn == Run(BOOT, actions).core.conn
    ensures Run(BOOT, actions + more + [call]).core.conn.None?
  {
    hide Run, Inv, Next;
    StartsWell();
    RunKeepsInv(BOOT, actions);
    RunConcat(BOOT, actions, more);
    RunKeepsConn(Run(BOOT, actions), more);
    OneMore(actions + more, call);
    StepCalls(Run(BOOT, actions + more), call);
  }

  // ----- what must have succeeded before ------------------------------------------------------

  datatype Hurdle = Permission | Installation | Readiness | Retry(attempt: nat)

  /** The stage at which a hurdle is taken. */
  predicate TakenAt(h: Hurdle, st: Stage) {
    match h
    case Permission => st == Permissions
    case Installation => st == Install
    case Readiness => st == LastLook || (st.Observe? && st.polls < READY_POLLS)
    case Retry(a) => st == Probe(a)
  }

  /** The stages behind it. */
  predicate Behind(h: Hurdle, st: Stage) {
    match h
    case Permission => st == CheckPermitted || st == Install || st == CheckInstalled || Launches(st) || Connects(st)
    case Installation => st == CheckInstalled || Launches(st) || Connects(st)
    case Readiness => st == Leave(true) || Connects(st)
    case Retry(a) => Attempt(st) == a + 1
  }

  predicate Launches(st: Stage) { st == Enter || InSection(st) }

  predicate Connects(st: Stage) { st.Connect? || st.CheckSocket? || st.Dial? || st.Publish? || st.Abandon? }

  function Attempt(st: Stage): nat {
    if st.Gate? || st.Launch? || st.Observe? || st.Probe? then st.attempt else 0
  }

  /** Step i of the run is one in which worker k took the hurdle. */
  ghost predicate TookIt(actions: seq<Action>, i: nat, k: nat, h: Hurdle)
    requires i < |actions|
  {
    && actions[i] == WorkerStep(k, true, false)
    && k < |Run(BOOT, actions[..i]).workers| && TakenAt(h, Run(BOOT, actions[..i]).workers[k].stage)
  }

  ghost predicate Took(actions: seq<Action>, k: nat, h: Hurdle) {
    exists i: nat :: i < |actions| && TookIt(actions, i, k, h)
  }

  lemma StillTook(actions: seq<Action>, a: Action, k: nat, h: Hurdle)
    requires Took(actions, k, h)
    ensures Took(actions + [a], k, h)
  {
    var i: nat :| i < |actions| && TookIt(actions, i, k, h);
    assert (actions + [a])[..i] == actions[..i] && (actions + [a])[i] == actions[i];
    assert TookIt(actions + [a], i, k, h);
  }

  /** A worker gets behind a hurdle only by taking it. */
  lemma StepTakes(s: Shell, k: nat, ok: bool, throws: bool, h: Hurdle)
    requires k < |s.workers|
    ensures var s' := WorkerNext(s, k, ok, throws);
            && |s'.workers| == |s.workers|
            && (Behind(h, s'.workers[k].stage) ==>
                  Behind(h, s.workers[k].stage) || (ok && !throws && TakenAt(h, s.workers[k].stage)))
  {
    hide LaunchStep, PlainStep;
    if InSection(s.workers[k].stage) { LaunchTakes(s, k, ok, throws, h); } else { PlainTakes(s, k, ok, h); }
  }

  lemma LaunchTakes(s: Shell, k: nat, ok: bool, throws: bool, h: Hurdle)
    requires k < |s.workers| && InSection(s.workers[k].stage)
    ensures var s' := LaunchStep(s, k, ok, throws);
            && |s'.workers| == |s.workers|
            && (Behind(h, s'.workers[k].stage) ==>
                  Behind(h, s.workers[k].stage) || (ok && !throws && TakenAt(h, s.workers[k].stage)))
  {
  }

  lemma PlainTakes(s: Shell, k: nat, ok: bool, h: Hurdle)
    requires k < |s.workers| && !InSection(s.workers[k].stage)
    ensures var s' := PlainStep(s, k, ok);
            && |s'.workers| == |s.workers|
            && (Behind(h, s'.workers[k].stage) ==>
                  Behind(h, s.workers[k].stage) || (ok && TakenAt(h, s.workers[k].stage)))
  {
  }

  /**
   In every run a worker installs only once permitted, enters the launch section only once installed, launches
   again only after a probe that found the daemon alive, and connects only once the daemon was seen ready.
   */
  lemma {:induction false} BehindMeansTaken(actions: seq<Action>, k: nat, h: Hurdle)
    requires k < |Run(BOOT, actions).workers| && Behind(h, Run(BOOT, actions).workers[k].stage)
    ensures Took(actions, k, h)
    decreases |actions|
  {
    hide Run, WorkerNext, Behind, TakenAt;
    if actions == [] {
      StartsAtBoot();
    } else {
      var before, a := actions[..|actions| - 1], actions[|actions| - 1];
      var s := Run(BOOT, before);
      assert actions == before + [a];
      OneMore(before, a);
      if k >= |s.workers| {
        NewWorkerJoins(s, a, k, h);
      } else if a.WorkerStep? && a.worker == k {
        StepTakes(s, k, a.ok, a.throws, h);
        if Behind(h, s.workers[k].stage) {
          BehindMeansTaken(before, k, h);
          StillTook(before, a, k, h);
        } else {
          assert TookIt(actions, |before|, k, h);
        }
      } else {
        OthersLeaveIt(s, a, k);
        BehindMeansTaken(before, k, h);
        StillTook(before, a, k, h);
      }
    }
  }

  lemma NewWorkerJoins(s: Shell, a: Action, k: nat, h: Hurdle)
    requires |s.workers| <= k < |Next(s, a).workers|
    ensures !Behind(h, Next(s, a).workers[k].stage)
  {
    hide WorkerNext;
    if a.WorkerStep? && a.worker < |s.workers| { MovesOnlyItself(s, a.worker, a.ok, a.throws); }
  }

  // ----- a worker that is no longer current ---------------------------------------------------

  /** The worker is about to ask for permission, install, enter the launch section, launch or dial. */
  predicate IsWork(st: Stage) { st == Permissions || st == Install || st == Enter || st.Launch? || st.Dial? }

  lemma StaleStep(s: Shell, k: nat, ok: bool, throws: bool)
    requires k < |s.workers| && !Current(s.core, s.workers[k].gen)
    ensures var s' := WorkerNext(s, k, ok, throws);
            && |s'.workers| == |s.workers|
            && (s'.workers[k].stage == s.workers[k].stage || !IsWork(s'.workers[k].stage))
  {
  }

  /** After a call has overtaken a worker it finishes at most what it was doing, and takes up nothing more. */
  lemma {:induction false} StaleTakesUpNothing(s: Shell, k: nat, more: seq<Action>)
    requires k < |s.workers| && !Current(s.core, s.workers[k].gen) && s.workers[k].gen <= s.core.generation
    ensures k < |Run(s, more).workers|
    ensures Run(s, more).workers[k].stage == s.workers[k].stage || !IsWork(Run(s, more).workers[k].stage)
    decreases |more|
  {
    if more != [] {
      hide Next, IsWork;
      StepCalls(s, more[0]);
      StaleMove(s, more[0], k);
      StaleTakesUpNothing(Next(s, more[0]), k, more[1..]);
    }
  }

  lemma StaleMove(s: Shell, a: Action, k: nat)
    requires k < |s.workers| && !Current(s.core, s.workers[k].gen)
    ensures k < |Next(s, a).workers|
    ensures Next(s, a).workers[k].stage == s.workers[k].stage || !IsWork(Next(s, a).workers[k].stage)
  {
    hide WorkerNext;
    if a.WorkerStep? && a.worker == k { StaleStep(s, k, a.ok, a.throws); } else { OthersLeaveIt(s, a, k); }
  }

  /** Every launch that begins is logged, also one that throws, and nothing else is. */
  lemma LaunchesAreLogged(s: Shell, k: nat, ok: bool, throws: bool)
    requires k < |s.workers|
    ensures WorkerNext(s, k, ok, throws).log ==
            s.log + if s.workers[k].stage.Launch? then [Launched(s.workers[k].gen)] else []
  {
    assert s.log + [] == s.log;
  }

  // ----- stop() -------------------------------------------------------------------------------

  lemma ThreeSteps(s: Shell, a: Action)
    ensures Run(s, [a, a, a]) == Next(Next(Next(s, a), a), a)
  {
    hide Next;
    assert [a, a, a][1..] == [a, a] && [a, a][1..] == [a] && [a][1..] == [];
    var s1 := Next(s, a);
    var s2 := Next(s1, a);
    assert Run(s2, [a]) == Run(Next(s2, a), []);
    assert Run(s1, [a, a]) == Run(s2, [a]);
  }

  /**
   A stop() in its wait goes on at once if nobody is in the launch section, and else only at its deadline; it then
   closes the lease it took down and reaches teardown, having given up exactly in the second case.
   */
  lemma StopTearsDown(s: Shell, k: nat, deadline: bool)
    requires k < |s.calls| && s.calls[k].phase.Await?
    ensures s.core.launching && !deadline ==> Next(s, CallStep(k, deadline)) == s
    ensures !s.core.launching || deadline ==>
              var s', lease := Run(s, seq(3, _ => CallStep(k, deadline))), s.calls[k].phase.conn;
              && |s'.calls| == |s.calls| && s'.calls[k].phase == Returned
              && s'.log == s.log + [TornDown(s.calls[k].gen, s.core.launching)]
              && (lease.Some? && lease.value < |s.leases| ==>
                    |s'.leases| == |s.leases| && s'.leases[lease.value].holder == Closed)
  {
    var a := CallStep(k, deadline);
    assert seq(3, _ => a) == [a, a, a];
    ThreeSteps(s, a);
  }

  // ----- and nothing else holds it up ---------------------------------------------------------

  /** A current worker that can move and has not failed. */
  ghost predicate Promising(s: Shell, k: nat) {
    && k < |s.workers| && Current(s.core, s.workers[k].gen) && !Blocked(s, k)
    && var st := s.workers[k].stage;
       Bounded(st) && !st.Abandon? && st != Leave(false) && st != Connect(CONNECT_TRIES)
  }

  lemma GoodStep(s: Shell, k: nat)
    requires Promising(s, k)
    ensures var s' := WorkerNext(s, k, true, false);
            if s.workers[k].stage.Publish? then s'.core.conn == Some(s.workers[k].stage.lease)
            else Promising(s', k)
  {
    StepCounts(s, k, true, false);
  }

  /** From wherever it stands, a current worker whose every step succeeds publishes a lease. */
  lemma {:induction false} GoodLuckPublishes(s: Shell, k: nat) returns (steps: seq<Action>)
    requires Promising(s, k)
    ensures Run(s, steps).core.conn.Some?
    ensures forall i :: 0 <= i < |steps| ==> steps[i] == WorkerStep(k, true, false)
    decreases StepsLeft(s.workers[k].stage)
  {
    hide WorkerNext, StepsLeft, Bounded;
    var go := WorkerStep(k, true, false);
    GoodStep(s, k);
    StepCounts(s, k, true, false);
    var s' := WorkerNext(s, k, true, false);
    if s.workers[k].stage.Publish? {
      steps := [go];
      assert steps[1..] == [];
      assert Run(s, steps) == Run(s', []) == s';
    } else {
      var rest := GoodLuckPublishes(s', k);
      steps := [go] + rest;
      assert steps[1..] == rest;
    }
  }

  /** One failed try to connect. */
  function FailedTry(k: nat): seq<Action> {
    [WorkerStep(k, true, false), WorkerStep(k, true, false), WorkerStep(k, false, false)]
  }

  lemma OneFailedTry(s: Shell, k: nat, i: nat)
    requires k < |s.workers| && Current(s.core, s.workers[k].gen)
    requires s.workers[k].stage == Connect(i) && i < CONNECT_TRIES
    ensures Run(s, FailedTry(k)) == Move(s, k, Connect(i + 1))
  {
    var t := FailedTry(k);
    var s1 := Next(s, t[0]);
    var s2 := Next(s1, t[1]);
    assert t[1..] == [t[1], t[2]] && [t[1], t[2]][1..] == [t[2]] && [t[2]][1..] == [];
    assert Run(s2, [t[2]]) == Run(Next(s2, t[2]), []) == Next(s2, t[2]);
    assert Run(s1, [t[1], t[2]]) == Run(s2, [t[2]]);
  }

  function FailedTries(k: nat, n: nat): seq<Action> {
    if n == 0 then [] else FailedTry(k) + FailedTries(k, n - 1)
  }

  /** A current worker goes on after every failed try, until it has made 15. */
  lemma {:induction false} TriesFifteenTimes(s: Shell, k: nat, i: nat, n: nat, ok: bool)
    requires k < |s.workers| && Current(s.core, s.workers[k].gen) && s.workers[k].stage == Connect(i)
    requires i + n <= CONNECT_TRIES
    ensures Run(s, FailedTries(k, n)) == Move(s, k, Connect(i + n))
    ensures i + n < CONNECT_TRIES ==> Promising(Move(s, k, Connect(i + n)), k)
    ensures i + n == CONNECT_TRIES ==> WorkerNext(Move(s, k, Connect(i + n)), k, ok, false) == Move(s, k, Done)
    decreases n
  {
    hide Run, FailedTry;
    var moved := Move(s, k, Connect(i + n));
    assert moved.workers[k := s.workers[k].(stage := Done)] == Move(s, k, Done).workers;
    if n == 0 {
      assert s.workers[k := s.workers[k]] == s.workers;
      NoSteps(s);
    } else {
      OneFailedTry(s, k, i);
      RunConcat(s, FailedTry(k), FailedTries(k, n - 1));
      var s' := Move(s, k, Connect(i + 1));
      TriesFifteenTimes(s', k, i + 1, n - 1, ok);
      assert Move(s', k, Connect(i + n)) == moved;
    }
  }

  /** Looks for the daemon that do not find it ready, and the end of the loop around them. */
  function FailedPolls(k: nat, n: nat): seq<Action> {
    if n == 0 then [] else [WorkerStep(k, false, false)] + FailedPolls(k, n - 1)
  }

  lemma {:induction false} LooksFiveTimes(s: Shell, k: nat, a: nat, i: nat)
    requires k < |s.workers| && s.workers[k].stage == Observe(a, i) && i <= READY_POLLS
    ensures Run(s, FailedPolls(k, READY_POLLS + 1 - i)) == Move(s, k, Probe(a))
    decreases READY_POLLS - i
  {
    var look := WorkerStep(k, false, false);
    var rest := FailedPolls(k, READY_POLLS - i);
    var s' := Next(s, look);
    assert ([look] + rest)[1..] == rest;
    if i < READY_POLLS {
      assert s' == Move(s, k, Observe(a, i + 1));
      LooksFiveTimes(s', k, a, i + 1);
      assert Move(s', k, Probe(a)) == Move(s, k, Probe(a));
    } else {
      assert rest == [];
    }
  }

  /** A launch after which the daemon is not seen ready: gate, launch, five looks, and a probe that finds it alive. */
  function FailedLaunch(k: nat): seq<Action> {
    [WorkerStep(k, true, false), WorkerStep(k, true, false)] + FailedPolls(k, 6) + [WorkerStep(k, true, false)]
  }

  /** A current worker launches again after such a launch until it has launched three times, then looks once more. */
  lemma LaunchesThreeTimes(s: Shell, k: nat, a: nat)
    requires k < |s.workers| && Current(s.core, s.workers[k].gen) && s.workers[k].stage == Gate(a)
    ensures Run(s, FailedLaunch(k)) ==
            Move(s, k, if a < 2 then Gate(a + 1) else LastLook).(log := s.log + [Launched(s.workers[k].gen)])
  {
    hide Run, Next, FailedPolls;
    var go := WorkerStep(k, true, false);
    var s2 := Next(Next(s, go), go);
    RunConcat(s, [go, go] + FailedPolls(k, 6), [go]);
    RunConcat(s, [go, go], FailedPolls(k, 6));
    TwoSteps(s, go);
    GateAndLaunch(s, k, a);
    LooksFiveTimes(s2, k, a, 0);
    OneStep(Run(s2, FailedPolls(k, 6)), go);
    ProbesAgain(s, s2, k, a);
  }

  lemma OneStep(s: Shell, a: Action)
    ensures Run(s, [a]) == Next(s, a)
  {
    hide Next;
    assert [a][1..] == [];
    assert Run(Next(s, a), []) == Next(s, a);
  }

  lemma GateAndLaunch(s: Shell, k: nat, a: nat)
    requires k < |s.workers| && Current(s.core, s.workers[k].gen) && s.workers[k].stage == Gate(a)
    ensures var go := WorkerStep(k, true, false);
            Next(Next(s, go), go) == Move(s, k, Observe(a, 0)).(log := s.log + [Launched(s.workers[k].gen)])
  {
  }

  lemma ProbesAgain(s: Shell, s2: Shell, k: nat, a: nat)
    requires k < |s.workers| && s2 == Move(s, k, Observe(a, 0)).(log := s2.log)
    ensures Next(Move(s2, k, Probe(a)), WorkerStep(k, true, false)) ==
            Move(s, k, if a < 2 then Gate(a + 1) else LastLook).(log := s2.log)
  {
  }

  lemma TwoSteps(s: Shell, a: Action)
    ensures Run(s, [a, a]) == Next(Next(s, a), a)
  {
    hide Next;
    assert [a, a][1..] == [a] && [a][1..] == [];
    assert Run(Next(s, a), [a]) == Run(Next(Next(s, a), a), []);
  }

  lemma NoSteps(s: Shell)
    ensures Run(s, []) == s
  {
  }
}
