/**
 The Kindlet life cycle (KindletShell.java): start() and stop() calls from the framework and the
 worker threads they leave behind, as atomic steps. One step is one section under the lifecycle
 lock or one call outside it; every outcome of the system (permission, install, launch, readiness,
 connect, exceptions, the stop deadline) is a free choice.
 */
module KindletModel {
  import opened Words

  const LAUNCH_ATTEMPTS: nat := 3
  const READY_POLLS: nat := 5
  const CONNECT_TRIES: nat := 15

  /** The fields guarded by the lifecycle lock. Leases and workers are numbered as they are made. */
  datatype Core = Core(generation: nat, stopped: bool, conn: Option<nat>, worker: Option<nat>, launching: bool)

  const CREATED := Core(0, false, None, None, false)

  predicate Current(c: Core, g: nat) { c.generation == g && !c.stopped }

  /** start(): a new generation, the old lease detached, a new worker that joins the previous one. */
  function StartSection(c: Core, thread: nat): (Core, Option<nat>, Option<nat>) {
    (Core(c.generation + 1, false, None, Some(thread), c.launching), c.conn, c.worker)
  }

  function StopSection(c: Core): (Core, Option<nat>) {
    (c.(generation := c.generation + 1, stopped := true, conn := None), c.conn)
  }

  function EnterLaunch(c: Core, g: nat): (Core, bool) {
    if Current(c, g) then (c.(launching := true), true) else (c, false)
  }

  function LeaveLaunch(c: Core): Core { c.(launching := false) }

  /** publish(): the candidate becomes the lease, or comes back to be closed. */
  function PublishSection(c: Core, g: nat, candidate: nat): (Core, Option<nat>) {
    if Current(c, g) then (c.(conn := Some(candidate)), None) else (c, Some(candidate))
  }

  // ----- threads ----------------------------------------------------------------------------

  datatype Stage =
    | Join | CheckJoined | Permissions | CheckPermitted | Install | CheckInstalled
    | Enter | Gate(attempt: nat) | Launch(attempt: nat) | Observe(attempt: nat, polls: nat)
    | Probe(attempt: nat) | LastLook | Leave(ready: bool)
    | Connect(tries: nat) | CheckSocket(tries: nat) | Dial(tries: nat) | Publish(lease: nat) | Abandon(lease: nat)
    | Done

  /** Between setting the launching latch and clearing it. */
  predicate InSection(s: Stage) {
    s.Gate? || s.Launch? || s.Observe? || s.Probe? || s.LastLook? || s.Leave?
  }

  datatype Worker = Worker(gen: nat, prev: Option<nat>, stage: Stage)

  /** A call of start() or stop() after its locked section; gen is the generation it made. */
  datatype Phase =
    | CloseOld(conn: Option<nat>)
    | Await(conn: Option<nat>)
    | CloseConn(conn: Option<nat>, gaveUp: bool)
    | TearDown(gaveUp: bool)
    | Returned

  datatype Call = Call(gen: nat, phase: Phase)

  /** Who is responsible for a constructed lease. */
  datatype Holder = Field | InWorker(worker: nat) | InCall(call: nat) | Closed

  datatype Lease = Lease(gen: nat, holder: Holder)

  /** What happened, in order: a call made generation gen, a worker launched, a stop() reached teardown. */
  datatype Entry = Called(gen: nat) | Launched(gen: nat) | TornDown(gen: nat, gaveUp: bool)

  datatype Shell = Shell(core: Core, workers: seq<Worker>, calls: seq<Call>, leases: seq<Lease>, log: seq<Entry>)

  const BOOT := Shell(CREATED, [], [], [], [])

  datatype Action = Start | Stop | CallStep(call: nat, gaveUp: bool) | WorkerStep(worker: nat, ok: bool, throws: bool)

  function Give(s: Shell, lease: Option<nat>, h: Holder): Shell {
    if lease.Some? && lease.value < |s.leases| then
      s.(leases := s.leases[lease.value := s.leases[lease.value].(holder := h)])
    else s
  }

  function Move(s: Shell, k: nat, st: Stage): Shell
    requires k < |s.workers|
  {
    s.(workers := s.workers[k := s.workers[k].(stage := st)])
  }

  function StartCall(s: Shell): Shell {
    var (core, detached, prev) := StartSection(s.core, |s.workers|);
    Give(s, detached, InCall(|s.calls|))
      .(core := core, workers := s.workers + [Worker(core.generation, prev, Join)],
        calls := s.calls + [Call(core.generation, CloseOld(detached))], log := s.log + [Called(core.generation)])
  }

  function StopCall(s: Shell): Shell {
    var (core, c) := StopSection(s.core);
    Give(s, c, InCall(|s.calls|))
      .(core := core, calls := s.calls + [Call(core.generation, Await(c))], log := s.log + [Called(core.generation)])
  }

  function Advance(s: Shell, k: nat, gaveUp: bool): Shell
    requires k < |s.calls|
  {
    var call := s.calls[k];
    match call.phase
    case CloseOld(c) => Give(s, c, Closed).(calls := s.calls[k := call.(phase := Returned)])
    case Await(c) =>
      if !s.core.launching then s.(calls := s.calls[k := call.(phase := CloseConn(c, false))])
      else if gaveUp then s.(calls := s.calls[k := call.(phase := CloseConn(c, true))])
      else s
    case CloseConn(c, g) => Give(s, c, Closed).(calls := s.calls[k := call.(phase := TearDown(g))])
    case TearDown(g) => s.(calls := s.calls[k := call.(phase := Returned)], log := s.log + [TornDown(call.gen, g)])
    case Returned => s
  }

  predicate Joined(s: Shell, k: nat)
    requires k < |s.workers|
  {
    var prev := s.workers[k].prev;
    prev.Some? && prev.value < |s.workers| ==> s.workers[prev.value].stage == Done
  }

  /** The launch section of launchAndAwaitReady; a throw inside it still clears the latch. */
  function LaunchStep(s: Shell, k: nat, ok: bool, throws: bool): Shell
    requires k < |s.workers| && InSection(s.workers[k].stage)
  {
    var w := s.workers[k];
    if w.stage.Leave? then
      Move(s, k, if w.stage.ready then Connect(0) else Done).(core := LeaveLaunch(s.core))
    else if throws then
      // a launch that throws has begun all the same
      Move(s, k, Leave(false)).(log := if w.stage.Launch? then s.log + [Launched(w.gen)] else s.log)
    else
      match w.stage
      case Gate(a) => Move(s, k, if Current(s.core, w.gen) then Launch(a) else Leave(false))
      case Launch(a) => Move(s, k, Observe(a, 0)).(log := s.log + [Launched(w.gen)])
      case Observe(a, i) =>
        Move(s, k, if i >= READY_POLLS then Probe(a) else if ok then Leave(true) else Observe(a, i + 1))
      case Probe(a) => Move(s, k, if ok && a + 1 < LAUNCH_ATTEMPTS then Gate(a + 1) else LastLook)
      case _ => Move(s, k, Leave(ok))
  }

  /** Everything else a worker does, when nothing throws. */
  function PlainStep(s: Shell, k: nat, ok: bool): Shell
    requires k < |s.workers| && !InSection(s.workers[k].stage)
  {
    var w := s.workers[k];
    var current := Current(s.core, w.gen);
    match w.stage
    case Join => if Joined(s, k) then Move(s, k, CheckJoined) else s
    case CheckJoined => Move(s, k, if current then Permissions else Done)
    case Permissions => Move(s, k, if ok then CheckPermitted else Done)
    case CheckPermitted => Move(s, k, if current then Install else Done)
    case Install => Move(s, k, if ok then CheckInstalled else Done)
    case CheckInstalled => Move(s, k, if current then Enter else Done)
    case Enter =>
      var (core, entered) := EnterLaunch(s.core, w.gen);
      Move(s, k, if entered then Gate(0) else Done).(core := core)
    case Connect(i) => Move(s, k, if i < CONNECT_TRIES && current then CheckSocket(i) else Done)
    case CheckSocket(i) => Move(s, k, if current then Dial(i) else Done)
    case Dial(i) =>
      if ok then Move(s, k, Publish(|s.leases|)).(leases := s.leases + [Lease(w.gen, InWorker(k))])
      else Move(s, k, Connect(i + 1))
    case Publish(id) =>
      var (core, ext) := PublishSection(s.core, w.gen, id);
      if ext.Some? then Move(s, k, Abandon(id)) else Give(Move(s, k, Done), Some(id), Field).(core := core)
    case Abandon(id) => Give(Move(s, k, Done), Some(id), Closed)
    case _ => s
  }

  function WorkerNext(s: Shell, k: nat, ok: bool, throws: bool): Shell
    requires k < |s.workers|
  {
    var st := s.workers[k].stage;
    if InSection(st) then LaunchStep(s, k, ok, throws)
    else if throws && !st.Join? && !st.Publish? && !st.Abandon? && !st.Done? then Move(s, k, Done)
    else PlainStep(s, k, ok)
  }

  function Next(s: Shell, a: Action): Shell {
    match a
    case Start => StartCall(s)
    case Stop => StopCall(s)
    case CallStep(k, g) => if k < |s.calls| then Advance(s, k, g) else s
    case WorkerStep(k, ok, throws) => if k < |s.workers| then WorkerNext(s, k, ok, throws) else s
  }

  function Run(s: Shell, actions: seq<Action>): Shell
    decreases |actions|
  {
    if actions == [] then s else Run(Next(s, actions[0]), actions[1..])
  }
}
