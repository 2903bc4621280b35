/**
 The remote-control credentials and the cached service port (src/dacp_state.c), and the command
 senders that use them (src/dacp.c). Each locked operation is one step; a sender's snapshot, port
 query, publication and final guard are separate steps that other threads may come between.
 */
module DacpModel {
  import opened Words

  type Text = seq<Byte>

  /** The state under the mutex; port 0 means none is cached. */
  datatype State = State(generation: nat, haveCreds: bool, id: Text, token: Text, peer: int, port: nat, portGen: nat)

  const ZERO := State(0, false, [], [], 0, 0, 0)

  function NewSession(s: State): State { ZERO.(generation := s.generation + 1) }

  /** creds is None when either field failed its check. */
  function Capture(s: State, creds: Option<(Text, Text)>, peer: int): State {
    if creds.None? then s.(peer := peer)
    else
      var (id, token) := creds.value;
      var changed := !s.haveCreds || s.id != id || s.token != token;
      s.(peer := peer, haveCreds := true, id := id, token := token,
         port := if changed then 0 else s.port, portGen := if changed then 0 else s.portGen)
  }

  function PublishPort(s: State, gen: nat, port: nat): State {
    if gen == s.generation then s.(port := port, portGen := gen) else s
  }

  predicate PortIsCached(s: State) { s.port != 0 && s.portGen == s.generation }

  /** The last check of a command, against a second snapshot. */
  predicate StillValid(live: State, snap: State) {
    && live.haveCreds && live.generation == snap.generation && live.peer == snap.peer
    && live.id == snap.id && live.token == snap.token
  }

  // ----- the senders ------------------------------------------------------------------------

  /** The snapshot a port query was begun under. */
  datatype Query = Query(gen: nat, id: Text)

  datatype Sender =
    | Starting
    | Resolving(snap: State)
    | Publishing(snap: State, port: nat)
    | Guarding(snap: State, port: nat, origin: Query)
    | Finished

  /** A command that passed its guard: the state it was sent under, and where its port came from. */
  datatype Sent = Sent(live: State, port: nat, origin: Query)

  /** `origin` is the query the cached port came from. */
  datatype World = World(state: State, origin: Query, senders: seq<Sender>, sent: seq<Sent>)

  const BOOT := World(ZERO, Query(0, []), [], [])

  datatype Action =
    | Session
    | Credentials(creds: Option<(Text, Text)>, peer: int)
    | Command
    | Step(sender: nat, found: nat)

  function SenderStep(w: World, k: nat, found: nat): World
    requires k < |w.senders|
  {
    var s := w.state;
    match w.senders[k]
    case Starting =>
      w.(senders := w.senders[k := if !s.haveCreds then Finished
                                   else if PortIsCached(s) then Guarding(s, s.port, w.origin)
                                   else Resolving(s)])
    case Resolving(snap) => w.(senders := w.senders[k := if found == 0 then Finished else Publishing(snap, found)])
    case Publishing(snap, port) =>
      var q := Query(snap.generation, snap.id);
      w.(state := PublishPort(s, snap.generation, port),
         origin := if snap.generation == s.generation then q else w.origin,
         senders := w.senders[k := Guarding(snap, port, q)])
    case Guarding(snap, port, origin) =>
      w.(senders := w.senders[k := Finished],
         sent := if StillValid(s, snap) then w.sent + [Sent(s, port, origin)] else w.sent)
    case Finished => w
  }

  function Next(w: World, a: Action): World {
    match a
    case Session => w.(state := NewSession(w.state))
    case Credentials(creds, peer) => w.(state := Capture(w.state, creds, peer))
    case Command => w.(senders := w.senders + [Starting])
    case Step(k, found) => if k < |w.senders| then SenderStep(w, k, found) else w
  }

  function Run(w: World, actions: seq<Action>): World
    decreases |actions|
  {
    if actions == [] then w else Run(Next(w, actions[0]), actions[1..])
  }

  // ----- per generation: always -------------------------------------------------------------

  ghost predicate SentRight(x: Sent) {
    x.live.haveCreds && x.port != 0 && x.origin.gen == x.live.generation
  }

  predicate HasSnap(x: Sender) { x.Resolving? || x.Publishing? || x.Guarding? }

  /** Credentials once seen in the live session are still there. */
  predicate NotLost(s: State, snap: State) {
    snap.generation <= s.generation && (snap.generation == s.generation && snap.haveCreds ==> s.haveCreds)
  }

  ghost predicate Inv(w: World) {
    && w.state.portGen <= w.state.generation
    && (PortIsCached(w.state) ==> w.origin.gen == w.state.generation && w.state.haveCreds)
    && (forall k :: 0 <= k < |w.senders| && HasSnap(w.senders[k]) ==> NotLost(w.state, w.senders[k].snap))
    && (forall k :: 0 <= k < |w.senders| ==>
          match w.senders[k]
          case Resolving(snap) => snap.haveCreds
          case Publishing(snap, port) => snap.haveCreds && port != 0
          case Guarding(snap, port, origin) => snap.haveCreds && port != 0 && origin.gen == snap.generation
          case _ => true)
    && (forall i :: 0 <= i < |w.sent| ==> SentRight(w.sent[i]))
  }

  lemma StepKeepsInv(w: World, a: Action)
    requires Inv(w)
    ensures Inv(Next(w, a))
  {
  }

  lemma {:induction false} RunKeepsInv(w: World, actions: seq<Action>)
    requires Inv(w)
    ensures Inv(Run(w, actions))
    decreases |actions|
  {
    if actions != [] {
      StepKeepsInv(w, actions[0]);
      RunKeepsInv(Next(w, actions[0]), actions[1..]);
    }
  }

  /** A cached port of the live generation came from a query begun in that generation. */
  lemma CachedPortIsOfThisSession(actions: seq<Action>)
    ensures var w := Run(BOOT, actions); PortIsCached(w.state) ==> w.origin.gen == w.state.generation
  {
    RunKeepsInv(BOOT, actions);
  }

  /**
   A command that has come to its guard is sent if and only if generation, peer, id and token are still the
   ones it was begun with; it then goes to a port resolved under the live generation.
   */
  lemma GuardedSend(actions: seq<Action>, k: nat, found: nat)
    requires var w := Run(BOOT, actions); k < |w.senders| && w.senders[k].Guarding?
    ensures var w := Run(BOOT, actions);
            var live, sender, w' := w.state, w.senders[k], Next(w, Step(k, found));
            if && live.haveCreds && live.generation == sender.snap.generation && live.peer == sender.snap.peer
               && live.id == sender.snap.id && live.token == sender.snap.token
            then w'.sent == w.sent + [Sent(live, sender.port, sender.origin)] && sender.origin.gen == live.generation
            else w'.sent == w.sent
  {
    RunKeepsInv(BOOT, actions);
  }

  // ----- per identity: not always -----------------------------------------------------------

  /** The cached port was resolved for the identity that is live now. */
  ghost predicate CacheFitsIdentity(w: World) {
    PortIsCached(w.state) ==> w.origin.id == w.state.id
  }

  /** A publication whose snapshot still carries the live identity, or is refused. */
  predicate Timely(w: World, a: Action) {
    a.Step? && a.sender < |w.senders| && w.senders[a.sender].Publishing? ==>
      var snap := w.senders[a.sender].snap;
      snap.generation == w.state.generation ==> snap.id == w.state.id
  }

  ghost predicate AlwaysFits(w: World, actions: seq<Action>)
    decreases |actions|
  {
    CacheFitsIdentity(w) && (actions != [] ==> AlwaysFits(Next(w, actions[0]), actions[1..]))
  }

  predicate AllTimely(w: World, actions: seq<Action>)
    decreases |actions|
  {
    actions == [] || (Timely(w, actions[0]) && AllTimely(Next(w, actions[0]), actions[1..]))
  }

  lemma OneStepFits(w: World, a: Action)
    requires Inv(w) && CacheFitsIdentity(w)
    ensures CacheFitsIdentity(Next(w, a)) <==> Timely(w, a)
  {
  }

  /** The cache fits the live identity throughout a run exactly when no accepted publication is of another identity. */
  lemma {:induction false} FitsIff(w: World, actions: seq<Action>)
    requires Inv(w) && CacheFitsIdentity(w)
    ensures AlwaysFits(w, actions) <==> AllTimely(w, actions)
    decreases |actions|
  {
    if actions != [] {
      OneStepFits(w, actions[0]);
      StepKeepsInv(w, actions[0]);
      if CacheFitsIdentity(Next(w, actions[0])) { FitsIff(Next(w, actions[0]), actions[1..]); }
    }
  }

  // ----- what that means for commands ---------------------------------------------------------

  ghost predicate SentFits(w: World) {
    forall i :: 0 <= i < |w.sent| ==> w.sent[i].origin.id == w.sent[i].live.id
  }

  /** The cache, the ports in the senders' hands and the commands sent are each of one identity. */
  ghost predicate AllFit(w: World) {
    && CacheFitsIdentity(w) && SentFits(w)
    && forall k :: 0 <= k < |w.senders| && w.senders[k].Guarding? ==> w.senders[k].origin.id == w.senders[k].snap.id
  }

  /** A new command, carried out at once. */
  function AtOnce(w: World): seq<Action> { [Command, Step(|w.senders|, 0), Step(|w.senders|, 0)] }

  /** At every point of the run, every command sent, and one given then and carried out at once, fits its identity. */
  ghost predicate CommandsFit(w: World, actions: seq<Action>)
    decreases |actions|
  {
    SentFits(w) && SentFits(Run(w, AtOnce(w))) && (actions != [] ==> CommandsFit(Next(w, actions[0]), actions[1..]))
  }

  lemma TimelyKeepsFit(w: World, a: Action)
    requires AllFit(w) && Timely(w, a)
    ensures AllFit(Next(w, a))
  {
  }

  lemma AtOnceRuns(w: World)
    ensures var w1 := Next(w, Command);
            Run(w, AtOnce(w)) == Next(Next(w1, Step(|w.senders|, 0)), Step(|w.senders|, 0))
  {
    var a := AtOnce(w);
    var w1 := Next(w, a[0]);
    var w2 := Next(w1, a[1]);
    assert a[1..] == [a[1], a[2]] && [a[1], a[2]][1..] == [a[2]] && [a[2]][1..] == [];
    assert Run(w2, [a[2]]) == Run(Next(w2, a[2]), []) == Next(w2, a[2]);
    assert Run(w1, [a[1], a[2]]) == Run(w2, [a[2]]);
  }

  /** A command carried out at once goes to the cached port, whosever it is. */
  lemma AtOnceFitsIff(w: World)
    requires Inv(w) && SentFits(w)
    ensures SentFits(Run(w, AtOnce(w))) <==> CacheFitsIdentity(w)
  {
    AtOnceRuns(w);
    hide Run;
    var k := |w.senders|;
    var w1 := Next(w, Command);
    var w2 := Next(w1, Step(k, 0));
    var w3 := Next(w2, Step(k, 0));
    if PortIsCached(w.state) {
      assert w2.senders[k] == Guarding(w.state, w.state.port, w.origin);
      assert w3.sent == w.sent + [Sent(w.state, w.state.port, w.origin)];
      assert w3.sent[|w.sent|] == Sent(w.state, w.state.port, w.origin);
    } else {
      assert w3.sent == w.sent;
    }
  }

  /** Commands go to ports of the live identity throughout a run exactly when no accepted publication is of another. */
  lemma {:induction false} CommandsFitIff(w: World, actions: seq<Action>)
    requires Inv(w) && AllFit(w)
    ensures CommandsFit(w, actions) <==> AllTimely(w, actions)
    decreases |actions|
  {
    hide Run;
    AtOnceFitsIff(w);
    if actions != [] {
      var w' := Next(w, actions[0]);
      StepKeepsInv(w, actions[0]);
      OneStepFits(w, actions[0]);
      if Timely(w, actions[0]) {
        TimelyKeepsFit(w, actions[0]);
        CommandsFitIff(w', actions[1..]);
      } else if SentFits(w') {
        AtOnceFitsIff(w');
      }
    }
  }

  /** While publications are of the live identity, every command ever sent went to a port of its own identity. */
  lemma {:induction false} TimelyCommandsFit(w: World, actions: seq<Action>)
    requires AllFit(w) && AllTimely(w, actions)
    ensures AllFit(Run(w, actions))
    decreases |actions|
  {
    if actions != [] {
      hide AllFit, Next;
      TimelyKeepsFit(w, actions[0]);
      TimelyCommandsFit(Next(w, actions[0]), actions[1..]);
    }
  }

  lemma {:induction false} RunConcat(w: World, a: seq<Action>, b: seq<Action>)
    ensures Run(w, a + b) == Run(Run(w, a), b)
    decreases |a|
  {
    if a == [] {
      assert a + b == b;
    } else {
      assert (a + b)[1..] == a[1..] + b;
      RunConcat(Next(w, a[0]), a[1..], b);
    }
  }

  lemma Then(actions: seq<Action>, a: Action) returns (longer: seq<Action>)
    ensures Run(BOOT, longer) == Next(Run(BOOT, actions), a)
  {
    longer := actions + [a];
    RunConcat(BOOT, actions, [a]);
  }

  lemma AtBoot()
    ensures Run(BOOT, []) == BOOT
  {
  }

  /** A query begun for identity A is published after the same session's identity has become B. */
  lemma StaleCache() returns (actions: seq<Action>)
    ensures var w := Run(BOOT, actions);
            && w.state == State(1, true, [66], [50], 1, 5000, 1) && w.origin == Query(1, [65])
            && |w.senders| == 1 && w.sent == []
  {
    hide Run;
    AtBoot();
    actions := Then([], Session);
    actions := Then(actions, Credentials(Some(([65], [49])), 1));
    actions := Then(actions, Command);
    actions := Then(actions, Step(0, 0));
    actions := Then(actions, Step(0, 5000));
    assert Run(BOOT, actions).senders == [Publishing(State(1, true, [65], [49], 1, 0, 0), 5000)];
    actions := Then(actions, Credentials(Some(([66], [50])), 1));
    actions := Then(actions, Step(0, 0));
  }

  /** The identity changes between a query and its publication: a later command goes to the old identity's port. */
  lemma OldIdentityPort()
    ensures exists actions :: var w := Run(BOOT, actions); |w.sent| == 1 && w.sent[0].origin.id != w.sent[0].live.id
  {
    hide Run;
    var actions := StaleCache();
    actions := Then(actions, Command);
    actions := Then(actions, Step(1, 0));
    actions := Then(actions, Step(1, 0));
    assert Run(BOOT, actions).sent[0].origin == Query(1, [65]);
  }
}
