/** What the credentials and the cached port (src/dacp_state.c) are after every run: the latest that still stands. */
module DacpRuns {
  import opened Words
  import opened DacpModel

  /** What happens to the state under the mutex. */
  datatype Change = Begun | Told(creds: Option<(Text, Text)>, peer: int) | Resolved(gen: nat, port: nat)

  function Changed(s: State, c: Change): State {
    match c
    case Begun => NewSession(s)
    case Told(creds, peer) => Capture(s, creds, peer)
    case Resolved(gen, port) => PublishPort(s, gen, port)
  }

  function After(s: State, cs: seq<Change>): State {
    if cs == [] then s else Changed(After(s, cs[..|cs| - 1]), cs[|cs| - 1])
  }

  // ----- the latest that still stands ---------------------------------------------------------

  function Sessions(cs: seq<Change>): nat {
    if cs == [] then 0 else Sessions(cs[..|cs| - 1]) + if cs[|cs| - 1].Begun? then 1 else 0
  }

  /** The last valid credentials of this session. */
  function LatestCreds(cs: seq<Change>): Option<(Text, Text)> {
    if cs == [] || cs[|cs| - 1].Begun? then None
    else if cs[|cs| - 1].Told? && cs[|cs| - 1].creds.Some? then cs[|cs| - 1].creds
    else LatestCreds(cs[..|cs| - 1])
  }

  /** The peer that last told any, valid or not. */
  function LatestPeer(cs: seq<Change>): int {
    if cs == [] || cs[|cs| - 1].Begun? then 0
    else if cs[|cs| - 1].Told? then cs[|cs| - 1].peer
    else LatestPeer(cs[..|cs| - 1])
  }

  /** The last port resolved for this session since its credentials last changed. */
  function LatestPort(cs: seq<Change>): Option<nat> {
    if cs == [] then None
    else
      var before, c := cs[..|cs| - 1], cs[|cs| - 1];
      match c
      case Begun => None
      case Told(creds, _) => if creds.Some? && creds != LatestCreds(before) then None else LatestPort(before)
      case Resolved(gen, port) => if gen == Sessions(before) then Some(port) else LatestPort(before)
  }

  function OrZero(n: Option<nat>): nat { if n.Some? then n.value else 0 }

  /** The state holds exactly these. */
  ghost predicate Holds(s: State, cs: seq<Change>) {
    var creds, port := LatestCreds(cs), LatestPort(cs);
    && s.generation == Sessions(cs) && s.peer == LatestPeer(cs)
    && s.haveCreds == creds.Some? && (s.id, s.token) == (if creds.Some? then creds.value else ([], []))
    && s.port == OrZero(port) && s.portGen == if port.Some? then Sessions(cs) else 0
  }

  /** After any changes, a new session, credentials good or bad and ports of any generation, in any order. */
  lemma {:induction false} StateIsLatest(cs: seq<Change>)
    ensures Holds(After(ZERO, cs), cs)
  {
    if cs != [] { StateIsLatest(cs[..|cs| - 1]); }
  }

  // ----- the same of the senders' world -------------------------------------------------------

  /** The change an action makes. */
  function Makes(w: World, a: Action): seq<Change> {
    match a
    case Session => [Begun]
    case Credentials(creds, peer) => [Told(creds, peer)]
    case Command => []
    case Step(k, _) =>
      if k < |w.senders| && w.senders[k].Publishing? then [Resolved(w.senders[k].snap.generation, w.senders[k].port)]
      else []
  }

  function Changes(w: World, actions: seq<Action>): seq<Change>
    decreases |actions|
  {
    if actions == [] then [] else Makes(w, actions[0]) + Changes(Next(w, actions[0]), actions[1..])
  }

  lemma {:induction false} AfterConcat(s: State, a: seq<Change>, b: seq<Change>)
    ensures After(s, a + b) == After(After(s, a), b)
    decreases |b|
  {
    if b == [] {
      assert a + b == a;
    } else {
      assert (a + b)[..|a + b| - 1] == a + b[..|b| - 1];
      AfterConcat(s, a, b[..|b| - 1]);
    }
  }

  lemma OneAction(w: World, a: Action)
    ensures Next(w, a).state == After(w.state, Makes(w, a))
  {
    var cs := Makes(w, a);
    if cs != [] { assert cs[..0] == []; assert After(w.state, cs) == Changed(After(w.state, []), cs[0]); }
  }

  lemma {:induction false} RunChanges(w: World, actions: seq<Action>)
    ensures Run(w, actions).state == After(w.state, Changes(w, actions))
    decreases |actions|
  {
    if actions != [] {
      hide Next, Makes, Changed;
      OneAction(w, actions[0]);
      RunChanges(Next(w, actions[0]), actions[1..]);
      AfterConcat(w.state, Makes(w, actions[0]), Changes(Next(w, actions[0]), actions[1..]));
    }
  }

  /** A sender that finds a port publishes that port under the generation it began in, and goes on with it. */
  lemma FoundIsPublished(w: World, k: nat, found: nat, any: nat)
    requires k < |w.senders| && w.senders[k].Resolving? && found != 0
    ensures var w' := Next(Next(w, Step(k, found)), Step(k, any));
            var snap := w.senders[k].snap;
            && k < |w'.senders| && w'.senders[k] == Guarding(snap, found, Query(snap.generation, snap.id))
            && w'.state == if snap.generation == w.state.generation
                           then w.state.(port := found, portGen := snap.generation) else w.state
  {
  }

  /** In every interleaving of sessions, requests and senders the state is the latest of each that still stands. */
  lemma RunHoldsLatest(actions: seq<Action>)
    ensures Holds(Run(BOOT, actions).state, Changes(BOOT, actions))
  {
    RunChanges(BOOT, actions);
    StateIsLatest(Changes(BOOT, actions));
  }
}
