/**
 What the now-playing state (src/npstate.c) is after every history of publishes, and that the render worker
 (src/nprender.c) draws it when woken, sleeps when not, and leaves when stopped.
 */
module RenderRuns {
  import opened Words
  import opened RenderModel

  // ----- the state is what was published last -------------------------------------------------

  /** A line is kept up to 255 bytes. */
  function Kept(t: Track): Track {
    Track(t.title[..Min(|t.title|, 255)], t.artist[..Min(|t.artist|, 255)], t.album[..Min(|t.album|, 255)])
  }

  /** The last track published since the last reset. */
  function LatestTrack(ps: seq<Publish>): Track {
    if ps == [] || ps[|ps| - 1].Reset? then NO_TRACK
    else if ps[|ps| - 1].Meta? then Kept(ps[|ps| - 1].track)
    else LatestTrack(ps[..|ps| - 1])
  }

  /** Art has been published since then. */
  predicate ArtSince(ps: seq<Publish>) {
    ps != [] && !ps[|ps| - 1].Reset? && (ps[|ps| - 1].Art? || ArtSince(ps[..|ps| - 1]))
  }

  predicate LastPlaying(ps: seq<Publish>) {
    ps != [] && if ps[|ps| - 1].SetPlaying? then ps[|ps| - 1].on else LastPlaying(ps[..|ps| - 1])
  }

  function Arts(ps: seq<Publish>): nat {
    if ps == [] then 0 else Arts(ps[..|ps| - 1]) + if ps[|ps| - 1].Art? then 1 else 0
  }

  /** How many resets there were, and tracks other than the one shown at the time. */
  function Changes(ps: seq<Publish>): nat {
    if ps == [] then 0
    else
      var before, p := ps[..|ps| - 1], ps[|ps| - 1];
      Changes(before) + if p.Reset? || (p.Meta? && p.track != LatestTrack(before)) then 1 else 0
  }

  lemma {:induction false} PublishedSnoc(n: Np, ps: seq<Publish>, p: Publish)
    ensures PublishedAll(n, ps + [p]) == Published(PublishedAll(n, ps), p)
    decreases |ps|
  {
    if ps == [] {
      assert [p][1..] == [] && ps + [p] == [p];
    } else {
      assert (ps + [p])[1..] == ps[1..] + [p];
      PublishedSnoc(Published(n, ps[0]), ps[1..], p);
    }
  }

  lemma KeptIsCut(t: Track)
    ensures Kept(t) == Track(Cut(t.title), Cut(t.artist), Cut(t.album))
  {
    assert t.title[..|t.title|] == t.title && t.artist[..|t.artist|] == t.artist && t.album[..|t.album|] == t.album;
  }

  lemma {:induction false} TracksAreShort(ps: seq<Publish>)
    ensures Kept(LatestTrack(ps)) == LatestTrack(ps)
    decreases |ps|
  {
    if ps != [] { TracksAreShort(ps[..|ps| - 1]); }
  }

  /** Texts, art and flag are the last published, and the two counters count what changed them. */
  lemma {:induction false} StateIsLatest(ps: seq<Publish>)
    ensures PublishedAll(BLANK, ps) == Np(Changes(ps), Arts(ps), LatestTrack(ps), ArtSince(ps), LastPlaying(ps))
    decreases |ps|
  {
    if ps != [] {
      var before, p := ps[..|ps| - 1], ps[|ps| - 1];
      assert before + [p] == ps;
      StateIsLatest(before);
      PublishedSnoc(BLANK, before, p);
      TracksAreShort(before);
      if p.Meta? { KeptIsCut(p.track); }
    }
  }

  /** What a run publishes. */
  function Announced(actions: seq<Action>): seq<Publish>
    decreases |actions|
  {
    if actions == [] then []
    else (if actions[0].Announce? then [actions[0].what] else []) + Announced(actions[1..])
  }

  lemma StepPublishes(w: World, a: Action)
    ensures Next(w, a).np == if a.Announce? then Published(w.np, a.what) else w.np
  {
    hide Published, ModeFor, Dispatched, Redundant;
  }

  lemma {:induction false} RunPublishes(w: World, actions: seq<Action>)
    ensures Run(w, actions).np == PublishedAll(w.np, Announced(actions))
    decreases |actions|
  {
    if actions != [] {
      hide Next, Published;
      var rest := Announced(actions[1..]);
      StepPublishes(w, actions[0]);
      RunPublishes(Next(w, actions[0]), actions[1..]);
      if actions[0].Announce? { assert ([actions[0].what] + rest)[1..] == rest; } else { assert [] + rest == rest; }
    }
  }

  // ----- the worker ---------------------------------------------------------------------------

  lemma FourSteps(w: World, a: Action, b: Action, c: Action, d: Action)
    ensures Run(w, [a, b, c, d]) == Next(Next(Next(Next(w, a), b), c), d)
  {
    hide Next;
    assert [a, b, c, d][1..] == [b, c, d] && [b, c, d][1..] == [c, d] && [c, d][1..] == [d] && [d][1..] == [];
    var w1 := Next(w, a);
    var w2 := Next(w1, b);
    var w3 := Next(w2, c);
    assert Run(w3, [d]) == Run(Next(w3, d), []);
    assert Run(w2, [c, d]) == Run(w3, [d]);
    assert Run(w1, [b, c, d]) == Run(w2, [c, d]);
  }

  /** A wake that finds the worker waiting leads to the state at that time being drawn, unless it was drawn last. */
  lemma WakeDraws(np: Np, paintOnStart: bool, actions: seq<Action>)
    requires var w := Run(Started(np, paintOnStart), actions); w.stage.Waiting? && w.running
    ensures var w := Next(Run(Started(np, paintOnStart), actions), Wake);
            var w' := Run(w, [Step(true), Step(true), Step(true), Step(true)]);
            && w'.stage.Waiting? && !w'.dirty
            && if w.shown.Some? && KeyOf(w.shown.value) == KeyOf(w.np) then w'.paints == w.paints
               else w'.shown == Some(w.np) && |w'.paints| == |w.paints| + 1
  {
    hide Run, Leads;
    StartsWell(np, paintOnStart);
    RunKeepsInv(Started(np, paintOnStart), actions);
    var w := Next(Run(Started(np, paintOnStart), actions), Wake);
    FourSteps(w, Step(true), Step(true), Step(true), Step(true));
  }

  lemma StartsWell(np: Np, paintOnStart: bool)
    ensures Inv(Started(np, paintOnStart))
  {
  }

  /** Without a wake the worker stays where it is. */
  lemma SleepsUnwoken(w: World, ok: bool)
    requires w.stage.Waiting? && w.running && !w.dirty
    ensures Next(w, Step(ok)) == w
  {
  }

  function StepsToGo(st: Stage): nat {
    match st
    case Debouncing => 4
    case Reading => 3
    case Rendering(_) => 2
    case Waiting => 1
    case Exited => 0
  }

  function OwnSteps(actions: seq<Action>): nat
    decreases |actions|
  {
    if actions == [] then 0 else (if actions[0].Step? then 1 else 0) + OwnSteps(actions[1..])
  }

  lemma StoppedStep(w: World, a: Action)
    requires !w.running
    ensures var w' := Next(w, a);
            && !w'.running
            && (!a.Step? || w.stage.Exited? ==> w'.stage == w.stage)
            && (a.Step? ==> w.stage.Exited? || StepsToGo(w'.stage) < StepsToGo(w.stage))
  {
    hide Published, ModeFor, Dispatched, Redundant;
  }

  /** Once stopped, whatever else happens, a worker has left after four of its own steps. */
  lemma {:induction false} StopLeaves(w: World, actions: seq<Action>)
    requires !w.running && OwnSteps(actions) >= StepsToGo(w.stage)
    ensures StepsToGo(w.stage) <= 4 && Run(w, actions).stage.Exited?
    decreases |actions|
  {
    if actions != [] {
      hide Next;
      StoppedStep(w, actions[0]);
      StopLeaves(Next(w, actions[0]), actions[1..]);
    }
  }
}
