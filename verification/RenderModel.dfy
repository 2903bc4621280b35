/**
 The now-playing state (src/npstate.c) and the render worker that follows it (src/nprender.c).
 Publishers, wakes and the worker's sections interleave freely; whether a render fails before
 drawing is a free choice.
 */
module RenderModel {
  import opened Words

  const LINE_CAP: nat := 255

  datatype Track = Track(title: seq<Byte>, artist: seq<Byte>, album: seq<Byte>)

  const NO_TRACK := Track([], [], [])

  datatype Np = Np(gen: nat, artSerial: nat, track: Track, haveArt: bool, playing: bool)

  const BLANK := Np(0, 0, NO_TRACK, false, false)

  function Cut(s: seq<Byte>): seq<Byte> { if |s| > LINE_CAP then s[..LINE_CAP] else s }

  datatype Publish = Meta(track: Track) | Art | SetPlaying(on: bool) | Reset

  /** np_publish_meta, np_publish_art, np_set_playing and np_reset */
  function Published(n: Np, p: Publish): Np {
    match p
    case Meta(t) =>
      if n.track == t then n else n.(gen := n.gen + 1, track := Track(Cut(t.title), Cut(t.artist), Cut(t.album)))
    case Art => n.(haveArt := true, artSerial := n.artSerial + 1)
    case SetPlaying(on) => n.(playing := on)
    case Reset => n.(gen := n.gen + 1, track := NO_TRACK, haveArt := false)
  }

  datatype Key = Key(gen: nat, artSerial: nat, playing: bool)

  function KeyOf(n: Np): Key { Key(n.gen, n.artSerial, n.playing) }

  predicate SameContent(a: Np, b: Np) {
    a.track == b.track && a.haveArt == b.haveArt && a.playing == b.playing
  }

  // ----- the worker -------------------------------------------------------------------------

  datatype Layout = NoLayout | Splash | Card

  datatype Mode = SplashMode | Flash | Draw

  /** The worker's own variables; seen is None before the first dispatch. */
  datatype Drawn = Drawn(seen: Option<Key>, layout: Layout, lastGen: nat, lastArt: Option<bool>)

  const UNDRAWN := Drawn(None, NoLayout, 0, None)

  predicate Redundant(d: Drawn, snap: Np) { d.seen == Some(KeyOf(snap)) }

  function ModeFor(d: Drawn, snap: Np): Mode {
    if !snap.playing then SplashMode
    else if d.layout != Card || snap.gen != d.lastGen || d.lastArt != Some(snap.haveArt) then Flash
    else Draw
  }

  function Dispatched(d: Drawn, snap: Np): Drawn {
    if !snap.playing then d.(seen := Some(KeyOf(snap)), layout := Splash)
    else Drawn(Some(KeyOf(snap)), Card, snap.gen, Some(snap.haveArt))
  }

  datatype Stage = Waiting | Debouncing | Reading | Rendering(snap: Np) | Exited

  /** A render that drew: what it drew, how, and what was on the screen before. */
  datatype Paint = Paint(snap: Np, mode: Mode, over: Option<Np>)

  /**
   `unwoken` says some publish has had no wake after it; `shown` is the last snapshot drawn, `failed`
   the key of the last render if it failed, and `quiet` that nothing has been published since the start.
   */
  datatype World = World(np: Np, dirty: bool, running: bool, stage: Stage, drawn: Drawn,
                         unwoken: bool, shown: Option<Np>, failed: Option<Key>, quiet: bool, paints: seq<Paint>)

  function Started(np: Np, paintOnStart: bool): World {
    World(np, paintOnStart, true, Waiting, UNDRAWN, false, None, None, !paintOnStart, [])
  }

  datatype Action = Announce(what: Publish) | Wake | StopWorker | Step(ok: bool)

  function WorkerStep(w: World, ok: bool): World {
    match w.stage
    case Waiting => if !w.running then w.(stage := Exited) else if w.dirty then w.(stage := Debouncing) else w
    case Debouncing => w.(dirty := false, stage := Reading)
    case Reading => w.(stage := if Redundant(w.drawn, w.np) then Waiting else Rendering(w.np))
    case Rendering(snap) =>
      if ok then
        w.(stage := Waiting, drawn := Dispatched(w.drawn, snap), shown := Some(snap), failed := None,
           paints := w.paints + [Paint(snap, ModeFor(w.drawn, snap), w.shown)])
      else w.(stage := Waiting, failed := Some(KeyOf(snap)))
    case Exited => w
  }

  function Next(w: World, a: Action): World {
    match a
    case Announce(p) => w.(np := Published(w.np, p), unwoken := true, quiet := false)
    case Wake => w.(dirty := true, unwoken := false)
    case StopWorker => w.(running := false, dirty := true)
    case Step(ok) => WorkerStep(w, ok)
  }

  function Run(w: World, actions: seq<Action>): World
    decreases |actions|
  {
    if actions == [] then w else Run(Next(w, actions[0]), actions[1..])
  }

  // ----- the key tells states apart ---------------------------------------------------------

  /** b is a later state than a: the counters have not gone back, and what they guard is unchanged unless they moved. */
  predicate Leads(a: Np, b: Np) {
    && a.gen <= b.gen && a.artSerial <= b.artSerial
    && (a.gen == b.gen ==> a.track == b.track)
    && (a.gen == b.gen && a.artSerial == b.artSerial ==> a.haveArt == b.haveArt)
  }

  function PublishedAll(n: Np, ps: seq<Publish>): Np
    decreases |ps|
  {
    if ps == [] then n else PublishedAll(Published(n, ps[0]), ps[1..])
  }

  lemma LeadsOn(a: Np, b: Np, p: Publish)
    requires Leads(a, b)
    ensures Leads(a, Published(b, p))
  {
  }

  lemma {:induction false} LaterLeads(a: Np, b: Np, ps: seq<Publish>)
    requires Leads(a, b)
    ensures Leads(a, PublishedAll(b, ps))
    decreases |ps|
  {
    if ps != [] {
      LeadsOn(a, b, ps[0]);
      LaterLeads(a, Published(b, ps[0]), ps[1..]);
    }
  }

  /** Two states of one history with equal keys show the same thing, so skipping the second is sound. */
  lemma EqualKeysShowTheSame(n: Np, ps: seq<Publish>)
    requires KeyOf(PublishedAll(n, ps)) == KeyOf(n)
    ensures SameContent(n, PublishedAll(n, ps))
  {
    LaterLeads(n, n, ps);
  }

  // ----- every run --------------------------------------------------------------------------

  ghost predicate Remembers(w: World) {
    match w.shown
    case None => w.drawn == UNDRAWN
    case Some(s) =>
      && w.drawn.seen == Some(KeyOf(s)) && Leads(s, w.np)
      && w.drawn.layout == (if s.playing then Card else Splash)
      && (s.playing ==> w.drawn.lastGen == s.gen && w.drawn.lastArt == Some(s.haveArt))
  }

  predicate Behind(w: World) { w.dirty || w.unwoken }

  ghost predicate Settled(w: World) {
    w.quiet || w.drawn.seen == Some(KeyOf(w.np)) || w.failed == Some(KeyOf(w.np))
  }

  /** How a paint is made: a splash when not playing, a light draw over a card of the same content, else a flash. */
  ghost predicate PaintsRight(p: Paint) {
    && (p.mode == SplashMode <==> !p.snap.playing)
    && (p.mode == Draw <==> p.snap.playing && p.over.Some? && p.over.value.playing
                            && p.over.value.gen == p.snap.gen && p.over.value.haveArt == p.snap.haveArt)
    && (p.mode == Draw ==> p.over.value.track == p.snap.track)
  }

  /** Each paint is over the one before it, and of something else. */
  ghost predicate Follows(paints: seq<Paint>) {
    forall i :: 0 < i < |paints| ==>
                  paints[i].over == Some(paints[i - 1].snap) && KeyOf(paints[i].snap) != KeyOf(paints[i - 1].snap)
  }

  ghost predicate Inv(w: World) {
    && Remembers(w)
    && (w.stage.Rendering? ==> Leads(w.stage.snap, w.np) && (w.shown.Some? ==> Leads(w.shown.value, w.stage.snap)))
    && (w.stage.Rendering? && !Behind(w) ==> w.stage.snap == w.np)
    && (w.stage.Waiting? && !Behind(w) ==> Settled(w))
    && (forall i :: 0 <= i < |w.paints| ==> PaintsRight(w.paints[i]))
    && Follows(w.paints) && w.shown == (if w.paints == [] then None else Some(w.paints[|w.paints| - 1].snap))
    && (w.stage.Rendering? ==> w.drawn.seen != Some(KeyOf(w.stage.snap)))
  }

  lemma AnnounceKeepsInv(w: World, p: Publish)
    requires Inv(w)
    ensures Inv(Next(w, Announce(p)))
  {
    hide Leads, Published;
    if w.shown.Some? { LeadsOn(w.shown.value, w.np, p); }
    if w.stage.Rendering? { LeadsOn(w.stage.snap, w.np, p); }
  }

  lemma RenderKeepsInv(w: World, ok: bool)
    requires Inv(w) && w.stage.Rendering?
    ensures Inv(WorkerStep(w, ok))
  {
    var w', snap := WorkerStep(w, ok), w.stage.snap;
    if ok {
      var paint := Paint(snap, ModeFor(w.drawn, snap), w.shown);
      assert PaintsRight(paint);
      hide PaintsRight, Leads, ModeFor;
      assert forall i :: 0 <= i < |w.paints| ==> w'.paints[i] == w.paints[i];
      assert w'.paints[|w.paints|] == paint;
    }
  }

  lemma WorkerKeepsInv(w: World, ok: bool)
    requires Inv(w) && !w.stage.Rendering?
    ensures Inv(WorkerStep(w, ok))
  {
    hide PaintsRight, Follows, Leads;
    LeadsItself(w.np);
  }

  lemma LeadsItself(n: Np)
    ensures Leads(n, n)
  {
  }

  lemma StepKeepsInv(w: World, a: Action)
    requires Inv(w)
    ensures Inv(Next(w, a))
  {
    match a
    case Announce(p) => AnnounceKeepsInv(w, p);
    case Wake =>
    case StopWorker =>
    case Step(ok) =>
      hide Inv;
      if w.stage.Rendering? { RenderKeepsInv(w, ok); } else { WorkerKeepsInv(w, ok); }
  }

  lemma {:induction false} RunKeepsInv(w: World, actions: seq<Action>)
    requires Inv(w)
    ensures Inv(Run(w, actions))
    decreases |actions|
  {
    if actions != [] {
      StepKeepsInv(w, actions[0]);
      RunKeepsInv(Next(w, actions[0]), actions[1..]);
    }
  }

  /**
   Once every publish has been followed by a wake and the worker waits with nothing to do, the last
   thing drawn shows the current state, or the last render was of the current state and failed, or nothing was
   ever published to a worker that was not asked to paint on start.
   */
  lemma QuiescentIsCurrent(np: Np, paintOnStart: bool, actions: seq<Action>)
    requires var w := Run(Started(np, paintOnStart), actions); w.stage.Waiting? && !w.dirty && !w.unwoken
    ensures var w := Run(Started(np, paintOnStart), actions);
            || (w.shown.Some? && KeyOf(w.shown.value) == KeyOf(w.np) && SameContent(w.shown.value, w.np))
            || w.failed == Some(KeyOf(w.np))
            || (w.quiet && !paintOnStart)
  {
    RunKeepsInv(Started(np, paintOnStart), actions);
    QuietOnlyAtStart(Started(np, paintOnStart), actions);
  }

  lemma {:induction false} QuietOnlyAtStart(w: World, actions: seq<Action>)
    ensures Run(w, actions).quiet ==> w.quiet
    decreases |actions|
  {
    if actions != [] { QuietOnlyAtStart(Next(w, actions[0]), actions[1..]); }
  }

  /**
   In every run each paint is made in the one right way, over the paint before it, and never shows the same
   key twice in a row.
   */
  lemma PaintsAreRight(np: Np, paintOnStart: bool, actions: seq<Action>)
    ensures var paints := Run(Started(np, paintOnStart), actions).paints;
            Follows(paints) && forall i :: 0 <= i < |paints| ==> PaintsRight(paints[i])
  {
    RunKeepsInv(Started(np, paintOnStart), actions);
  }
}
