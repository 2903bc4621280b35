/** The locked now-playing state of src/npstate.c and one pass of the worker loop of src/nprender.c. */
module Renders {
  import opened Words
  import opened RenderModel

  class NowPlayingState {
    var gen: nat
    var artSerial: nat
    var title: seq<Byte>
    var artist: seq<Byte>
    var album: seq<Byte>
    var haveArt: bool
    var playing: bool

    function View(): Np
      reads this
    {
      Np(gen, artSerial, Track(title, artist, album), haveArt, playing)
    }

    constructor ()
      ensures View() == BLANK
    {
      gen, artSerial, title, artist, album, haveArt, playing := 0, 0, [], [], [], false, false;
    }

    method PublishMeta(m: Track)
      modifies this
      ensures View() == Published(old(View()), Meta(m))
    {
      if title != m.title || artist != m.artist || album != m.album {
        gen := gen + 1;
        title, artist, album := Cut(m.title), Cut(m.artist), Cut(m.album);
      }
    }

    method PublishArt()
      modifies this
      ensures View() == Published(old(View()), Art)
    {
      haveArt := true;
      artSerial := artSerial + 1;
    }

    method TurnPlaying(on: bool)
      modifies this
      ensures View() == Published(old(View()), SetPlaying(on))
    {
      playing := on;
    }

    method Clear()
      modifies this
      ensures View() == Published(old(View()), Reset)
    {
      gen := gen + 1;
      title, artist, album := [], [], [];
      haveArt := false;
    }
  }

  class RenderWorker {
    var seen: Option<Key>
    var layout: Layout
    var lastGen: nat
    var lastArt: Option<bool>

    ghost function View(): Drawn
      reads this
    {
      Drawn(seen, layout, lastGen, lastArt)
    }

    constructor ()
      ensures View() == UNDRAWN
    {
      seen, layout, lastGen, lastArt := None, NoLayout, 0, None;
    }

    /**
     The pass after np_get: nothing for a key already dispatched; otherwise the renderer is started
     in the chosen mode, and only a render that got that far is remembered.
     */
    method Pass(snap: Np, ok: bool) returns (mode: Option<Mode>)
      modifies this
      ensures mode == if Redundant(old(View()), snap) then None else Some(ModeFor(old(View()), snap))
      ensures View() == if mode.Some? && ok then Dispatched(old(View()), snap) else old(View())
    {
      if seen == Some(KeyOf(snap)) { return None; }
      if !snap.playing {
        mode := Some(SplashMode);
        if ok { layout := Splash; }
      } else {
        var flash := layout != Card || snap.gen != lastGen || lastArt != Some(snap.haveArt);
        mode := Some(if flash then Flash else Draw);
        if ok { layout, lastGen, lastArt := Card, snap.gen, Some(snap.haveArt); }
      }
      if ok { seen := Some(KeyOf(snap)); }
    }
  }
}
