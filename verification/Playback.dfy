/**
 The player's side of the jitter buffer (src/session.c): the deadline rule that decides
 between concealing and stalling, and what a resync to the live edge achieves.
 */
module Playback {
  import opened Words
  import opened JitterModel

  const START_FILL_FRAMES: int := 22050
  /** The SDP parser accepts no longer frames. */
  const MAX_FRAME_LENGTH: nat := 16384

  /** How many packets past a missing one session_deadline looks for a held one. */
  function ConcealWindow(framesPerPacket: nat): (w: nat)
    ensures 1 <= w < SLOTS
  {
    var packets := START_FILL_FRAMES / (if framesPerPacket > 0 then framesPerPacket else 1);
    Min(if packets < 1 then 1 else packets, SLOTS - 1)
  }

  /** The window covers n packets exactly when their frames fit the start fill. */
  lemma WindowCovers(framesPerPacket: nat, n: nat)
    requires 1 < n < SLOTS
    ensures ConcealWindow(framesPerPacket) >= n <==> n * framesPerPacket <= START_FILL_FRAMES
  {
    if framesPerPacket > 0 { QuotientAtLeast(START_FILL_FRAMES, framesPerPacket, n); }
  }

  /** A missing number is past its deadline once a held packet lies within the window after it. */
  ghost predicate PastDeadline(j: Jitter, window: nat) {
    exists e :: j.cursor < e <= j.cursor + window && e in j.held
  }

  ghost function PlayerPop(j: Jitter, window: nat): (Jitter, Event) {
    PopStep(j, PastDeadline(j, window))
  }

  ghost predicate Stalled(j: Jitter, window: nat) {
    PlayerPop(j, window).1.Stall?
  }

  /** The event of the i-th pop from now on, with no input in between. */
  ghost function PlayAt(j: Jitter, window: nat, i: nat): Event
    decreases i
  {
    if i == 0 then PlayerPop(j, window).1 else PlayAt(PlayerPop(j, window).0, window, i - 1)
  }

  ghost predicate Lapped(j: Jitter) {
    ResyncStep(j).1.Resynced?
  }

  /** The contiguous held run that ends at the highest number held. */
  ghost function LiveEdge(j: Jitter): (run: (nat, nat))
    requires Lapped(j)
    ensures j.cursor <= run.0 && run.0 + RESYNC_MIN_RUN <= run.1 + 1
    ensures j.cursor + RESYNC_BEHIND <= run.1
    ensures forall e :: run.0 <= e <= run.1 ==> e in j.held
    ensures run.0 == j.cursor || run.0 - 1 !in j.held
    ensures forall e :: e in j.held ==> e <= run.1
  {
    var live := Ahead(j.held.Keys, j.cursor);
    var hi := Highest(live);
    (RunStart(live, j.cursor, hi), hi)
  }

  /** The highest number held, and the seven below it, all at or after the cursor. */
  ghost predicate FreshRun(j: Jitter, hi: nat) {
    && (forall e :: e in j.held && e >= j.cursor ==> e <= hi)
    && hi >= j.cursor + RESYNC_BEHIND
    && (forall e :: hi - RESYNC_MIN_RUN < e <= hi ==> e in j.held)
  }

  /** A resync fires exactly when the eight highest numbers up to one at least 128 ahead are all held. */
  lemma ResyncFiresIff(j: Jitter)
    ensures Lapped(j) <==> exists hi :: FreshRun(j, hi)
  {
    var live := Ahead(j.held.Keys, j.cursor);
    if hi: nat :| FreshRun(j, hi) {
      assert hi in live;
      assert Highest(live) == hi;
      var start := RunStart(live, j.cursor, hi);
      assert start > hi - RESYNC_MIN_RUN + 1 ==> start - 1 in live;
    }
    if Lapped(j) { assert FreshRun(j, LiveEdge(j).1); }
  }

  /** After a stall, with a window of at least the preroll, a resync lands exactly on the preroll. */
  lemma ResyncLandsOnPreroll(j: Jitter, window: nat)
    requires window >= RESYNC_PREROLL && Stalled(j, window) && Lapped(j)
    ensures var (start, hi) := LiveEdge(j);
            && ResyncStep(j).0.cursor == start - RESYNC_PREROLL > j.cursor
            && ResyncStep(j).0.held == j.held
  {
    var (start, hi) := LiveEdge(j);
    assert start in j.held;
  }

  /** From the preroll on, every pop succeeds until the run has been played in full. */
  lemma {:induction false} RunPlaysThrough(j: Jitter, window: nat, start: nat, hi: nat, i: nat)
    requires window >= RESYNC_PREROLL
    requires start - RESYNC_PREROLL <= j.cursor && j.cursor + i <= hi
    requires start <= hi < start + SLOTS - RESYNC_PREROLL
    requires forall e :: Max(start, j.cursor) <= e <= hi ==> e in j.held
    ensures var event := PlayAt(j, window, i);
            && (event.Data? || event.Conceal?) && event.ext == j.cursor + i
            && (j.cursor + i >= start ==> event == Data(j.cursor + i, j.held[j.cursor + i]))
    decreases i
  {
    OnePopKeepsRun(j, window, start, hi);
    if i > 0 { RunPlaysThrough(PlayerPop(j, window).0, window, start, hi, i - 1); }
  }

  lemma OnePopKeepsRun(j: Jitter, window: nat, start: nat, hi: nat)
    requires window >= RESYNC_PREROLL
    requires start - RESYNC_PREROLL <= j.cursor <= hi
    requires start <= hi < start + SLOTS - RESYNC_PREROLL
    requires forall e :: Max(start, j.cursor) <= e <= hi ==> e in j.held
    ensures var (j', event) := PlayerPop(j, window);
            && (event.Data? || event.Conceal?) && event.ext == j.cursor && j'.cursor == j.cursor + 1
            && (event.Data? <==> j.cursor in j.held)
            && (forall e :: Max(start, j.cursor + 1) <= e <= hi ==> e in j'.held && j'.held[e] == j.held[e])
  {
    if j.cursor !in j.held {
      assert j.cursor < start && start in j.held;
      forall e | start <= e <= hi ensures e !in Rivals(j.held, j.cursor) {
        assert e - j.cursor < SLOTS;
      }
    }
  }

  lemma QuotientAtLeast(a: nat, b: nat, q: nat)
    requires b > 0
    ensures a / b >= q <==> a >= q * b
  {
    if a / b >= q { assert a >= (a / b) * b >= q * b; }
    if a / b < q { assert a < (a / b + 1) * b <= q * b; }
  }
}
