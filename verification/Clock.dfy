/** Clock arithmetic (src/raop_clock.c): NTP time stamps and the lowest-round-trip offset filter. */
module Clocks {
  import opened Words

  const NANO: int := 1_000_000_000
  /** The odd part of a second: NANO is 512 times this. */
  const FIFTHS: int := 1_953_125

  /** Times the conversions are made for: below 2^32 seconds. */
  type Nanos = t: int | 0 <= t < 0x1_0000_0000 * 1_000_000_000

  function Fraction(f: int): (fixed: int)
    requires 0 <= f < NANO
    ensures 0 <= fixed < WRAP32
    ensures fixed * NANO <= f * WRAP32 < (fixed + 1) * NANO
  {
    f * WRAP32 / NANO
  }

  function FractionBack(fixed: int): (f: int)
    requires 0 <= fixed < WRAP32
    ensures 0 <= f < NANO
    ensures f * WRAP32 <= fixed * NANO < (f + 1) * WRAP32
  {
    fixed * NANO / WRAP32
  }

  /** ntp_from_ns for local time plus offset; a negative sum counts as zero. */
  function NtpFromNs(mono: int, offset: int): (ntp: Word64)
    requires mono + offset < WRAP32 * NANO
  {
    var t := Max(mono + offset, 0);
    assert 0 <= t / NANO < WRAP32;
    t / NANO * WRAP32 + Fraction(t % NANO)
  }

  function NsFromNtp(ntp: Word64): (t: int)
    ensures 0 <= t < WRAP32 * NANO
  {
    assert 0 <= ntp / WRAP32 < WRAP32;
    ntp / WRAP32 * NANO + FractionBack(ntp % WRAP32)
  }

  /** The fraction comes back exactly, or one nanosecond low. */
  lemma FractionRoundTrip(f: int)
    requires 0 <= f < NANO
    ensures FractionBack(Fraction(f)) == if f * WRAP32 % NANO == 0 then f else f - 1
  {
    var fixed := Fraction(f);
    var back := FractionBack(fixed);
    assert back * WRAP32 <= f * WRAP32;
    assert (f - 1) * WRAP32 <= fixed * NANO < (back + 1) * WRAP32;
    assert f - 1 <= back <= f;
    var rest := f * WRAP32 % NANO;
    assert f * WRAP32 == fixed * NANO + rest;
  }

  /** 2^32 and a second share only powers of two: 1241897 * 2^23 is one more than a multiple of 1953125. */
  lemma DividesIff(f: int)
    ensures f * WRAP32 % NANO == 0 <==> f % FIFTHS == 0
  {
    if f % FIFTHS == 0 {
      var k := f / FIFTHS;
      assert f * WRAP32 == k * 0x80_0000 * NANO;
      DivModIs(f * WRAP32, NANO, k * 0x80_0000, 0);
    }
    if f * WRAP32 % NANO == 0 {
      var k := f * WRAP32 / NANO;
      assert f * 0x80_0000 == k * FIFTHS;
      assert f == (1_241_897 * k - 5_333_907 * f) * FIFTHS;
      DivModIs(f, FIFTHS, 1_241_897 * k - 5_333_907 * f, 0);
    }
  }

  /** Nanoseconds to NTP and back: the same time, or one nanosecond less; exactly the same just for multiples of 5^9. */
  lemma NtpRoundTrip(t: Nanos)
    ensures NsFromNtp(NtpFromNs(t, 0)) == if t % FIFTHS == 0 then t else t - 1
  {
    var sec, f := t / NANO, t % NANO;
    var fixed := Fraction(f);
    DivModIs(sec * WRAP32 + fixed, WRAP32, sec, fixed);
    FractionRoundTrip(f);
    DividesIff(f);
    DivModIs(t, FIFTHS, sec * 512 + f / FIFTHS, f % FIFTHS);
  }

  // ----- the offset filter ------------------------------------------------------------------

  datatype Clock = Clock(offset: int, bestRtt: int, haveOffset: bool)

  const UNSET := Clock(0, 0xFFFF_FFFF_FFFF_FFFF, false)

  /** One exchange: local send time, the remote time stamp, local receive time. */
  datatype Sample = Sample(sent: nat, remote: Word64, received: nat)

  predicate Usable(x: Sample) { x.received >= x.sent }

  function Rtt(x: Sample): int { x.received - x.sent }

  function Estimate(x: Sample): int { NsFromNtp(x.remote) - (x.sent + x.received) / 2 }

  /** clock_timing_reply */
  function Reply(c: Clock, x: Sample): Clock {
    if !Usable(x) || (c.haveOffset && Rtt(x) >= c.bestRtt) then c else Clock(Estimate(x), Rtt(x), true)
  }

  function Filtered(xs: seq<Sample>): Clock {
    if xs == [] then UNSET else Reply(Filtered(xs[..|xs| - 1]), xs[|xs| - 1])
  }

  /** The first of the usable samples with the smallest round trip. */
  ghost predicate FirstBest(xs: seq<Sample>, k: nat) {
    && k < |xs| && Usable(xs[k])
    && (forall i :: 0 <= i < |xs| && Usable(xs[i]) ==> Rtt(xs[k]) <= Rtt(xs[i]))
    && (forall i :: 0 <= i < k && Usable(xs[i]) ==> Rtt(xs[k]) < Rtt(xs[i]))
  }

  /** Over every run of replies the filter holds the estimate of that sample, and nothing while no sample is usable. */
  lemma {:induction false} FilterKeepsFirstBest(xs: seq<Sample>)
    ensures !Filtered(xs).haveOffset ==>
              Filtered(xs) == UNSET && forall i :: 0 <= i < |xs| ==> xs[i].received < xs[i].sent
    ensures Filtered(xs).haveOffset ==>
              exists k: nat :: FirstBest(xs, k) && Filtered(xs) == Clock(Estimate(xs[k]), Rtt(xs[k]), true)
  {
    hide Estimate;
    if xs != [] {
      var ys, x := xs[..|xs| - 1], xs[|xs| - 1];
      FilterKeepsFirstBest(ys);
      assert forall i :: 0 <= i < |ys| ==> xs[i] == ys[i];
      if Filtered(xs) != Filtered(ys) || !Filtered(ys).haveOffset {
        if Usable(x) { assert FirstBest(xs, |xs| - 1); }
      } else {
        var k: nat :| FirstBest(ys, k) && Filtered(ys) == Clock(Estimate(ys[k]), Rtt(ys[k]), true);
        assert Usable(x) ==> Rtt(x) >= Rtt(ys[k]);
        assert FirstBest(xs, k);
      }
    }
  }

  /** The remote clock runs `ahead` of the local one, and was read while the exchange was under way. */
  ghost predicate Honest(x: Sample, ahead: int) {
    exists at: int :: 0 <= at + ahead < WRAP32 * NANO && ReadAt(x, ahead, at)
  }

  predicate ReadAt(x: Sample, ahead: int, at: int)
    requires at + ahead < WRAP32 * NANO
  {
    x.sent <= at <= x.received && x.remote == NtpFromNs(at, ahead)
  }

  lemma OneEstimate(x: Sample, ahead: int)
    requires Honest(x, ahead)
    ensures -(Rtt(x) / 2) - 1 <= Estimate(x) - ahead <= Rtt(x) / 2 + 1
  {
    var at: int :| 0 <= at + ahead < WRAP32 * NANO && ReadAt(x, ahead, at);
    NtpRoundTrip(at + ahead);
    assert NtpFromNs(at, ahead) == NtpFromNs(at + ahead, 0);
  }

  /** With a remote clock at constant offset, the estimate is within half the best round trip, plus one nanosecond. */
  lemma FilterIsAccurate(xs: seq<Sample>, ahead: int)
    requires forall i :: 0 <= i < |xs| && Usable(xs[i]) ==> Honest(xs[i], ahead)
    ensures var c := Filtered(xs);
            c.haveOffset ==> -(c.bestRtt / 2) - 1 <= c.offset - ahead <= c.bestRtt / 2 + 1
  {
    hide Estimate, Filtered, NtpFromNs;
    FilterKeepsFirstBest(xs);
    if Filtered(xs).haveOffset {
      var k: nat :| FirstBest(xs, k) && Filtered(xs) == Clock(Estimate(xs[k]), Rtt(xs[k]), true);
      OneEstimate(xs[k], ahead);
    }
  }

  class RaopClock {
    var offset: int
    var bestRtt: int
    var haveOffset: bool

    ghost function View(): Clock
      reads this
    {
      Clock(offset, bestRtt, haveOffset)
    }

    constructor ()
      ensures View() == Filtered([])
    {
      offset, bestRtt, haveOffset := 0, 0xFFFF_FFFF_FFFF_FFFF, false;
    }

    method TimingReply(x: Sample)
      modifies this
      ensures View() == Reply(old(View()), x)
    {
      if x.received < x.sent { return; }
      var rtt := x.received - x.sent;
      if haveOffset && rtt >= bestRtt { return; }
      var mid := (x.sent + x.received) / 2;
      offset := NsFromNtp(x.remote) - mid;
      bestRtt, haveOffset := rtt, true;
    }
  }
}
