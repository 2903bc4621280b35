/**
 Extension of 16-bit RTP sequence numbers and 32-bit RTP timestamps to 64 bits
 (src/seqext.c). Extended sequence numbers are naturals: at most 32767 is added per
 packet, so the source's 64-bit counter does not wrap in practice. The timestamp
 anchor is kept modulo 2^64, because there the source's cast of a negative value to
 uint64_t does happen.
 */
module SequenceExtension {
  import opened Words

  /** seqext_seq's verdict on one wire number against the current reference. */
  function ExtendSeq(ref: nat, wire: Word16): (ext: Option<nat>)
    // the result, when there is one, is the unique number with these low bits near ref
    ensures ext.Some? ==> ext.value % WRAP16 == wire && -32767 <= ext.value - ref <= 32767
    // and it is refused only when no such number exists
    ensures ext.None? ==> forall t: nat {:trigger t % WRAP16} ::
                            t % WRAP16 == wire ==> t - ref > 32767 || ref - t > 32767
  {
    var d := Signed16(wire - ref % WRAP16);
    SignedDistance(ref, wire);
    if d == -32768 || ref + d < 0 then None else Some(ref + d)
  }

  /** Numbers with the same low bits differ from ref by the signed distance, up to whole wraps. */
  lemma SignedDistance(ref: nat, wire: Word16)
    ensures var d := Signed16(wire - ref % WRAP16);
            && (ref + d) % WRAP16 == wire
            && forall t: nat {:trigger t % WRAP16} ::
                 t % WRAP16 == wire ==> t == ref + d || t - ref >= d + WRAP16 || t - ref <= d - WRAP16
  {
    var d := Signed16(wire - ref % WRAP16);
    var q := ref / WRAP16;
    var k := (d - (wire - ref % WRAP16)) / WRAP16;
    assert ref == q * WRAP16 + ref % WRAP16;
    assert d == wire - ref % WRAP16 + k * WRAP16;
    DivModIs(ref + d, WRAP16, q + k, wire);
    forall t: nat {:trigger t % WRAP16} | t % WRAP16 == wire
      ensures t == ref + d || t - ref >= d + WRAP16 || t - ref <= d - WRAP16
    {
      var p := t / WRAP16;
      assert t - (ref + d) == (p - q - k) * WRAP16;
    }
  }

  /** The reference only ever moves forward. */
  function Advance(ref: nat, ext: Option<nat>): nat {
    if ext.Some? && ext.value > ref then ext.value else ref
  }

  /** The anchor seqext_ts computes from the old anchor and a wire timestamp. */
  function ExtendTs(anchor: Word64, wire: Word32): (v: Word64)
    // whatever the anchor, the low half of the result is the wire timestamp
    ensures v % WRAP32 == wire
  {
    var d := Signed32(wire - anchor % WRAP32);
    LowHalf(anchor + d, wire);
    (anchor + d) % WRAP64
  }

  /** A true timestamp is recovered from its low half exactly if it is less than half a wrap from the anchor. */
  lemma TsRecoveredIffNear(anchor: Word64, t: Word64)
    ensures ExtendTs(anchor, t % WRAP32) == t <==> (t - anchor + 0x8000_0000) % WRAP64 < WRAP32
  {
    var d := Signed32(t % WRAP32 - anchor % WRAP32);
    var x, k := t - anchor + 0x8000_0000, (t - anchor - d) / WRAP32;
    assert t - anchor - d == k * WRAP32 by { SameLowHalf(t, anchor, d); }
    var y := d + 0x8000_0000;
    assert 0 <= y < WRAP32 && x == y + k * WRAP32;
    var q := x / WRAP64;
    assert x % WRAP64 == x - q * WRAP64 && x - q * WRAP64 == y + (k - q * WRAP32) * WRAP32;
    if x % WRAP64 < WRAP32 {
      assert k == q * WRAP32;
      DivModIs(anchor + d, WRAP64, -q, t);
    }
    if (anchor + d) % WRAP64 == t {
      var p := (anchor + d) / WRAP64;
      assert anchor + d == p * WRAP64 + t;
      DivModIs(x, WRAP64, -p, y);
    }
  }

  lemma SameLowHalf(t: int, anchor: int, d: int)
    requires (t % WRAP32 - anchor % WRAP32 - d) % WRAP32 == 0
    ensures t - anchor - d == (t - anchor - d) / WRAP32 * WRAP32
  {
    var a, b, c := t / WRAP32, anchor / WRAP32, (t % WRAP32 - anchor % WRAP32 - d) / WRAP32;
    assert t - anchor - d == (a - b + c) * WRAP32;
    DivModIs(t - anchor - d, WRAP32, a - b + c, 0);
  }

  lemma LowHalf(x: int, wire: Word32)
    requires (x - wire) % WRAP32 == 0
    ensures x % WRAP64 % WRAP32 == wire
  {
    var q, k := x / WRAP64, (x - wire) / WRAP32;
    assert x % WRAP64 == x - q * WRAP64;
    assert x - wire == k * WRAP32;
    DivModIs(x % WRAP64, WRAP32, k - q * WRAP32, wire);
  }

  class Extender {
    var seqRef: nat
    var tsRef: Word64

    constructor (refSeq: Word16, refTs: Word32)
      ensures seqRef == refSeq && tsRef == refTs
    {
      seqRef, tsRef := refSeq, refTs;
    }

    method Rebase(newSeq: Word16, newTs: Word32)
      modifies this
      ensures seqRef == newSeq && tsRef == newTs
    {
      seqRef, tsRef := newSeq, newTs;
    }

    method Seq(wire: Word16) returns (ext: Option<nat>)
      modifies this`seqRef
      ensures ext == ExtendSeq(old(seqRef), wire)
      ensures seqRef == Advance(old(seqRef), ext)
      // a refused packet leaves the reference unchanged
      ensures ext.None? ==> seqRef == old(seqRef)
    {
      var d := Signed16(wire - seqRef % WRAP16);
      if d == -32768 { return None; }
      var candidate := seqRef + d;
      if candidate < 0 { return None; }
      if candidate > seqRef { seqRef := candidate; }
      ext := Some(candidate);
    }

    method Ts(wire: Word32) returns (v: Word64)
      modifies this`tsRef
      ensures v == ExtendTs(old(tsRef), wire)
      ensures tsRef == Max(old(tsRef), v)
    {
      var d := Signed32(wire - tsRef % WRAP32);
      var candidate := tsRef + d;
      v := candidate % WRAP64;
      if v > tsRef { tsRef := v; }
    }
  }

  /** Exactly the numbers within 32767 of the reference are recovered from their low 16 bits. */
  lemma RecoveredIffNear(ref: nat, t: nat)
    ensures ExtendSeq(ref, t % WRAP16) == Some(t) <==> -32767 <= t - ref <= 32767
  {
    if -32767 <= t - ref <= 32767 {
      var ext := ExtendSeq(ref, t % WRAP16);
      assert ext.Some?;
      SameLowBits(ext.value, t);
    }
  }

  lemma SameLowBits(a: nat, b: nat)
    requires a % WRAP16 == b % WRAP16
    requires -WRAP16 < a - b < WRAP16
    ensures a == b
  {
  }

  /** What a receiver sees of a stream of true packet numbers. */
  function OnTheWire(numbers: seq<nat>): (wires: seq<Word16>)
    ensures |wires| == |numbers|
  {
    seq(|numbers|, i requires 0 <= i < |numbers| => numbers[i] % WRAP16)
  }

  /** The numbers the extender reports when the wire numbers are fed to it in order. */
  function ExtendAll(ref: nat, wires: seq<Word16>): (exts: seq<Option<nat>>)
    ensures |exts| == |wires|
    decreases |wires|
  {
    if wires == [] then []
    else
      var ext := ExtendSeq(ref, wires[0]);
      [ext] + ExtendAll(Advance(ref, ext), wires[1..])
  }

  /** The largest of the reference and the given numbers. */
  function Peak(ref: nat, numbers: seq<nat>): nat {
    if numbers == [] then ref
    else Max(Peak(ref, numbers[..|numbers| - 1]), numbers[|numbers| - 1])
  }

  lemma {:induction false} PeakFromFront(ref: nat, numbers: seq<nat>)
    requires numbers != []
    ensures Peak(ref, numbers) == Peak(Max(ref, numbers[0]), numbers[1..])
  {
    if |numbers| > 1 {
      PeakFromFront(ref, numbers[..|numbers| - 1]);
      assert numbers[..|numbers| - 1][1..] == numbers[1..][..|numbers| - 2];
    }
  }

  /** Every packet number lies within 32767 of the largest seen before it. */
  ghost predicate StaysNear(ref: nat, numbers: seq<nat>) {
    forall i :: 0 <= i < |numbers| ==> -32767 <= numbers[i] - Peak(ref, numbers[..i]) <= 32767
  }

  lemma StaysNearFromFront(ref: nat, numbers: seq<nat>)
    requires numbers != []
    ensures StaysNear(ref, numbers) <==>
            -32767 <= numbers[0] - ref <= 32767 && StaysNear(Max(ref, numbers[0]), numbers[1..])
  {
    var ref', rest := Max(ref, numbers[0]), numbers[1..];
    assert numbers[..0] == [];
    forall i | 0 <= i < |rest|
      ensures Peak(ref', rest[..i]) == Peak(ref, numbers[..i + 1])
    {
      PeakFromFront(ref, numbers[..i + 1]);
      assert numbers[..i + 1][1..] == rest[..i];
    }
    if -32767 <= numbers[0] - ref <= 32767 && StaysNear(ref', rest) {
      forall i | 0 <= i < |numbers|
        ensures -32767 <= numbers[i] - Peak(ref, numbers[..i]) <= 32767
      {
        if i > 0 { assert rest[i - 1] == numbers[i]; }
      }
    }
    if StaysNear(ref, numbers) {
      forall i | 0 <= i < |rest|
        ensures -32767 <= rest[i] - Peak(ref', rest[..i]) <= 32767
      {
        assert rest[i] == numbers[i + 1];
      }
    }
  }

  /**
   A stream is recovered exactly, across any number of wraps and reorderings, if and
   only if each number lies within 32767 of the largest seen so far.
   */
  lemma {:induction false} StreamRecoveredIffNear(ref: nat, numbers: seq<nat>)
    ensures ExtendAll(ref, OnTheWire(numbers)) == seq(|numbers|, i requires 0 <= i < |numbers| => Some(numbers[i]))
            <==> StaysNear(ref, numbers)
    decreases |numbers|
  {
    if numbers == [] {
      assert OnTheWire(numbers) == [];
    } else {
      var t, rest := numbers[0], numbers[1..];
      var exts := ExtendAll(ref, OnTheWire(numbers));
      var all := seq(|numbers|, i requires 0 <= i < |numbers| => Some(numbers[i]));
      var tail := seq(|rest|, i requires 0 <= i < |rest| => Some(rest[i]));
      assert OnTheWire(numbers)[1..] == OnTheWire(rest);
      RecoveredIffNear(ref, t);
      StaysNearFromFront(ref, numbers);
      assert all == [Some(t)] + tail;
      if exts[0] == Some(t) {
        StreamRecoveredIffNear(Max(ref, t), rest);
        assert exts[1..] == ExtendAll(Max(ref, t), OnTheWire(rest));
        assert exts == [exts[0]] + exts[1..];
        assert exts == all ==> exts[1..] == tail;
      }
    }
  }
}
