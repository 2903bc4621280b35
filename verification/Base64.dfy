/**
 Base64 as the receiver reads and writes it (src/b64.c, b64_nopad of src/apple_response.c and the
 size check of src/sdp.c), after section 4 of RFC 4648.
 */
module Base64 {
  import opened Words
  import opened Scan

  type Sextet = v: int | 0 <= v < 64

  const PAD: Byte := 61

  // ----- letters ----------------------------------------------------------------------------

  /** val: None for a byte outside the alphabet. */
  function Val(c: Byte): Option<Sextet> {
    if 65 <= c <= 90 then Some(c - 65)
    else if 97 <= c <= 122 then Some(c - 97 + 26)
    else if 48 <= c <= 57 then Some(c - 48 + 52)
    else if c == 43 then Some(62)
    else if c == 47 then Some(63)
    else None
  }

  /** The alphabet the encoder indexes. */
  function Letter(v: Sextet): (c: Byte)
    ensures Val(c) == Some(v) && !IsBlank(c) && c != PAD
  {
    if v < 26 then 65 + v
    else if v < 52 then 97 + v - 26
    else if v < 62 then 48 + v - 52
    else if v == 62 then 43
    else 47
  }

  /** The alphabet of section 4 of RFC 4648: A to Z, a to z, 0 to 9, plus and slash. */
  lemma LettersOfTheAlphabet(v: Sextet)
    ensures Letter(v) == if v < 26 then 'A' as int + v
                         else if v < 52 then 'a' as int + (v - 26)
                         else if v < 62 then '0' as int + (v - 52)
                         else if v == 62 then '+' as int else '/' as int
  {
  }

  /** Tab, line feed, carriage return and space. */
  predicate IsBlank(c: Byte)
    ensures IsBlank(c) <==> c in {9, 10, 13, 32}
  {
    c == CR || c == LF || c == SP || c == TAB
  }

  function Letters(vs: seq<Sextet>): (text: seq<Byte>)
    ensures |text| == |vs|
  {
    seq(|vs|, i requires 0 <= i < |vs| => Letter(vs[i]))
  }

  // ----- groups of three bytes and four sextets ---------------------------------------------

  function High(b: Byte): Sextet { b / 4 }
  function Mid(b: Byte, c: Byte): Sextet { b % 4 * 16 + c / 16 }
  function Low(c: Byte, d: Byte): Sextet { c % 16 * 4 + d / 64 }
  function Last(d: Byte): Sextet { d % 64 }

  function Need(n: nat): nat { n / 3 * 4 + (if n % 3 == 1 then 2 else if n % 3 == 2 then 3 else 0) }

  /** The sextets of the first group, as many as its bytes fill. */
  function Sextets(bs: seq<Byte>): seq<Sextet> {
    if |bs| == 0 then []
    else if |bs| == 1 then [High(bs[0]), Mid(bs[0], 0)]
    else if |bs| == 2 then [High(bs[0]), Mid(bs[0], bs[1]), Low(bs[1], 0)]
    else [High(bs[0]), Mid(bs[0], bs[1]), Low(bs[1], bs[2]), Last(bs[2])]
  }

  function Pack(bs: seq<Byte>): seq<Sextet>
    decreases |bs|
  {
    if |bs| < 3 then Sextets(bs) else Sextets(bs) + Pack(bs[3..])
  }

  /** The bytes two, three or four sextets stand for. */
  function First(a: Sextet, b: Sextet): Byte { a * 4 + b / 16 }
  function Second(b: Sextet, c: Sextet): Byte { b % 16 * 16 + c / 4 }
  function Third(c: Sextet, d: Sextet): Byte { c % 4 * 64 + d }

  /** The bytes of the first group; a single sextet gives none. */
  function Octets(vs: seq<Sextet>): seq<Byte> {
    if |vs| < 2 then []
    else if |vs| == 2 then [First(vs[0], vs[1])]
    else if |vs| == 3 then [First(vs[0], vs[1]), Second(vs[1], vs[2])]
    else [First(vs[0], vs[1]), Second(vs[1], vs[2]), Third(vs[2], vs[3])]
  }

  function Unpack(vs: seq<Sextet>): seq<Byte>
    decreases |vs|
  {
    if |vs| < 4 then Octets(vs) else Octets(vs) + Unpack(vs[4..])
  }

  /** The caller's length formula is the encoder's output length. */
  lemma {:induction false} PackLength(bs: seq<Byte>)
    ensures |Pack(bs)| == Need(|bs|)
    decreases |bs|
  {
    hide High, Mid, Low, Last;
    if |bs| >= 3 { PackLength(bs[3..]); }
  }

  lemma {:induction false} UnpackLength(vs: seq<Sextet>)
    ensures |Unpack(vs)| == 6 * |vs| / 8
    decreases |vs|
  {
    hide First, Second, Third;
    if |vs| >= 4 { UnpackLength(vs[4..]); }
  }

  lemma GroupRoundTrip(b: Byte, c: Byte, d: Byte)
    ensures First(High(b), Mid(b, c)) == b && Second(Mid(b, c), Low(c, d)) == c && Third(Low(c, d), Last(d)) == d
  {
  }

  lemma FirstGroupRoundTrip(bs: seq<Byte>)
    ensures Octets(Sextets(bs)) == if |bs| < 3 then bs else bs[..3]
  {
    hide High, Mid, Low, Last, First, Second, Third;
    if |bs| > 0 { GroupRoundTrip(bs[0], if |bs| > 1 then bs[1] else 0, if |bs| > 2 then bs[2] else 0); }
  }

  lemma {:induction false} PackRoundTrip(bs: seq<Byte>)
    ensures Unpack(Pack(bs)) == bs
    decreases |bs|
  {
    hide High, Mid, Low, Last, First, Second, Third;
    FirstGroupRoundTrip(bs);
    if |bs| >= 3 {
      assert Pack(bs)[4..] == Pack(bs[3..]);
      assert Octets(Pack(bs)) == Octets(Sextets(bs));
      PackRoundTrip(bs[3..]);
    }
  }

  /** One more sextet completes at most one byte. */
  function Completes(vs: seq<Sextet>, v: Sextet): seq<Byte> {
    if |vs| % 4 == 0 then []
    else if |vs| % 4 == 1 then [First(vs[|vs| - 1], v)]
    else if |vs| % 4 == 2 then [Second(vs[|vs| - 1], v)]
    else [Third(vs[|vs| - 1], v)]
  }

  lemma OctetsSnoc(vs: seq<Sextet>, v: Sextet)
    ensures Octets(vs + [v]) == Octets(vs) + (if |vs| < 4 then Completes(vs, v) else [])
    ensures Octets([]) == []
  {
    hide First, Second, Third;
  }

  lemma Unfold(vs: seq<Sextet>)
    ensures Unpack(vs) == Octets(vs) + (if |vs| < 4 then [] else Unpack(vs[4..]))
  {
  }

  lemma CompletesSuffix(vs: seq<Sextet>, v: Sextet)
    requires |vs| >= 4
    ensures Completes(vs[4..], v) == Completes(vs, v)
  {
    hide First, Second, Third;
  }

  lemma {:induction false} UnpackSnoc(vs: seq<Sextet>, v: Sextet)
    ensures Unpack(vs + [v]) == Unpack(vs) + Completes(vs, v)
    decreases |vs|
  {
    hide Octets, Completes, Unpack;
    OctetsSnoc(vs, v);
    Unfold(vs);
    Unfold(vs + [v]);
    if |vs| >= 4 {
      assert (vs + [v])[4..] == vs[4..] + [v];
      UnpackSnoc(vs[4..], v);
      CompletesSuffix(vs, v);
    } else if |vs| == 3 {
      assert (vs + [v])[4..] == [];
      Unfold([]);
    }
  }

  // ----- reading a text ---------------------------------------------------------------------

  /** The significant sextets of a text and whether padding has begun; None when a byte is out of place. */
  datatype Reading = Reading(vs: seq<Sextet>, padded: bool)

  function ReadByte(r: Reading, c: Byte): Option<Reading> {
    if IsBlank(c) then Some(r)
    else if c == PAD then Some(r.(padded := true))
    else if r.padded || Val(c).None? then None
    else Some(r.(vs := r.vs + [Val(c).value]))
  }

  function Read(text: seq<Byte>): Option<Reading> {
    if text == [] then Some(Reading([], false))
    else
      var r := Read(text[..|text| - 1]);
      if r.None? then None else ReadByte(r.value, text[|text| - 1])
  }

  /** What b64_decode returns for an output buffer of cap bytes. */
  function Decoded(text: seq<Byte>, cap: nat): Option<seq<Byte>> {
    var r := Read(text);
    if r.None? || |r.value.vs| % 4 == 1 || |Unpack(r.value.vs)| > cap then None else Some(Unpack(r.value.vs))
  }

  function Strip(text: seq<Byte>): seq<Byte> {
    if text == [] then []
    else Strip(text[..|text| - 1]) + (if IsBlank(text[|text| - 1]) then [] else [text[|text| - 1]])
  }

  lemma ReadSnoc(text: seq<Byte>, c: Byte)
    ensures Read(text + [c]) == if Read(text).None? then None else ReadByte(Read(text).value, c)
  {
    assert (text + [c])[..|text|] == text;
  }

  /** Blanks do not matter, wherever they are. */
  lemma {:induction false} BlanksDoNotMatter(text: seq<Byte>)
    ensures Read(text) == Read(Strip(text))
  {
    if text != [] {
      var init, c := text[..|text| - 1], text[|text| - 1];
      BlanksDoNotMatter(init);
      if IsBlank(c) {
        assert Strip(text) == Strip(init);
      } else {
        ReadSnoc(Strip(init), c);
      }
    }
  }

  lemma {:induction false} LettersRead(vs: seq<Sextet>)
    ensures Read(Letters(vs)) == Some(Reading(vs, false))
  {
    if vs != [] {
      var init, v := vs[..|vs| - 1], vs[|vs| - 1];
      LettersRead(init);
      assert Letters(vs) == Letters(init) + [Letter(v)];
      ReadSnoc(Letters(init), Letter(v));
      assert init + [v] == vs;
    }
  }

  function Pads(k: nat): seq<Byte> { seq(k, _ => PAD) }

  lemma {:induction false} PadsRead(text: seq<Byte>, k: nat)
    requires Read(text).Some?
    ensures Read(text + Pads(k)) == Some(Read(text).value.(padded := Read(text).value.padded || k > 0))
  {
    if k == 0 {
      assert text + Pads(0) == text;
    } else {
      PadsRead(text, k - 1);
      assert text + Pads(k) == text + Pads(k - 1) + [PAD];
      ReadSnoc(text + Pads(k - 1), PAD);
    }
  }

  /** Every byte string comes back from its encoding, with blanks anywhere and any padding at the end. */
  lemma DecodeOfEncode(bs: seq<Byte>, text: seq<Byte>, k: nat, cap: nat)
    requires Strip(text) == Letters(Pack(bs)) + Pads(k) && |bs| <= cap
    ensures Decoded(text, cap) == Some(bs)
  {
    hide Read, Strip, Letters, Pack, Unpack;
    BlanksDoNotMatter(text);
    LettersRead(Pack(bs));
    PadsRead(Letters(Pack(bs)), k);
    PackRoundTrip(bs);
    PackLength(bs);
  }

  lemma LetterOfVal(c: Byte)
    requires Val(c).Some?
    ensures Letter(Val(c).value) == c
  {
  }

  /** A text that can be read is letters and padding behind them, with blanks anywhere. */
  lemma {:induction false} ReadIsLetters(text: seq<Byte>) returns (k: nat)
    requires Read(text).Some?
    ensures Strip(text) == Letters(Read(text).value.vs) + Pads(k) && (Read(text).value.padded <==> k > 0)
    decreases |text|
  {
    hide Letter, Val, IsBlank;
    k := 0;
    if text != [] {
      var init, c := text[..|text| - 1], text[|text| - 1];
      var before, after := Read(init).value, Read(text).value;
      k := ReadIsLetters(init);
      if IsBlank(c) {
        assert Strip(text) == Strip(init);
      } else if c == PAD {
        assert Pads(k + 1) == Pads(k) + [PAD];
        assert Strip(text) == Letters(before.vs) + (Pads(k) + [PAD]);
        k := k + 1;
      } else {
        LetterOfVal(c);
        assert Letters(before.vs + [Val(c).value]) == Letters(before.vs) + [c];
        assert Pads(k) == [];
      }
    }
  }

  /**
   For every text: it is decoded to those bytes if and only if, without its blanks, it is letters with padding
   behind them whose sextets, not 1 more than a multiple of 4, stand for those bytes, and they fit.
   */
  lemma DecodesIff(text: seq<Byte>, cap: nat, bytes: seq<Byte>)
    ensures Decoded(text, cap) == Some(bytes) <==>
            |bytes| <= cap && exists vs, k: nat :: Strip(text) == Letters(vs) + Pads(k) && Stands(vs, bytes)
  {
    hide Read, Strip, Letters, Unpack, Pads;
    if Decoded(text, cap) == Some(bytes) {
      var k := ReadIsLetters(text);
      assert Stands(Read(text).value.vs, bytes);
    }
    if |bytes| <= cap && exists vs, k: nat :: Strip(text) == Letters(vs) + Pads(k) && Stands(vs, bytes) {
      var vs, k: nat :| Strip(text) == Letters(vs) + Pads(k) && Stands(vs, bytes);
      BlanksDoNotMatter(text);
      LettersRead(vs);
      PadsRead(Letters(vs), k);
    }
  }

  predicate Stands(vs: seq<Sextet>, bytes: seq<Byte>) { |vs| % 4 != 1 && Unpack(vs) == bytes }

  // ----- the size check before decoding -----------------------------------------------------

  function Significant(text: seq<Byte>): nat {
    if text == [] then 0
    else Significant(text[..|text| - 1]) + (if IsBlank(text[|text| - 1]) || text[|text| - 1] == PAD then 0 else 1)
  }

  lemma {:induction false} SignificantIsRead(text: seq<Byte>)
    ensures Read(text).Some? ==> |Read(text).value.vs| == Significant(text)
  {
    if text != [] { SignificantIsRead(text[..|text| - 1]); }
  }

  /** A text that passes the size check is refused only for its characters or its length, never for lack of room. */
  lemma NeverOutOfRoom(text: seq<Byte>, cap: nat)
    requires 6 * Significant(text) / 8 <= cap
    ensures Decoded(text, cap).Some? <==> Read(text).Some? && Significant(text) % 4 != 1
    ensures Decoded(text, cap).Some? ==> |Decoded(text, cap).value| == 6 * Significant(text) / 8
  {
    SignificantIsRead(text);
    if Read(text).Some? { UnpackLength(Read(text).value.vs); }
  }

  /** b64_decoded_upper_bound */
  method UpperBound(text: seq<Byte>) returns (n: nat)
    ensures n == 6 * Significant(text) / 8
  {
    var sig: nat := 0;
    for i := 0 to |text|
      invariant sig == Significant(text[..i])
    {
      var c := text[i];
      assert text[..i + 1][..i] == text[..i];
      if !(c == PAD || IsBlank(c)) { sig := sig + 1; }
    }
    assert text[..|text|] == text;
    n := sig * 6 / 8;
  }

  // ----- the decoder's accumulator ----------------------------------------------------------

  /** The bits still to be written: 0, 6, 4 and 2 in turn. */
  function BitsLeft(n: nat): nat {
    if n % 4 == 0 then 0 else 8 - n % 4 * 2
  }

  /** The accumulator's low bits are those of the last sextet that no byte has used yet. */
  ghost predicate Holds(acc: Word32, vs: seq<Sextet>) {
    && (|vs| % 4 == 1 ==> acc % 64 == vs[|vs| - 1])
    && (|vs| % 4 == 2 ==> acc % 16 == vs[|vs| - 1] % 16)
    && (|vs| % 4 == 3 ==> acc % 4 == vs[|vs| - 1] % 4)
  }

  lemma ShiftIn6(low: nat, v: Sextet)
    ensures (low * 64 + v) / 16 % 256 == low % 64 * 4 + v / 16
  {
    DivModIs(low * 64 + v, 16, low * 4 + v / 16, v % 16);
    DivModIs(low * 4 + v / 16, 256, low / 64, low % 64 * 4 + v / 16);
  }

  lemma ShiftIn4(low: nat, v: Sextet)
    ensures (low * 64 + v) / 4 % 256 == low % 16 * 16 + v / 4
  {
    DivModIs(low * 64 + v, 4, low * 16 + v / 4, v % 4);
    DivModIs(low * 16 + v / 4, 256, low / 16, low % 16 * 16 + v / 4);
  }

  lemma ShiftIn2(low: nat, v: Sextet)
    ensures (low * 64 + v) % 256 == low % 4 * 64 + v && (low * 64 + v) % 64 == v
  {
    DivModIs(low * 64 + v, 256, low / 4, low % 4 * 64 + v);
    DivModIs(low * 64 + v, 64, low, v);
  }

  /** The low bits of an accumulator do not depend on the bits that a shift pushes off its top. */
  lemma TopFallsOff(acc: Word32, v: Sextet)
    ensures (acc * 64 + v) % WRAP32 == acc % 0x400_0000 * 64 + v
    ensures acc % 0x400_0000 % 64 == acc % 64 && acc % 0x400_0000 % 16 == acc % 16 && acc % 0x400_0000 % 4 == acc % 4
  {
    var high, low := acc / 0x400_0000, acc % 0x400_0000;
    DivModIs(acc * 64 + v, WRAP32, high, low * 64 + v);
    DivModIs(acc, 64, high * 0x10_0000 + low / 64, low % 64);
    DivModIs(acc, 16, high * 0x40_0000 + low / 16, low % 16);
    DivModIs(acc, 4, high * 0x100_0000 + low / 4, low % 4);
  }

  /** Shifting six bits in keeps the pending ones, also when the top of the 32-bit accumulator falls off. */
  lemma ShiftIn(acc: Word32, v: Sextet)
    ensures var next := (acc * 64 + v) % WRAP32;
            && next % 64 == v
            && next / 16 % 256 == acc % 64 * 4 + v / 16
            && next / 4 % 256 == acc % 16 * 16 + v / 4
            && next % 256 == acc % 4 * 64 + v
  {
    TopFallsOff(acc, v);
    var low := acc % 0x400_0000;
    ShiftIn6(low, v);
    ShiftIn4(low, v);
    ShiftIn2(low, v);
  }

  lemma ShiftKeepsHolds(acc: Word32, vs: seq<Sextet>, v: Sextet)
    requires Holds(acc, vs)
    ensures var next := (acc * 64 + v) % WRAP32;
            && Holds(next, vs + [v])
            && Completes(vs, v) ==
               (if |vs| % 4 == 0 then []
                else if |vs| % 4 == 1 then [next / 16 % 256]
                else if |vs| % 4 == 2 then [next / 4 % 256]
                else [next % 256])
  {
    ShiftIn(acc, v);
    var next := (acc * 64 + v) % WRAP32;
    DivModIs(next, 16, next / 64 * 4 + v / 16, v % 16);
    DivModIs(next, 4, next / 64 * 16 + v / 4, v % 4);
  }

  /** The shift of the accumulator before a byte is taken from it. */
  function Shifted(acc: Word32, bits: nat): int
    requires bits == 0 || bits == 2 || bits == 4
  {
    if bits == 0 then acc else if bits == 2 then acc / 4 else acc / 16
  }

  /** b64_decode: fills the buffer and gives the length, or None for bad text or a full buffer. */
  method Decode(text: seq<Byte>, out: array<Byte>) returns (len: Option<nat>)
    modifies out
    ensures len.Some? <==> Decoded(text, out.Length).Some?
    ensures len.Some? ==> len.value <= out.Length && out[..len.value] == Decoded(text, out.Length).value
  {
    hide Unpack, Completes, Holds, Val, Read;
    var acc: Word32, bits: nat, o: nat, n: nat := 0, 0, 0, 0;
    var padded := false;
    ghost var vs: seq<Sextet> := [];
    StartsEmpty();
    for i := 0 to |text|
      invariant Read(text[..i]) == Some(Reading(vs, padded)) && n == |vs| && bits == BitsLeft(n)
      invariant Holds(acc, vs)
      invariant o <= out.Length && out[..o] == Unpack(vs)
    {
      var c := text[i];
      ReadNext(text, i);
      if IsBlank(c) { continue; }
      if c == PAD {
        padded := true;
        continue;
      }
      var v := Val(c);
      if padded || v.None? {
        ReadFails(text, i + 1);
        return None;
      }
      ShiftKeepsHolds(acc, vs, v.value);
      UnpackSnoc(vs, v.value);
      acc := (acc * 64 + v.value) % WRAP32;
      n := n + 1;
      vs := vs + [v.value];
      bits := bits + 6;
      if bits >= 8 {
        bits := bits - 8;
        if o >= out.Length {
          RoomFails(text, i + 1, out.Length);
          return None;
        }
        out[o] := Shifted(acc, bits) % 256;
        o := o + 1;
      }
    }
    assert text[..|text|] == text;
    if n % 4 == 1 { return None; }
    return Some(o);
  }

  lemma StartsEmpty()
    ensures Holds(0, []) && Unpack([]) == [] && Read([]) == Some(Reading([], false))
  {
  }

  lemma ReadNext(text: seq<Byte>, i: nat)
    requires i < |text| && Read(text[..i]).Some?
    ensures Read(text[..i + 1]) == ReadByte(Read(text[..i]).value, text[i])
  {
    assert text[..i + 1] == text[..i] + [text[i]];
    ReadSnoc(text[..i], text[i]);
  }

  /** A prefix that is refused refuses the whole text. */
  lemma {:induction false} ReadFails(text: seq<Byte>, i: nat)
    requires i <= |text| && Read(text[..i]).None?
    ensures Read(text).None?
    decreases |text| - i
  {
    if i == |text| {
      assert text[..i] == text;
    } else {
      assert text[..i + 1][..i] == text[..i];
      ReadFails(text, i + 1);
    }
  }

  /** A prefix that already fills more than the buffer does so in the whole text. */
  lemma {:induction false} RoomFails(text: seq<Byte>, i: nat, cap: nat)
    requires i <= |text| && Read(text[..i]).Some? && |Unpack(Read(text[..i]).value.vs)| > cap
    ensures Decoded(text, cap).None?
    decreases |text| - i
  {
    if i == |text| {
      assert text[..i] == text;
    } else {
      ReadNext(text, i);
      if Read(text[..i + 1]).None? {
        ReadFails(text, i + 1);
      } else {
        hide Read, Unpack, Completes;
        if Val(text[i]).Some? { UnpackSnoc(Read(text[..i]).value.vs, Val(text[i]).value); }
        RoomFails(text, i + 1, cap);
      }
    }
  }

  // ----- the encoder ------------------------------------------------------------------------

  /** Writes letters at a position of the buffer and leaves the bytes before it alone. */
  method Put(out: array<Byte>, o: nat, vs: seq<Sextet>)
    requires o + |vs| <= out.Length
    modifies out
    ensures out[..o + |vs|] == old(out[..o]) + Letters(vs)
  {
    for k := 0 to |vs|
      invariant out[..o] == old(out[..o])
      invariant forall j :: 0 <= j < k ==> out[o + j] == Letter(vs[j])
    {
      out[o + k] := Letter(vs[k]);
    }
  }

  function Word24(b: Byte, c: Byte, d: Byte): nat {
    var high: int, mid: int, low: int := b, c, d;
    high * 0x1_0000 + mid * 0x100 + low
  }

  /** The four sextets of a 24-bit word, most significant first. */
  function Split(v: nat): seq<Sextet> { [Bits(v, 0x4_0000), Bits(v, 0x1000), Bits(v, 0x40), Bits(v, 1)] }

  /** Six bits of v, down from the weight of their lowest. */
  function Bits(v: nat, weight: nat): Sextet
    requires weight > 0
  {
    v / weight % 64
  }

  lemma SplitTop(b: Byte, c: Byte, d: Byte)
    ensures Bits(Word24(b, c, d), 0x4_0000) == High(b)
  {
    DivModIs(Word24(b, c, d), 0x4_0000, b / 4, b % 4 * 0x1_0000 + c * 0x100 + d);
  }

  lemma SplitMid(b: Byte, c: Byte, d: Byte)
    ensures Bits(Word24(b, c, d), 0x1000) == Mid(b, c)
  {
    DivModIs(Word24(b, c, d), 0x1000, b * 16 + c / 16, c % 16 * 0x100 + d);
    DivModIs(b * 16 + c / 16, 64, b / 4, b % 4 * 16 + c / 16);
  }

  lemma SplitLow(b: Byte, c: Byte, d: Byte)
    ensures Bits(Word24(b, c, d), 0x40) == Low(c, d)
  {
    DivModIs(Word24(b, c, d), 0x40, b * 1024 + c * 4 + d / 64, d % 64);
    DivModIs(b * 1024 + c * 4 + d / 64, 64, b * 16 + c / 16, c % 16 * 4 + d / 64);
  }

  lemma SplitLast(b: Byte, c: Byte, d: Byte)
    ensures Bits(Word24(b, c, d), 1) == Last(d)
  {
    DivModIs(Word24(b, c, d), 64, b * 1024 + c * 4 + d / 64, d % 64);
  }

  lemma SplitIs(b: Byte, c: Byte, d: Byte)
    ensures Split(Word24(b, c, d)) == [High(b), Mid(b, c), Low(c, d), Last(d)]
  {
    hide Bits, Word24, High, Mid, Low, Last;
    SplitTop(b, c, d);
    SplitMid(b, c, d);
    SplitLow(b, c, d);
    SplitLast(b, c, d);
  }

  /** The first group of a text and the rest of it. */
  lemma GroupLetters(bs: seq<Byte>)
    requires |bs| >= 3
    ensures Letters(Pack(bs)) == Letters(Split(Word24(bs[0], bs[1], bs[2]))) + Letters(Pack(bs[3..]))
  {
    hide Letters, High, Mid, Low, Last, Split, Word24;
    SplitIs(bs[0], bs[1], bs[2]);
    assert Pack(bs) == Sextets(bs) + Pack(bs[3..]);
    LettersConcat(Sextets(bs), Pack(bs[3..]));
  }

  lemma NeedStep(n: nat)
    requires n >= 3
    ensures Need(n) == 4 + Need(n - 3)
  {
  }

  lemma TailLetters(bs: seq<Byte>)
    requires |bs| < 3
    ensures Pack(bs) == (if |bs| == 0 then []
                         else if |bs| == 1 then Split(Word24(bs[0], 0, 0))[..2]
                         else Split(Word24(bs[0], bs[1], 0))[..3])
    ensures |Pack(bs)| == Need(|bs|)
  {
    hide High, Mid, Low, Last, Split, Word24;
    if |bs| > 0 { SplitIs(bs[0], if |bs| > 1 then bs[1] else 0, 0); }
  }

  /** b64_nopad: the letters of the encoding and a terminating NUL, in exactly the space the caller computes. */
  method EncodeNoPad(input: seq<Byte>, out: array<Byte>) returns (o: nat)
    requires out.Length >= Need(|input|) + 1
    modifies out
    ensures o == Need(|input|) && out[..o] == Letters(Pack(input)) && out[o] == 0
  {
    hide Need, Pack, Letters, Bits, Word24;
    var i: nat := 0;
    o := 0;
    assert input[0..] == input;
    while i + 3 <= |input|
      invariant i <= |input| && o + Need(|input| - i) == Need(|input|)
      invariant out[..o] + Letters(Pack(input[i..])) == Letters(Pack(input))
      decreases |input| - i
    {
      NeedStep(|input| - i);
      GroupLetters(input[i..]);
      assert input[i..][3..] == input[i + 3..];
      Put(out, o, Split(Word24(input[i], input[i + 1], input[i + 2])));
      o := o + 4;
      i := i + 3;
    }
    TailLetters(input[i..]);
    var tail := if |input| - i == 0 then []
                else if |input| - i == 1 then Split(Word24(input[i], 0, 0))[..2]
                else Split(Word24(input[i], input[i + 1], 0))[..3];
    Put(out, o, tail);
    o := o + |tail|;
    out[o] := 0;
  }

  lemma LettersConcat(a: seq<Sextet>, b: seq<Sextet>)
    ensures Letters(a + b) == Letters(a) + Letters(b)
  {
  }
}
