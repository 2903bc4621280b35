/** Bounded scans over byte strings: memchr, tolower and decimal numbers. */
module Scan {
  import opened Words

  const NUL: Byte := 0
  const TAB: Byte := 9
  const LF: Byte := 10
  const CR: Byte := 13
  const SP: Byte := 32
  const DOT: Byte := 46
  const COLON: Byte := 58

  /** The largest long on the 32-bit target. */
  const LONG_MAX: int := 0x7FFF_FFFF

  function Ascii(s: string): (bytes: seq<Byte>)
    ensures |bytes| == |s|
  {
    seq(|s|, i requires 0 <= i < |s| => s[i] as int % 0x100)
  }

  /** The first position of b in s[from..until], as memchr finds it. */
  function IndexOf(s: seq<Byte>, b: Byte, from: nat, until: nat): (at: Option<nat>)
    requires from <= until <= |s|
    ensures at.Some? ==> from <= at.value < until && s[at.value] == b
                         && forall i :: from <= i < at.value ==> s[i] != b
    ensures at.None? ==> forall i :: from <= i < until ==> s[i] != b
    decreases until - from
  {
    if from == until then None
    else if s[from] == b then Some(from)
    else IndexOf(s, b, from + 1, until)
  }

  /** The text a C string function sees: up to the first NUL. */
  function CString(s: seq<Byte>): (r: seq<Byte>)
    ensures r <= s && NUL !in r
    ensures |r| < |s| ==> s[|r|] == NUL
  {
    var nul := IndexOf(s, NUL, 0, |s|);
    if nul.Some? then s[..nul.value] else s
  }

  /** The bytes of successive reads, end to end. */
  function Flatten(chunks: seq<seq<Byte>>): seq<Byte> {
    if chunks == [] then [] else Flatten(chunks[..|chunks| - 1]) + chunks[|chunks| - 1]
  }

  function Lower(b: Byte): Byte {
    if 65 <= b <= 90 then b + 32 else b
  }

  /** A to Z become a to z, and nothing else changes. */
  lemma LowerLetters(b: Byte)
    ensures Lower(b) == if 'A' as int <= b <= 'Z' as int then 'a' as int + (b - 'A' as int) else b
  {
  }

  function LowerAll(s: seq<Byte>): (t: seq<Byte>)
    ensures |t| == |s|
    ensures forall i :: 0 <= i < |s| ==> t[i] == Lower(s[i])
  {
    seq(|s|, i requires 0 <= i < |s| => Lower(s[i]))
  }

  predicate CaseEqual(a: seq<Byte>, b: seq<Byte>) {
    LowerAll(a) == LowerAll(b)
  }

  method CompareIgnoringCase(a: seq<Byte>, b: seq<Byte>) returns (same: bool)
    ensures same == CaseEqual(a, b)
  {
    if |a| != |b| {
      assert |LowerAll(a)| != |LowerAll(b)|;
      return false;
    }
    for i := 0 to |a|
      invariant forall k :: 0 <= k < i ==> Lower(a[k]) == Lower(b[k])
    {
      if Lower(a[i]) != Lower(b[i]) {
        assert LowerAll(a)[i] != LowerAll(b)[i];
        return false;
      }
    }
    same := true;
  }

  // ----- decimal numbers --------------------------------------------------------------

  predicate IsDigit(b: Byte) {
    48 <= b <= 57
  }

  predicate AllDigits(s: seq<Byte>) {
    forall i :: 0 <= i < |s| ==> IsDigit(s[i])
  }

  function Value(s: seq<Byte>): (v: nat)
    requires AllDigits(s)
  {
    if s == [] then 0 else 10 * Value(s[..|s| - 1]) + (s[|s| - 1] - 48)
  }

  /** A non-empty run of digits whose value a long can hold. */
  function Number(s: seq<Byte>): (n: Option<nat>) {
    if s != [] && AllDigits(s) && Value(s) <= LONG_MAX then Some(Value(s)) else None
  }

  lemma {:induction false} PrefixIsSmaller(s: seq<Byte>, k: nat)
    requires AllDigits(s) && k <= |s|
    ensures AllDigits(s[..k]) && Value(s[..k]) <= Value(s)
  {
    if k < |s| {
      var shorter := s[..|s| - 1];
      assert shorter[..k] == s[..k];
      PrefixIsSmaller(shorter, k);
    } else {
      assert s[..k] == s;
    }
  }

  /** parse_nonneg_long: the overflow guard fires exactly when the value would exceed a long. */
  method ParseNonNegative(s: seq<Byte>) returns (n: Option<nat>)
    ensures n == Number(s)
  {
    if |s| == 0 { return None; }
    var v := 0;
    for i := 0 to |s|
      invariant AllDigits(s[..i]) && v == Value(s[..i]) <= LONG_MAX
    {
      if s[i] < 48 || s[i] > 57 { return None; }
      var d := s[i] - 48;
      assert s[..i + 1][..i] == s[..i];
      if v > (LONG_MAX - d) / 10 {
        if AllDigits(s) { PrefixIsSmaller(s, i + 1); }
        return None;
      }
      v := v * 10 + d;
    }
    assert s[..|s|] == s;
    n := Some(v);
  }

  function Digits(n: nat): (s: seq<Byte>)
    ensures s != [] && AllDigits(s)
  {
    if n < 10 then [48 + n] else Digits(n / 10) + [48 + n % 10]
  }

  lemma {:induction false} ValueOfDigits(n: nat)
    ensures Value(Digits(n)) == n
  {
    if n >= 10 {
      var s := Digits(n);
      assert s[..|s| - 1] == Digits(n / 10);
      ValueOfDigits(n / 10);
    }
  }

  function Zeros(z: nat): (s: seq<Byte>)
    ensures AllDigits(s)
  {
    if z == 0 then [] else Zeros(z - 1) + [48]
  }

  lemma {:induction false} ZerosAreNothing(z: nat)
    ensures Value(Zeros(z)) == 0
  {
    if z > 0 {
      assert Zeros(z)[..|Zeros(z)| - 1] == Zeros(z - 1);
      ZerosAreNothing(z - 1);
    }
  }

  lemma {:induction false} ValueOfPadded(z: nat, n: nat)
    ensures AllDigits(Zeros(z) + Digits(n)) && Value(Zeros(z) + Digits(n)) == n
    decreases n
  {
    ZerosAreNothing(z);
    var s := Zeros(z) + Digits(n);
    if n < 10 {
      assert s[..|s| - 1] == Zeros(z);
    } else {
      assert s[..|s| - 1] == Zeros(z) + Digits(n / 10);
      ValueOfPadded(z, n / 10);
    }
  }

  /** Every non-empty run of digits is the decimal form of its value behind some zeros. */
  lemma {:induction false} DigitsOfValue(s: seq<Byte>) returns (z: nat)
    requires s != [] && AllDigits(s)
    ensures s == Zeros(z) + Digits(Value(s))
    decreases |s|
  {
    var t, n := s[..|s| - 1], Value(s);
    assert s == t + [s[|s| - 1]];
    if t == [] {
      z := 0;
    } else {
      z := DigitsOfValue(t);
      assert Value(t) == n / 10 && s[|s| - 1] == 48 + n % 10;
      if n < 10 { z := z + 1; }
    }
  }

  /** A text is read as a number exactly if it is that number's decimal form behind zeros, and a long can hold it. */
  lemma NumberIff(s: seq<Byte>, n: nat)
    ensures Number(s) == Some(n) <==> n <= LONG_MAX && exists z: nat :: s == Zeros(z) + Digits(n)
  {
    if Number(s) == Some(n) { var z := DigitsOfValue(s); }
    if z: nat :| s == Zeros(z) + Digits(n) { ValueOfPadded(z, n); }
  }

  /** Exactly the numbers a long can hold are read back from their decimal form. */
  lemma NumberReadsBackDigits(n: nat)
    ensures Number(Digits(n)) == if n <= LONG_MAX then Some(n) else None
  {
    ValueOfDigits(n);
  }
}
