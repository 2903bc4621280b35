/**
 The supervisor's line buffer (src/supervisor.c): bytes arriving in arbitrary pieces become control
 lines of at most 511 bytes, and every line an event.
 */
module LineBuffers {
  import opened Words
  import opened Scan

  const LB_MAX: nat := 512

  datatype Event = Accept | Beat | StopLine | Eof | Tick | NextItem | PrevItem | PlayPause | Nothing

  // ----- one line -> one event --------------------------------------------------------------

  function Trim(line: seq<Byte>): (r: seq<Byte>)
    ensures r <= line && (r != [] ==> r[|r| - 1] != CR && r[|r| - 1] != LF)
    ensures forall i :: |r| <= i < |line| ==> line[i] == CR || line[i] == LF
    decreases |line|
  {
    if line != [] && (line[|line| - 1] == CR || line[|line| - 1] == LF) then Trim(line[..|line| - 1]) else line
  }

  function ByText(t: seq<Byte>): Event {
    if t == Ascii("STOP") then StopLine
    else if t == Ascii("PING") then Beat
    else if |t| >= 5 && t[..5] == Ascii("HELLO") then Beat
    else if t == Ascii("NEXT") then NextItem
    else if t == Ascii("PREV") then PrevItem
    else if t == Ascii("PLAYPAUSE") then PlayPause
    else Nothing
  }

  /** sup_classify_line */
  function Classify(line: seq<Byte>): Event { ByText(Trim(CString(line))) }

  // ----- the buffer, byte by byte -----------------------------------------------------------

  datatype Buf = Buf(held: seq<Byte>, discarding: bool)

  const EMPTY := Buf([], false)

  /** The buffer after one more byte, and the event that byte completes, if any. */
  function After(b: Buf, c: Byte): Buf {
    if b.discarding then b.(discarding := c != LF)
    else if c == LF then EMPTY
    else if |b.held| < LB_MAX - 1 then b.(held := b.held + [c])
    else Buf([], true)
  }

  function Emits(b: Buf, c: Byte): seq<Event> {
    if !b.discarding && c == LF then [Classify(b.held)] else []
  }

  function AfterAll(b: Buf, data: seq<Byte>): Buf
    decreases |data|
  {
    if data == [] then b else AfterAll(After(b, data[0]), data[1..])
  }

  function EmitsAll(b: Buf, data: seq<Byte>): seq<Event>
    decreases |data|
  {
    if data == [] then [] else Emits(b, data[0]) + EmitsAll(After(b, data[0]), data[1..])
  }

  /** Buffering commutes with concatenation: where a read ends does not matter. */
  lemma {:induction false} PushConcat(b: Buf, x: seq<Byte>, y: seq<Byte>)
    ensures AfterAll(b, x + y) == AfterAll(AfterAll(b, x), y)
    ensures EmitsAll(b, x + y) == EmitsAll(b, x) + EmitsAll(AfterAll(b, x), y)
    decreases |x|
  {
    if x == [] {
      assert x + y == y;
    } else {
      assert (x + y)[1..] == x[1..] + y;
      PushConcat(After(b, x[0]), x[1..], y);
    }
  }

  /** At most one event a byte, so a read of at most `max` bytes cannot overflow `max` events. */
  lemma {:induction false} AtMostOneEventPerByte(b: Buf, data: seq<Byte>)
    ensures |EmitsAll(b, data)| <= |data|
    decreases |data|
  {
    if data != [] { AtMostOneEventPerByte(After(b, data[0]), data[1..]); }
  }

  // ----- the reference: split the whole stream at line feeds --------------------------------

  function LineEnd(s: seq<Byte>): (n: nat)
    ensures n <= |s| && LF !in s[..n] && (n < |s| ==> s[n] == LF)
    decreases |s|
  {
    if s == [] || s[0] == LF then 0 else 1 + LineEnd(s[1..])
  }

  /** The events of the complete lines of s: an overlong line gives none, any other line one. */
  function LineEvents(s: seq<Byte>): seq<Event>
    decreases |s|
  {
    var n := LineEnd(s);
    if n == |s| then []
    else (if n < LB_MAX then [Classify(s[..n])] else []) + LineEvents(s[n + 1..])
  }

  lemma FirstByte(b: Buf, data: seq<Byte>)
    requires data != []
    ensures AfterAll(b, data) == AfterAll(After(b, data[0]), data[1..])
    ensures EmitsAll(b, data) == Emits(b, data[0]) + EmitsAll(After(b, data[0]), data[1..])
  {
  }

  /** Pushing part of a line, without its line feed. */
  lemma {:induction false} PushText(held: seq<Byte>, text: seq<Byte>)
    requires LF !in text && |held| < LB_MAX
    ensures AfterAll(Buf(held, false), text) ==
            if |held + text| < LB_MAX then Buf(held + text, false) else Buf([], true)
    ensures EmitsAll(Buf(held, false), text) == []
    decreases |text|
  {
    hide Classify, AfterAll, EmitsAll;
    if text == [] {
      assert held + text == held;
      PushNothing(Buf(held, false));
    } else {
      FirstByte(Buf(held, false), text);
      assert text[0] in text && forall c :: c in text[1..] ==> c in text;
      if |held| < LB_MAX - 1 {
        PushText(held + [text[0]], text[1..]);
        assert held + [text[0]] + text[1..] == held + text;
      } else {
        Swallow(text[1..]);
      }
    }
  }

  lemma {:induction false} Swallow(text: seq<Byte>)
    requires LF !in text
    ensures AfterAll(Buf([], true), text) == Buf([], true) && EmitsAll(Buf([], true), text) == []
    decreases |text|
  {
    hide Classify, AfterAll, EmitsAll;
    if text == [] {
      PushNothing(Buf([], true));
    } else {
      FirstByte(Buf([], true), text);
      assert text[0] in text && forall c :: c in text[1..] ==> c in text;
      Swallow(text[1..]);
    }
  }

  lemma OneByte(b: Buf, c: Byte)
    ensures AfterAll(b, [c]) == After(b, c) && EmitsAll(b, [c]) == Emits(b, c)
  {
    assert [c][1..] == [];
  }

  lemma PushLine(text: seq<Byte>)
    requires LF !in text
    ensures AfterAll(EMPTY, text + [LF]) == EMPTY
    ensures EmitsAll(EMPTY, text + [LF]) == if |text| < LB_MAX then [Classify(text)] else []
  {
    hide AfterAll, EmitsAll, Classify;
    PushText([], text);
    assert [] + text == text;
    PushConcat(EMPTY, text, [LF]);
    OneByte(AfterAll(EMPTY, text), LF);
  }

  /** For every stream, the buffer emits exactly the reference's events. */
  lemma {:induction false} BufferIsReference(s: seq<Byte>)
    ensures EmitsAll(EMPTY, s) == LineEvents(s)
    decreases |s|
  {
    hide AfterAll, EmitsAll, Classify;
    var n := LineEnd(s);
    if n == |s| {
      assert s[..n] == s;
      PushText([], s);
    } else {
      PushLine(s[..n]);
      assert s == s[..n] + [LF] + s[n + 1..];
      PushConcat(EMPTY, s[..n] + [LF], s[n + 1..]);
      BufferIsReference(s[n + 1..]);
    }
  }

  function AfterReads(b: Buf, chunks: seq<seq<Byte>>): Buf {
    if chunks == [] then b else AfterAll(AfterReads(b, chunks[..|chunks| - 1]), chunks[|chunks| - 1])
  }

  /** The events of successive reads. */
  function ReadEvents(b: Buf, chunks: seq<seq<Byte>>): seq<Event> {
    if chunks == [] then []
    else
      var before := chunks[..|chunks| - 1];
      ReadEvents(b, before) + EmitsAll(AfterReads(b, before), chunks[|chunks| - 1])
  }

  lemma {:induction false} ReadsAreOneStream(b: Buf, chunks: seq<seq<Byte>>)
    ensures ReadEvents(b, chunks) == EmitsAll(b, Flatten(chunks))
    ensures AfterReads(b, chunks) == AfterAll(b, Flatten(chunks))
  {
    if chunks != [] {
      var before := chunks[..|chunks| - 1];
      PushConcat(b, Flatten(before), chunks[|chunks| - 1]);
      ReadsAreOneStream(b, before);
    }
  }

  // ----- the buffer as the C struct ---------------------------------------------------------

  class LineBuffer {
    const buf: array<Byte>
    var used: nat
    var discarding: bool

    ghost predicate Valid()
      reads this
    {
      buf.Length == LB_MAX && used < LB_MAX && (discarding ==> used == 0)
    }

    ghost function View(): Buf
      requires Valid()
      reads this, buf
    {
      Buf(buf[..used], discarding)
    }

    constructor ()
      ensures Valid() && View() == EMPTY && fresh(buf)
    {
      buf := new Byte[LB_MAX](_ => 0);
      used, discarding := 0, false;
    }

    /** sup_lb_push: at most `max` events are kept; none is lost when the data has at most `max` bytes. */
    method Push(data: seq<Byte>, max: nat) returns (evs: seq<Event>)
      requires Valid()
      modifies this, buf
      ensures Valid()
      ensures View() == AfterAll(old(View()), data)
      ensures var all := EmitsAll(old(View()), data); evs == all[..Min(max, |all|)]
      ensures |data| <= max ==> evs == EmitsAll(old(View()), data)
    {
      hide EmitsAll, AfterAll, Classify;
      evs := [];
      ghost var b0 := View();
      AtMostOneEventPerByte(b0, data);
      PushNothing(b0);
      for i := 0 to |data|
        invariant Valid()
        invariant View() == AfterAll(b0, data[..i])
        invariant evs == EmitsAll(b0, data[..i])[..Min(max, |EmitsAll(b0, data[..i])|)]
      {
        PushNext(b0, data, i);
        var next := PushOne(data[i]);
        if next.Some? && |evs| < max { evs := evs + [next.value]; }
      }
      assert data[..|data|] == data;
    }

    method PushOne(c: Byte) returns (ev: Option<Event>)
      requires Valid()
      modifies this, buf
      ensures Valid() && View() == After(old(View()), c)
      ensures Emits(old(View()), c) == if ev.Some? then [ev.value] else []
    {
      hide Classify;
      ev := None;
      if discarding {
        if c == LF { discarding := false; }
      } else if c == LF {
        var line := buf[..used];
        buf[used] := NUL;
        ev := Some(Classify(line));
        used := 0;
      } else if used < LB_MAX - 1 {
        buf[used] := c;
        used := used + 1;
        assert View().held == old(View()).held + [c];
      } else {
        discarding := true;
        used := 0;
      }
    }
  }

  lemma PushNothing(b: Buf)
    ensures AfterAll(b, []) == b && EmitsAll(b, []) == []
  {
  }

  lemma PushNext(b: Buf, data: seq<Byte>, i: nat)
    requires i < |data|
    ensures AfterAll(b, data[..i + 1]) == After(AfterAll(b, data[..i]), data[i])
    ensures EmitsAll(b, data[..i + 1]) == EmitsAll(b, data[..i]) + Emits(AfterAll(b, data[..i]), data[i])
  {
    hide AfterAll, EmitsAll;
    assert data[..i + 1] == data[..i] + [data[i]];
    PushConcat(b, data[..i], [data[i]]);
    OneByte(AfterAll(b, data[..i]), data[i]);
  }
}
