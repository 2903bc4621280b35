/**
 What the header parser of src/rtsp_msg.c makes of any header block: the block is cut into lines, every
 line with a colon spells one header, and the rest are passed over.
 */
module RtspLines {
  import opened Words
  import opened Scan
  import opened RtspMessage
  import opened RtspRender

  /** The complete lines of a text, without their line feeds. */
  function Lines(text: seq<Byte>): seq<seq<Byte>>
    decreases |text|
  {
    var nl := IndexOf(text, LF, 0, |text|);
    if nl.None? then [] else [text[..nl.value]] + Lines(text[nl.value + 1..])
  }

  /**
   The line is a name without a colon, a colon, blanks, and the value up to the end of the line or to one CR
   before it; the value takes in no leading blank.
   */
  ghost predicate SpelledBy(line: seq<Byte>, h: Header, blanks: seq<Byte>, end: seq<Byte>) {
    && line == h.name + [COLON] + blanks + (h.value + end) && COLON !in h.name
    && (forall i :: 0 <= i < |blanks| ==> IsBlank(blanks[i]))
    && (h.value + end != [] ==> !IsBlank((h.value + end)[0]))
    && (end == [CR] || (end == [] && (h.value == [] || h.value[|h.value| - 1] != CR)))
  }

  ghost predicate Spells(line: seq<Byte>, h: Header) {
    exists blanks, end :: SpelledBy(line, h, blanks, end)
  }

  lemma SameName(a: seq<Byte>, b: seq<Byte>, x: seq<Byte>, y: seq<Byte>)
    requires a + [COLON] + x == b + [COLON] + y && COLON !in a && COLON !in b
    ensures a == b && x == y
  {
    var s := a + [COLON] + x;
    assert s[|a|] == COLON && s[|b|] == COLON;
    assert forall i :: 0 <= i < |a| ==> s[i] == a[i];
    assert forall i :: 0 <= i < |b| ==> s[i] == b[i];
    assert |a| == |b|;
    assert a == s[..|a|] && b == s[..|b|] && x == s[|a| + 1..] && y == s[|b| + 1..];
  }

  lemma BlanksEnd(a: seq<Byte>, x: seq<Byte>)
    requires forall i :: 0 <= i < |a| ==> IsBlank(a[i])
    requires x != [] ==> !IsBlank(x[0])
    ensures SkipBlanks(a + x, 0, |a + x|) == |a|
  {
    var s := a + x;
    assert forall i :: 0 <= i < |a| ==> s[i] == a[i];
    assert x != [] ==> s[|a|] == x[0];
  }

  lemma SameBlanks(a: seq<Byte>, b: seq<Byte>, x: seq<Byte>, y: seq<Byte>)
    requires a + x == b + y
    requires forall i :: 0 <= i < |a| ==> IsBlank(a[i])
    requires forall i :: 0 <= i < |b| ==> IsBlank(b[i])
    requires (x != [] ==> !IsBlank(x[0])) && (y != [] ==> !IsBlank(y[0]))
    ensures a == b && x == y
  {
    var s := a + x;
    BlanksEnd(a, x);
    BlanksEnd(b, y);
    assert a == s[..|a|] && b == s[..|b|] && x == s[|a|..] && y == s[|b|..];
  }

  /** A line spells at most one header. */
  lemma SpellsOne(line: seq<Byte>, h: Header, g: Header)
    requires Spells(line, h) && Spells(line, g)
    ensures h == g
  {
    var b1, e1 :| SpelledBy(line, h, b1, e1);
    var b2, e2 :| SpelledBy(line, g, b2, e2);
    assert line == h.name + [COLON] + (b1 + (h.value + e1)) && line == g.name + [COLON] + (b2 + (g.value + e2));
    SameName(h.name, g.name, b1 + (h.value + e1), b2 + (g.value + e2));
    SameBlanks(b1, b2, h.value + e1, g.value + e2);
    var v := h.value + e1;
    assert e1 == [CR] <==> v != [] && v[|v| - 1] == CR;
    assert e2 == [CR] <==> v != [] && v[|v| - 1] == CR;
    assert h.value == v[..|v| - |e1|] && g.value == v[..|v| - |e2|];
  }

  /** What the parser reads off a line with a colon is what the line spells. */
  lemma HeaderIsSpelled(s: seq<Byte>, from: nat, colon: nat, nl: nat)
    requires from <= colon < nl < |s| && IndexOf(s, COLON, from, nl) == Some(colon)
    ensures Spells(s[from..nl], HeaderOn(s, from, colon, nl))
  {
    hide SkipBlanks, IndexOf;
    var v := SkipBlanks(s, colon + 1, nl);
    var h := HeaderOn(s, from, colon, nl);
    var end := if nl > v && s[nl - 1] == CR then [CR] else [];
    FourPieces(s, from, colon, v, nl);
    ValueAndEnd(s, v, nl);
    assert COLON !in s[from..colon];
    assert SpelledBy(s[from..nl], h, s[colon + 1..v], end);
  }

  lemma FourPieces(s: seq<Byte>, a: nat, b: nat, c: nat, d: nat)
    requires a <= b < c <= d <= |s|
    ensures s[a..d] == s[a..b] + [s[b]] + s[b + 1..c] + s[c..d]
  {
  }

  lemma ValueAndEnd(s: seq<Byte>, v: nat, nl: nat)
    requires v <= nl <= |s|
    ensures nl > v && s[nl - 1] == CR ==> s[v..nl] == s[v..nl - 1] + [CR]
    ensures v < nl ==> s[v..nl][0] == s[v] && s[v..nl][nl - v - 1] == s[nl - 1]
    ensures s[v..nl] + [] == s[v..nl]
  {
  }

  lemma ColonSpells(line: seq<Byte>) returns (h: Header)
    requires COLON in line
    ensures Spells(line, h)
  {
    var s := line + [LF];
    var colon := IndexOf(s, COLON, 0, |line|);
    var i :| 0 <= i < |line| && line[i] == COLON;
    assert s[i] == COLON;
    h := HeaderOn(s, 0, colon.value, |line|);
    HeaderIsSpelled(s, 0, colon.value, |line|);
    assert s[0..|line|] == line;
  }

  ghost function Field(line: seq<Byte>): (h: Header)
    requires COLON in line
    ensures Spells(line, h)
  {
    assert exists h :: Spells(line, h) by { var h := ColonSpells(line); }
    var h :| Spells(line, h);
    h
  }

  /** The headers that the lines with a colon spell. */
  ghost function Fields(lines: seq<seq<Byte>>): seq<Header> {
    if lines == [] then []
    else (if COLON in lines[0] then [Field(lines[0])] else []) + Fields(lines[1..])
  }

  lemma LinesCons(text: seq<Byte>, nl: nat)
    requires nl < |text| && text[nl] == LF && LF !in text[..nl]
    ensures Lines(text) == [text[..nl]] + Lines(text[nl + 1..])
  {
    hide Field, Spells;
    assert forall i :: 0 <= i < nl ==> text[i] == text[..nl][i];
    IndexIs(text, LF, 0, |text|, nl);
  }

  lemma FieldsCons(line: seq<Byte>, rest: seq<seq<Byte>>)
    ensures Fields([line] + rest) == (if COLON in line then [Field(line)] else []) + Fields(rest)
  {
    hide Field, Spells;
    assert ([line] + rest)[1..] == rest;
  }

  /** One line of a block, as the parser takes it. */
  lemma LineTaken(s: seq<Byte>, from: nat, nl: nat, acc: Head)
    requires from <= nl < |s| && from + 2 < |s| && IndexOf(s, LF, from, |s|) == Some(nl)
    ensures var line := s[from..nl];
            StepOver(s, from, acc) ==
            if COLON !in line then Go(nl + 1, acc)
            else if |acc.headers| >= MAX_HEADERS || AddHeader(acc, Field(line)).None? then Fail
            else Go(nl + 1, AddHeader(acc, Field(line)).value)
  {
    hide AddHeader, HeaderOn, Spells;
    var colon := IndexOf(s, COLON, from, nl);
    if colon.Some? {
      HeaderIsSpelled(s, from, colon.value, nl);
      assert s[from..nl][colon.value - from] == COLON;
      SpellsOne(s[from..nl], HeaderOn(s, from, colon.value, nl), Field(s[from..nl]));
    } else {
      assert forall i :: 0 <= i < nl - from ==> s[from..nl][i] == s[from + i];
    }
  }

  /** What remains of a block after its first line. */
  lemma FirstLine(s: seq<Byte>, from: nat) returns (nl: nat)
    requires from + 2 < |s| && s[|s| - 3] == LF
    ensures from <= nl <= |s| - 3 && IndexOf(s, LF, from, |s|) == Some(nl)
    ensures Lines(s[from..|s| - 2]) == [s[from..nl]] + Lines(s[nl + 1..|s| - 2])
  {
    hide IndexOf, Lines;
    nl := IndexOf(s, LF, from, |s|).value;
    var text := s[from..|s| - 2];
    WindowOf(s, from, nl, |s| - 2);
    assert LF !in s[from..nl];
    LinesCons(text, nl - from);
  }

  lemma WindowOf(s: seq<Byte>, from: nat, nl: nat, end: nat)
    requires from <= nl < end <= |s|
    ensures var text := s[from..end];
            text[..nl - from] == s[from..nl] && text[nl - from] == s[nl] && text[nl - from + 1..] == s[nl + 1..end]
  {
  }

  /** Reading a block is reading the fields of its lines; the blank line at its end is not looked at. */
  lemma {:induction false} BlockIsItsLines(s: seq<Byte>, from: nat, acc: Head)
    requires |s| >= 3 && from + 2 <= |s| && s[|s| - 3] == LF
    ensures var fields := Fields(Lines(s[from..|s| - 2]));
            ParseHeaders(s, from, acc) ==
            if fields == [] || |acc.headers| + |fields| <= MAX_HEADERS then Assemble(acc, fields) else None
    decreases |s| - from
  {
    hide StepOver, AddHeader, Spells, Field, Fields, Lines, IndexOf;
    if from + 2 == |s| {
      StopsAtBlank(s, from, acc);
      NoFields();
      assert s[from..|s| - 2] == [];
    } else {
      var nl := FirstLine(s, from);
      var line, rest := s[from..nl], Fields(Lines(s[nl + 1..|s| - 2]));
      FieldsCons(line, Lines(s[nl + 1..|s| - 2]));
      LineTaken(s, from, nl, acc);
      var step := StepOver(s, from, acc);
      if step.Go? { BlockIsItsLines(s, nl + 1, step.acc); }
      if COLON in line {
        assert ([Field(line)] + rest)[1..] == rest;
      } else {
        assert [] + rest == rest;
      }
    }
  }

  lemma NoFields()
    ensures Lines([]) == [] && Fields([]) == []
  {
  }

  lemma RequestLineComesFirst(s: seq<Byte>)
    requires HeadEnd(s) == Some(|s|) && RequestLine(s).Some?
    ensures |s| >= 4 && s[|s| - 3] == LF && RequestLine(s).value.2 + 3 <= |s|
  {
    assert BlankAt(s, |s| - 4);
  }

  /**
   For every complete header block: the request line's method and URI with the headers its lines spell, in
   order, or nothing without a request line, with more than 24 headers or with a bad Content-Length.
   */
  lemma HeadIsItsLines(s: seq<Byte>)
    requires HeadEnd(s) == Some(|s|)
    ensures match RequestLine(s)
            case None => ParseHead(s).None?
            case Some((sp1, sp2, nl)) =>
              && nl + 3 <= |s|
              && var fields := Fields(Lines(s[nl + 1..|s| - 2]));
                 ParseHead(s) == if |fields| <= MAX_HEADERS then HeadOf(s[..sp1], s[sp1 + 1..sp2], fields) else None
  {
    hide RequestLine, ParseHeaders, HeadEnd, Fields, HeadOf;
    if RequestLine(s).Some? {
      RequestLineComesFirst(s);
      var (sp1, sp2, nl) := RequestLine(s).value;
      BlockIsItsLines(s, nl + 1, Head(s[..sp1], s[sp1 + 1..sp2], [], -1, 0));
      AssembleAll(s[..sp1], s[sp1 + 1..sp2], Fields(Lines(s[nl + 1..|s| - 2])));
    }
  }
}
