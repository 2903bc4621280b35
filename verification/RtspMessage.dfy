/**
 RTSP request framing (src/rtsp_msg.c): the request line, at most 24 headers and a body of
 Content-Length bytes (sections 6 and 12.14 of RFC 2326).
 */
module RtspMessage {
  import opened Words
  import opened Scan

  const MAX_HEADERS: int := 24
  const CSEQ := Ascii("CSeq")
  const CONTENT_LENGTH := Ascii("Content-Length")

  datatype Header = Header(name: seq<Byte>, value: seq<Byte>)

  datatype Head = Head(method_: seq<Byte>, uri: seq<Byte>, headers: seq<Header>, cseq: int, contentLength: nat)

  datatype Parsed =
    | NeedMore
    | NeedBody(head: Head, headLength: nat)
    | Malformed
    | Complete(head: Head, body: seq<Byte>, consumed: nat)

  /** The blank line that ends the header block starts at i. */
  predicate BlankAt(s: seq<Byte>, i: nat) {
    i + 3 < |s| && s[i] == CR && s[i + 1] == LF && s[i + 2] == CR && s[i + 3] == LF
  }

  function HeadEndFrom(s: seq<Byte>, from: nat): (e: Option<nat>)
    ensures e.Some? ==> from + 4 <= e.value <= |s| && BlankAt(s, e.value - 4)
                        && forall i: nat :: from <= i < e.value - 4 ==> !BlankAt(s, i)
    ensures e.None? ==> forall i: nat :: from <= i ==> !BlankAt(s, i)
    decreases |s| - from
  {
    if from + 3 >= |s| then None
    else if BlankAt(s, from) then Some(from + 4)
    else HeadEndFrom(s, from + 1)
  }

  function HeadEnd(s: seq<Byte>): (e: Option<nat>)
    ensures e.Some? ==> 4 <= e.value <= |s|
  {
    HeadEndFrom(s, 0)
  }

  // ----- what a list of headers means ---------------------------------------------------------

  predicate Named(h: Header, name: seq<Byte>) { CaseEqual(h.name, name) }

  /** The number in the last header of that name that holds one. */
  function LastNumber(headers: seq<Header>, name: seq<Byte>): (n: Option<nat>)
    ensures n.Some? ==>
              exists i :: 0 <= i < |headers| && Named(headers[i], name) && Number(headers[i].value) == n
                          && forall k :: i < k < |headers| && Named(headers[k], name) ==> Number(headers[k].value).None?
    ensures n.None? ==> forall i :: 0 <= i < |headers| && Named(headers[i], name) ==> Number(headers[i].value).None?
  {
    if headers == [] then None
    else
      var last := headers[|headers| - 1];
      if Named(last, name) && Number(last.value).Some? then Number(last.value)
      else LastNumber(headers[..|headers| - 1], name)
  }

  /** Some Content-Length is not a number a long can hold. */
  predicate BadLength(headers: seq<Header>) {
    exists i :: 0 <= i < |headers| && Named(headers[i], CONTENT_LENGTH) && Number(headers[i].value).None?
  }

  /**
   The message a list of headers makes: the last CSeq that is a number, or -1, and the last Content-Length,
   or 0; a bad Content-Length anywhere spoils it.
   */
  function HeadOf(method_: seq<Byte>, uri: seq<Byte>, headers: seq<Header>): Option<Head> {
    if BadLength(headers) then None
    else
      var cseq, length := LastNumber(headers, CSEQ), LastNumber(headers, CONTENT_LENGTH);
      Some(Head(method_, uri, headers, if cseq.Some? then cseq.value else -1, if length.Some? then length.value else 0))
  }

  // ----- how the parser finds it --------------------------------------------------------------

  /** What one header does to the message being assembled. */
  function AddHeader(h: Head, header: Header): (r: Option<Head>)
    ensures r.Some? ==> r.value.headers == h.headers + [header]
  {
    var h := h.(headers := h.headers + [header]);
    if CaseEqual(header.name, CSEQ) then
      var n := Number(header.value);
      Some(if n.Some? then h.(cseq := n.value) else h)
    else if CaseEqual(header.name, CONTENT_LENGTH) then
      var n := Number(header.value);
      if n.Some? then Some(h.(contentLength := n.value)) else None
    else Some(h)
  }

  predicate IsBlank(b: Byte) { b == SP || b == TAB }

  function SkipBlanks(s: seq<Byte>, from: nat, until: nat): (at: nat)
    requires from <= until <= |s|
    ensures from <= at <= until && forall i :: from <= i < at ==> IsBlank(s[i])
    ensures at < until ==> !IsBlank(s[at])
    decreases until - from
  {
    if from < until && (s[from] == SP || s[from] == TAB) then SkipBlanks(s, from + 1, until) else from
  }

  /** The header that the line s[from..nl] spells, if it has a colon. */
  function HeaderOn(s: seq<Byte>, from: nat, colon: nat, nl: nat): Header
    requires from <= colon < nl < |s|
  {
    var v := SkipBlanks(s, colon + 1, nl);
    var end := if nl > v && s[nl - 1] == CR then nl - 1 else nl;
    Header(s[from..colon], s[v..end])
  }

  datatype LineStep = Stop | Fail | Go(next: nat, acc: Head)

  /** What the line at position from adds to the message, and where the next line starts. */
  function StepOver(s: seq<Byte>, from: nat, acc: Head): (step: LineStep)
    requires from <= |s|
    ensures step.Go? ==> from < step.next <= |s|
  {
    if from + 2 >= |s| then Stop
    else
      var nl := IndexOf(s, LF, from, |s|);
      if nl.None? then Stop
      else
        var colon := IndexOf(s, COLON, from, nl.value);
        if colon.None? then Go(nl.value + 1, acc)
        else if |acc.headers| >= MAX_HEADERS then Fail
        else
          var next := AddHeader(acc, HeaderOn(s, from, colon.value, nl.value));
          if next.None? then Fail else Go(nl.value + 1, next.value)
  }

  function ParseHeaders(s: seq<Byte>, from: nat, acc: Head): (r: Option<Head>)
    requires from <= |s|
    decreases |s| - from
  {
    match StepOver(s, from, acc)
    case Stop => Some(acc)
    case Fail => None
    case Go(next, acc') => ParseHeaders(s, next, acc')
  }

  /** The two spaces of the request line and the line feed that ends it. */
  function RequestLine(s: seq<Byte>): (line: Option<(nat, nat, nat)>)
    ensures line.Some? ==> line.value.0 < line.value.1 < line.value.2 < |s|
  {
    var sp1 := IndexOf(s, SP, 0, |s|);
    if sp1.None? then None
    else
      var sp2 := IndexOf(s, SP, sp1.value + 1, |s|);
      if sp2.None? then None
      else
        var nl := IndexOf(s, LF, sp2.value, |s|);
        if nl.None? then None else Some((sp1.value, sp2.value, nl.value))
  }

  function ParseHead(s: seq<Byte>): (r: Option<Head>) {
    match RequestLine(s)
    case None => None
    case Some((sp1, sp2, nl)) => ParseHeaders(s, nl + 1, Head(s[..sp1], s[sp1 + 1..sp2], [], -1, 0))
  }

  function Parse(buf: seq<Byte>): (r: Parsed)
    // a complete message accounts for its header block and exactly Content-Length bytes of body
    ensures r.Complete? ==> |r.body| + 4 <= r.consumed <= |buf| && |r.body| == r.head.contentLength
                            && r.body == buf[r.consumed - |r.body|..r.consumed]
    ensures r.NeedBody? ==> r.headLength <= |buf| < r.headLength + r.head.contentLength
  {
    var e := HeadEnd(buf);
    if e.None? then NeedMore
    else
      var head := ParseHead(buf[..e.value]);
      if head.None? then Malformed
      else
        var n := head.value.contentLength;
        if |buf| - e.value < n then NeedBody(head.value, e.value)
        else Complete(head.value, buf[e.value..e.value + n], e.value + n)
  }

  // ----- rtsp_msg_parse ------------------------------------------------------------------

  method FindHeadEnd(buf: seq<Byte>) returns (e: Option<nat>)
    ensures e == HeadEnd(buf)
  {
    var i := 0;
    while i + 3 < |buf|
      invariant 0 <= i
      invariant HeadEnd(buf) == HeadEndFrom(buf, i)
      decreases |buf| - i
    {
      if buf[i] == CR && buf[i + 1] == LF && buf[i + 2] == CR && buf[i + 3] == LF { return Some(i + 4); }
      i := i + 1;
    }
    e := None;
  }

  method ReadHeader(s: seq<Byte>, from: nat, colon: nat, nl: nat) returns (header: Header)
    requires from <= colon < nl < |s|
    ensures header == HeaderOn(s, from, colon, nl)
  {
    var v := colon + 1;
    while v < nl && (s[v] == SP || s[v] == TAB)
      invariant colon < v <= nl
      invariant SkipBlanks(s, colon + 1, nl) == SkipBlanks(s, v, nl)
    {
      v := v + 1;
    }
    var end := nl;
    if end > v && s[end - 1] == CR { end := end - 1; }
    header := Header(s[from..colon], s[v..end]);
  }

  method TakeHeader(m: Head, header: Header) returns (r: Option<Head>)
    ensures r == AddHeader(m, header)
  {
    var m' := m.(headers := m.headers + [header]);
    var isCseq := CompareIgnoringCase(header.name, CSEQ);
    if isCseq {
      var n := ParseNonNegative(header.value);
      return Some(if n.Some? then m'.(cseq := n.value) else m');
    }
    var isLength := CompareIgnoringCase(header.name, CONTENT_LENGTH);
    if isLength {
      var n := ParseNonNegative(header.value);
      if n.None? { return None; }
      m' := m'.(contentLength := n.value);
    }
    r := Some(m');
  }

  method ReadLine(s: seq<Byte>, p: nat, m: Head) returns (step: LineStep)
    requires p <= |s|
    ensures step == StepOver(s, p, m)
  {
    if p + 2 >= |s| { return Stop; }
    var nl := IndexOf(s, LF, p, |s|);
    if nl.None? { return Stop; }
    var colon := IndexOf(s, COLON, p, nl.value);
    if colon.None? { return Go(nl.value + 1, m); }
    if |m.headers| >= MAX_HEADERS { return Fail; }
    var header := ReadHeader(s, p, colon.value, nl.value);
    var next := TakeHeader(m, header);
    step := if next.None? then Fail else Go(nl.value + 1, next.value);
  }

  method ReadHeaders(s: seq<Byte>, start: nat, first: Head) returns (r: Option<Head>)
    requires start <= |s|
    ensures r == ParseHeaders(s, start, first)
  {
    var p, m := start, first;
    while true
      invariant p <= |s|
      invariant ParseHeaders(s, start, first) == ParseHeaders(s, p, m)
      decreases |s| - p
    {
      var step := ReadLine(s, p, m);
      match step {
        case Stop => return Some(m);
        case Fail => return None;
        case Go(next, m') => p, m := next, m';
      }
    }
  }

  method ReadHead(s: seq<Byte>) returns (head: Option<Head>)
    ensures head == ParseHead(s)
  {
    hide ParseHeaders;
    var sp1 := IndexOf(s, SP, 0, |s|);
    if sp1.None? { return None; }
    var sp2 := IndexOf(s, SP, sp1.value + 1, |s|);
    if sp2.None? { return None; }
    var line := IndexOf(s, LF, sp2.value, |s|);
    if line.None? { return None; }
    var first := Head(s[..sp1.value], s[sp1.value + 1..sp2.value], [], -1, 0);
    head := ReadHeaders(s, line.value + 1, first);
  }

  method ParseMessage(buf: seq<Byte>) returns (r: Parsed)
    ensures r == Parse(buf)
  {
    hide ParseHead;
    var e := FindHeadEnd(buf);
    if e.None? { return NeedMore; }
    var head := ReadHead(buf[..e.value]);
    if head.None? { return Malformed; }
    var have := |buf| - e.value;
    var n := head.value.contentLength;
    if have < n { return NeedBody(head.value, e.value); }
    r := Complete(head.value, buf[e.value..e.value + n], e.value + n);
  }

  // ----- more bytes never change what was already decided ---------------------------------

  lemma HeadEndStable(s: seq<Byte>, more: seq<Byte>)
    requires HeadEnd(s).Some?
    ensures HeadEnd(s + more) == HeadEnd(s)
  {
    var e := HeadEnd(s).value;
    assert BlankAt(s + more, e - 4);
    forall i: nat | i < e - 4 ensures !BlankAt(s + more, i) { assert !BlankAt(s, i); }
    assert HeadEnd(s + more).Some?;
  }

  /** A parse that succeeded or failed on a prefix gives the same answer on the whole. */
  lemma ParseStable(s: seq<Byte>, more: seq<Byte>)
    requires Parse(s).Complete? || Parse(s).Malformed?
    ensures Parse(s + more) == Parse(s)
  {
    hide ParseHead;
    HeadEndStable(s, more);
    var e := HeadEnd(s).value;
    assert (s + more)[..e] == s[..e];
    if Parse(s).Complete? {
      var n := Parse(s).head.contentLength;
      assert (s + more)[e..e + n] == s[e..e + n];
    }
  }
}
