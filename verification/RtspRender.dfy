/**
 The other direction of RTSP framing: a request written out in the form of section 6 of
 RFC 2326 is parsed back to exactly its method, URI, headers and body (src/rtsp_msg.c).
 */
module RtspRender {
  import opened Words
  import opened Scan
  import opened RtspMessage

  const CRLF: seq<Byte> := [CR, LF]

  /** The header lines, the blank line and whatever comes after them. */
  function RenderHeaders(headers: seq<Header>, tail: seq<Byte>): seq<Byte>
    decreases |headers|
  {
    if headers == [] then CRLF + tail
    else
      var h := headers[0];
      h.name + ([COLON, SP] + (h.value + (CRLF + RenderHeaders(headers[1..], tail))))
  }

  /** A request followed by `tail`, which begins with its body. The parser ignores the version. */
  function Render(method_: seq<Byte>, uri: seq<Byte>, version: seq<Byte>, headers: seq<Header>, tail: seq<Byte>)
    : seq<Byte>
  {
    method_ + ([SP] + (uri + ([SP] + (version + (CRLF + RenderHeaders(headers, tail))))))
  }

  predicate Plain(s: seq<Byte>) {
    CR !in s && LF !in s
  }

  predicate PlainHeader(h: Header) {
    && Plain(h.name) && COLON !in h.name
    && Plain(h.value) && (h.value != [] ==> h.value[0] != SP && h.value[0] != TAB)
  }

  ghost predicate PlainHeaders(headers: seq<Header>) {
    forall i :: 0 <= i < |headers| ==> PlainHeader(headers[i])
  }

  /** The parser's reading of a list of headers, one by one. */
  function Assemble(acc: Head, headers: seq<Header>): Option<Head>
    decreases |headers|
  {
    if headers == [] then Some(acc)
    else
      var next := AddHeader(acc, headers[0]);
      if next.None? then None else Assemble(next.value, headers[1..])
  }

  lemma OneMoreHeader(method_: seq<Byte>, uri: seq<Byte>, done: seq<Header>, h: Header)
    ensures HeadOf(method_, uri, done + [h]) ==
            if HeadOf(method_, uri, done).None? then None else AddHeader(HeadOf(method_, uri, done).value, h)
  {
    hide CaseEqual, Number;
    NamesDiffer(h.name);
    assert (done + [h])[..|done|] == done;
    if BadLength(done) {
      var i :| 0 <= i < |done| && Named(done[i], CONTENT_LENGTH) && Number(done[i].value).None?;
      assert (done + [h])[i] == done[i];
    }
    assert (done + [h])[|done|] == h;
  }

  lemma NamesDiffer(name: seq<Byte>)
    ensures !(CaseEqual(name, CSEQ) && CaseEqual(name, CONTENT_LENGTH))
  {
    assert |LowerAll(CSEQ)| == 4 && |LowerAll(CONTENT_LENGTH)| == 14;
  }

  /** Reading the headers one by one finds what the list as a whole means. */
  lemma {:induction false} AssembleIsMeaning(method_: seq<Byte>, uri: seq<Byte>, done: seq<Header>, rest: seq<Header>)
    requires HeadOf(method_, uri, done).Some?
    ensures Assemble(HeadOf(method_, uri, done).value, rest) == HeadOf(method_, uri, done + rest)
    decreases |rest|
  {
    hide HeadOf, AddHeader;
    if rest == [] {
      assert done + rest == done;
    } else {
      OneMoreHeader(method_, uri, done, rest[0]);
      assert done + [rest[0]] + rest[1..] == done + rest;
      if HeadOf(method_, uri, done + [rest[0]]).Some? {
        AssembleIsMeaning(method_, uri, done + [rest[0]], rest[1..]);
      } else {
        StaysBad(method_, uri, done + [rest[0]], rest[1..]);
      }
    }
  }

  lemma StaysBad(method_: seq<Byte>, uri: seq<Byte>, done: seq<Header>, rest: seq<Header>)
    requires HeadOf(method_, uri, done).None?
    ensures HeadOf(method_, uri, done + rest).None?
  {
    var i :| 0 <= i < |done| && Named(done[i], CONTENT_LENGTH) && Number(done[i].value).None?;
    assert (done + rest)[i] == done[i];
  }

  lemma AssembleAll(method_: seq<Byte>, uri: seq<Byte>, headers: seq<Header>)
    ensures Assemble(Head(method_, uri, [], -1, 0), headers) == HeadOf(method_, uri, headers)
  {
    AssembleIsMeaning(method_, uri, [], headers);
    assert [] + headers == headers;
  }

  // ----- the layout of a rendered header block, position by position -----------------------

  ghost predicate EndsLine(s: seq<Byte>, at: nat) {
    at + 1 < |s| && s[at] == CR && s[at + 1] == LF
  }

  function LineLength(h: Header): nat {
    |h.name| + |h.value| + 4
  }

  /** s holds the line of h at position from. */
  ghost predicate HeaderAt(s: seq<Byte>, from: nat, h: Header) {
    var colon := from + |h.name|;
    var end := colon + 2 + |h.value|;
    && EndsLine(s, end)
    && s[from..colon] == h.name && s[colon] == COLON && s[colon + 1] == SP && s[colon + 2..end] == h.value
  }

  /** s holds the lines of all headers at position from, and a blank line after them. */
  ghost predicate BlockAt(s: seq<Byte>, from: nat, headers: seq<Header>)
    decreases |headers|
  {
    if headers == [] then EndsLine(s, from)
    else HeaderAt(s, from, headers[0]) && BlockAt(s, from + LineLength(headers[0]), headers[1..])
  }

  /** The position after the blank line. */
  function BlockEnd(from: nat, headers: seq<Header>): (e: nat)
    ensures from + 2 <= e
    decreases |headers|
  {
    if headers == [] then from + 2 else BlockEnd(from + LineLength(headers[0]), headers[1..])
  }

  lemma Cut(s: seq<Byte>, at: nat, a: seq<Byte>, b: seq<Byte>)
    requires at <= |s| && s[at..] == a + b
    ensures at + |a| <= |s| && s[at..at + |a|] == a && s[at + |a|..] == b
    ensures forall i {:trigger a[i]} :: 0 <= i < |a| ==> s[at + i] == a[i]
  {
    assert s[at..][..|a|] == a && s[at..][|a|..] == b;
    forall i {:trigger a[i]} | 0 <= i < |a| ensures s[at + i] == a[i] { assert s[at..][i] == a[i]; }
  }

  /** A piece of text followed by a two-byte separator. */
  lemma Piece(s: seq<Byte>, at: nat, part: seq<Byte>, sep: seq<Byte>, rest: seq<Byte>)
    requires at <= |s| && |sep| == 2 && s[at..] == part + (sep + rest)
    ensures at + |part| + 2 <= |s| && s[at..at + |part|] == part
    ensures s[at + |part|] == sep[0] && s[at + |part| + 1] == sep[1]
    ensures s[at + |part| + 2..] == rest
  {
    Cut(s, at, part, sep + rest);
    Cut(s, at + |part|, sep, rest);
  }

  lemma HeaderLayout(s: seq<Byte>, from: nat, h: Header, rest: seq<Byte>)
    requires from <= |s| && s[from..] == h.name + ([COLON, SP] + (h.value + (CRLF + rest)))
    ensures HeaderAt(s, from, h)
    ensures from + LineLength(h) <= |s| && s[from + LineLength(h)..] == rest
  {
    Piece(s, from, h.name, [COLON, SP], h.value + (CRLF + rest));
    Piece(s, from + |h.name| + 2, h.value, CRLF, rest);
  }

  lemma {:induction false} BlockLayout(s: seq<Byte>, from: nat, headers: seq<Header>, tail: seq<Byte>)
    requires from <= |s| && s[from..] == RenderHeaders(headers, tail)
    ensures BlockAt(s, from, headers)
    ensures BlockEnd(from, headers) <= |s| && s[BlockEnd(from, headers)..] == tail
    decreases |headers|
  {
    if headers == [] {
      Cut(s, from, CRLF, tail);
      assert CRLF[0] == CR && CRLF[1] == LF;
    } else {
      var h, rest := headers[0], headers[1..];
      assert s[from..] == h.name + ([COLON, SP] + (h.value + (CRLF + RenderHeaders(rest, tail))));
      HeaderLayout(s, from, h, RenderHeaders(rest, tail));
      BlockLayout(s, from + LineLength(h), rest, tail);
      assert BlockEnd(from, headers) == BlockEnd(from + LineLength(h), rest);
    }
  }

  /** What follows the block does not matter to it. */
  lemma {:induction false} BlockAtPrefix(s: seq<Byte>, from: nat, headers: seq<Header>)
    requires BlockAt(s, from, headers) && BlockEnd(from, headers) <= |s|
    ensures BlockAt(s[..BlockEnd(from, headers)], from, headers)
    decreases |headers|
  {
    if headers != [] {
      var next := from + LineLength(headers[0]);
      BlockAtPrefix(s, next, headers[1..]);
      HeaderAtPrefix(s, from, headers[0], BlockEnd(from, headers));
    }
  }

  lemma HeaderAtPrefix(s: seq<Byte>, from: nat, h: Header, end: nat)
    requires HeaderAt(s, from, h) && from + LineLength(h) <= end <= |s|
    ensures HeaderAt(s[..end], from, h)
  {
    var colon := from + |h.name|;
    assert s[..end][from..colon] == s[from..colon];
    assert s[..end][colon + 2..colon + 2 + |h.value|] == s[colon + 2..colon + 2 + |h.value|];
  }

  // ----- reading the block back ------------------------------------------------------------

  lemma IndexIs(s: seq<Byte>, b: Byte, from: nat, until: nat, at: nat)
    requires from <= at < until <= |s| && s[at] == b
    requires forall i :: from <= i < at ==> s[i] != b
    ensures IndexOf(s, b, from, until) == Some(at)
  {
  }

  lemma HeaderBytes(s: seq<Byte>, from: nat, h: Header)
    requires HeaderAt(s, from, h) && PlainHeader(h)
    ensures var colon := from + |h.name|;
            var end := colon + 2 + |h.value|;
            && (forall i :: from <= i < end ==> s[i] != CR && s[i] != LF)
            && (forall i :: from <= i < colon ==> s[i] != COLON)
            && (h.value != [] ==> s[colon + 2] != SP && s[colon + 2] != TAB)
  {
    var colon := from + |h.name|;
    var end := colon + 2 + |h.value|;
    forall i | from <= i < colon ensures s[i] in h.name { assert s[from..colon][i - from] in h.name; }
    forall i | colon + 2 <= i < end ensures s[i] in h.value { assert s[colon + 2..end][i - colon - 2] in h.value; }
    if h.value != [] { assert s[colon + 2] == s[colon + 2..end][0]; }
  }

  /** One rendered header line is read back as that header. */
  lemma HeaderReadsBack(s: seq<Byte>, from: nat, h: Header)
    requires HeaderAt(s, from, h) && PlainHeader(h)
    ensures var colon, nl := from + |h.name|, from + LineLength(h) - 1;
            && IndexOf(s, LF, from, |s|) == Some(nl)
            && IndexOf(s, COLON, from, nl) == Some(colon)
            && HeaderOn(s, from, colon, nl) == h
  {
    var colon, nl := from + |h.name|, from + LineLength(h) - 1;
    HeaderBytes(s, from, h);
    IndexIs(s, LF, from, |s|, nl);
    IndexIs(s, COLON, from, nl, colon);
    assert SkipBlanks(s, colon + 1, nl) == SkipBlanks(s, colon + 2, nl) == colon + 2;
  }

  /** The parser takes one rendered line as one header and goes on behind it. */
  lemma OneHeaderRead(s: seq<Byte>, from: nat, h: Header, acc: Head)
    requires HeaderAt(s, from, h) && PlainHeader(h)
    ensures from + LineLength(h) <= |s|
    ensures StepOver(s, from, acc) ==
            if |acc.headers| >= MAX_HEADERS || AddHeader(acc, h).None? then Fail
            else Go(from + LineLength(h), AddHeader(acc, h).value)
  {
    hide AddHeader, HeaderOn, HeaderAt, PlainHeader, IndexOf;
    HeaderReadsBack(s, from, h);
  }

  lemma StopsAtBlank(s: seq<Byte>, from: nat, acc: Head)
    requires from + 2 == |s|
    ensures StepOver(s, from, acc) == Stop
  {
  }

  lemma {:induction false} BlockReadsBack(s: seq<Byte>, from: nat, headers: seq<Header>, acc: Head)
    requires PlainHeaders(headers) && BlockAt(s, from, headers) && BlockEnd(from, headers) == |s|
    ensures ParseHeaders(s, from, acc) ==
            if |acc.headers| + |headers| <= MAX_HEADERS || headers == [] then Assemble(acc, headers) else None
    decreases |headers|
  {
    hide StepOver, AddHeader, HeaderAt, PlainHeader;
    if headers == [] {
      StopsAtBlank(s, from, acc);
    } else {
      var h, rest := headers[0], headers[1..];
      OneHeaderRead(s, from, h, acc);
      if StepOver(s, from, acc).Go? {
        BlockReadsBack(s, from + LineLength(h), rest, StepOver(s, from, acc).acc);
      }
    }
  }

  lemma NoBlankBefore(s: seq<Byte>, a: nat, b: nat)
    requires a <= b
    requires forall i: nat :: a <= i < b ==> !BlankAt(s, i)
    ensures HeadEndFrom(s, a) == HeadEndFrom(s, b)
  {
    assert HeadEndFrom(s, a).Some? ==> BlankAt(s, HeadEndFrom(s, a).value - 4);
    assert HeadEndFrom(s, b).Some? ==> BlankAt(s, HeadEndFrom(s, b).value - 4);
  }

  /** The block ends at the blank line after the last header, and not before. */
  lemma {:induction false} EndOfBlock(s: seq<Byte>, from: nat, headers: seq<Header>)
    requires 2 <= from && EndsLine(s, from - 2)
    requires PlainHeaders(headers) && BlockAt(s, from, headers)
    ensures HeadEndFrom(s, from - 2) == Some(BlockEnd(from, headers))
    decreases |headers|
  {
    if headers == [] {
      assert BlankAt(s, from - 2);
    } else {
      var next := from + LineLength(headers[0]);
      assert PlainHeader(headers[0]) && PlainHeaders(headers[1..]);
      HeaderBytes(s, from, headers[0]);
      assert s[from] != CR;
      NoBlankBefore(s, from - 2, next - 2);
      EndOfBlock(s, next, headers[1..]);
    }
  }

  // ----- the request line --------------------------------------------------------------------

  function RequestLineLength(method_: seq<Byte>, uri: seq<Byte>, version: seq<Byte>): nat {
    |method_| + |uri| + |version| + 4
  }

  /** s begins with the request line of method, uri and version. */
  ghost predicate RequestLineAt(s: seq<Byte>, method_: seq<Byte>, uri: seq<Byte>, version: seq<Byte>) {
    var sp1, sp2 := |method_|, |method_| + 1 + |uri|;
    && EndsLine(s, sp2 + 1 + |version|)
    && s[..sp1] == method_ && s[sp1] == SP && s[sp1 + 1..sp2] == uri && s[sp2] == SP
    && s[sp2 + 1..sp2 + 1 + |version|] == version
  }

  lemma Word(s: seq<Byte>, at: nat, word: seq<Byte>, rest: seq<Byte>)
    requires at <= |s| && s[at..] == word + ([SP] + rest)
    ensures at + |word| < |s| && s[at..at + |word|] == word && s[at + |word|] == SP
    ensures s[at + |word| + 1..] == rest
  {
    Cut(s, at, word, [SP] + rest);
    Cut(s, at + |word|, [SP], rest);
    assert [SP][0] == SP;
  }

  lemma RequestLineLayout(s: seq<Byte>, method_: seq<Byte>, uri: seq<Byte>, version: seq<Byte>, rest: seq<Byte>)
    requires s == method_ + ([SP] + (uri + ([SP] + (version + (CRLF + rest)))))
    ensures RequestLineAt(s, method_, uri, version)
    ensures s[RequestLineLength(method_, uri, version)..] == rest
  {
    var sp1, sp2 := |method_|, |method_| + 1 + |uri|;
    var line2 := version + (CRLF + rest);
    assert s[0..] == s;
    Word(s, 0, method_, uri + ([SP] + line2));
    Word(s, sp1 + 1, uri, line2);
    Piece(s, sp2 + 1, version, CRLF, rest);
  }

  ghost predicate PlainRequest(method_: seq<Byte>, uri: seq<Byte>, version: seq<Byte>) {
    Plain(method_) && SP !in method_ && Plain(uri) && SP !in uri && Plain(version)
  }

  lemma RequestLineBytes(s: seq<Byte>, method_: seq<Byte>, uri: seq<Byte>, version: seq<Byte>)
    requires RequestLineAt(s, method_, uri, version) && PlainRequest(method_, uri, version)
    ensures var sp1, sp2 := |method_|, |method_| + 1 + |uri|;
            && (forall i :: 0 <= i < sp2 + 1 + |version| ==> s[i] != CR && s[i] != LF)
            && (forall i :: 0 <= i < sp1 ==> s[i] != SP)
            && (forall i :: sp1 < i < sp2 ==> s[i] != SP)
  {
    var sp1, sp2 := |method_|, |method_| + 1 + |uri|;
    var end := sp2 + 1 + |version|;
    forall i | 0 <= i < sp1 ensures s[i] in method_ { assert s[..sp1][i] in method_; }
    forall i | sp1 < i < sp2 ensures s[i] in uri { assert s[sp1 + 1..sp2][i - sp1 - 1] in uri; }
    forall i | sp2 < i < end ensures s[i] in version { assert s[sp2 + 1..end][i - sp2 - 1] in version; }
  }

  lemma RequestLineReadsBack(s: seq<Byte>, method_: seq<Byte>, uri: seq<Byte>, version: seq<Byte>)
    requires RequestLineAt(s, method_, uri, version) && PlainRequest(method_, uri, version)
    ensures RequestLine(s) ==
            Some((|method_|, |method_| + 1 + |uri|, RequestLineLength(method_, uri, version) - 1))
    ensures s[..|method_|] == method_ && s[|method_| + 1..|method_| + 1 + |uri|] == uri
  {
    var sp1, sp2 := |method_|, |method_| + 1 + |uri|;
    RequestLineBytes(s, method_, uri, version);
    IndexIs(s, SP, 0, |s|, sp1);
    IndexIs(s, SP, sp1 + 1, |s|, sp2);
    IndexIs(s, LF, sp2, |s|, sp2 + 2 + |version|);
  }

  lemma RequestLineAtPrefix(s: seq<Byte>, method_: seq<Byte>, uri: seq<Byte>, version: seq<Byte>, end: nat)
    requires RequestLineAt(s, method_, uri, version)
    requires RequestLineLength(method_, uri, version) <= end <= |s|
    ensures RequestLineAt(s[..end], method_, uri, version)
  {
    var sp1, sp2 := |method_|, |method_| + 1 + |uri|;
    assert s[..end][..sp1] == s[..sp1] && s[..end][sp1 + 1..sp2] == s[sp1 + 1..sp2];
    assert s[..end][sp2 + 1..sp2 + 1 + |version|] == s[sp2 + 1..sp2 + 1 + |version|];
  }

  // ----- whole requests -------------------------------------------------------------------------

  /** Where the header block of a rendered request ends. */
  function HeadLength(method_: seq<Byte>, uri: seq<Byte>, version: seq<Byte>, headers: seq<Header>): nat {
    BlockEnd(RequestLineLength(method_, uri, version), headers)
  }

  /** The pieces of a rendered request stand where they should. */
  lemma RequestLayout(method_: seq<Byte>, uri: seq<Byte>, version: seq<Byte>, headers: seq<Header>, tail: seq<Byte>)
    ensures var s := Render(method_, uri, version, headers, tail);
            var e := HeadLength(method_, uri, version, headers);
            && RequestLineAt(s, method_, uri, version)
            && BlockAt(s, RequestLineLength(method_, uri, version), headers)
            && e <= |s| && s[e..] == tail
  {
    var s := Render(method_, uri, version, headers, tail);
    RequestLineLayout(s, method_, uri, version, RenderHeaders(headers, tail));
    BlockLayout(s, RequestLineLength(method_, uri, version), headers, tail);
  }

  lemma LaidOutHeadEnds(s: seq<Byte>, method_: seq<Byte>, uri: seq<Byte>, version: seq<Byte>, headers: seq<Header>)
    requires PlainRequest(method_, uri, version) && PlainHeaders(headers)
    requires RequestLineAt(s, method_, uri, version)
    requires BlockAt(s, RequestLineLength(method_, uri, version), headers)
    ensures HeadEnd(s) == Some(HeadLength(method_, uri, version, headers))
  {
    var from := RequestLineLength(method_, uri, version);
    RequestLineBytes(s, method_, uri, version);
    NoBlankBefore(s, 0, from - 2);
    EndOfBlock(s, from, headers);
  }

  lemma HeadFromLine(s: seq<Byte>, sp1: nat, sp2: nat, nl: nat, method_: seq<Byte>, uri: seq<Byte>)
    requires RequestLine(s) == Some((sp1, sp2, nl)) && s[..sp1] == method_ && s[sp1 + 1..sp2] == uri
    ensures ParseHead(s) == ParseHeaders(s, nl + 1, Head(method_, uri, [], -1, 0))
  {
    hide RequestLine, ParseHeaders;
  }

  /** A request line laid out at the front leaves the headers to be read behind it. */
  lemma RequestLineParses(s: seq<Byte>, method_: seq<Byte>, uri: seq<Byte>, version: seq<Byte>)
    requires RequestLineAt(s, method_, uri, version) && PlainRequest(method_, uri, version)
    ensures RequestLineLength(method_, uri, version) <= |s|
    ensures ParseHead(s) == ParseHeaders(s, RequestLineLength(method_, uri, version), Head(method_, uri, [], -1, 0))
  {
    hide ParseHeaders, RequestLine, PlainRequest, ParseHead, RequestLineAt;
    RequestLineReadsBack(s, method_, uri, version);
    HeadFromLine(s, |method_|, |method_| + 1 + |uri|, RequestLineLength(method_, uri, version) - 1, method_, uri);
  }

  /** A header block laid out on its own is read back. */
  lemma LaidOutHeadParses(s: seq<Byte>, method_: seq<Byte>, uri: seq<Byte>, version: seq<Byte>, headers: seq<Header>)
    requires PlainRequest(method_, uri, version) && PlainHeaders(headers)
    requires RequestLineAt(s, method_, uri, version)
    requires BlockAt(s, RequestLineLength(method_, uri, version), headers)
    requires |s| == HeadLength(method_, uri, version, headers)
    ensures ParseHead(s) ==
            if |headers| <= MAX_HEADERS then Assemble(Head(method_, uri, [], -1, 0), headers) else None
  {
    hide ParseHead, ParseHeaders, Assemble, BlockAt, BlockEnd, PlainRequest, RequestLineAt;
    RequestLineParses(s, method_, uri, version);
    BlockReadsBack(s, RequestLineLength(method_, uri, version), headers, Head(method_, uri, [], -1, 0));
  }

  /** Cutting off what follows the header block leaves its layout alone. */
  lemma HeadLayout(s: seq<Byte>, method_: seq<Byte>, uri: seq<Byte>, version: seq<Byte>, headers: seq<Header>)
    requires RequestLineAt(s, method_, uri, version)
    requires BlockAt(s, RequestLineLength(method_, uri, version), headers)
    requires HeadLength(method_, uri, version, headers) <= |s|
    ensures var head := s[..HeadLength(method_, uri, version, headers)];
            && RequestLineAt(head, method_, uri, version)
            && BlockAt(head, RequestLineLength(method_, uri, version), headers)
  {
    RequestLineAtPrefix(s, method_, uri, version, HeadLength(method_, uri, version, headers));
    BlockAtPrefix(s, RequestLineLength(method_, uri, version), headers);
  }

  /**
   Whatever follows it, the header block of a rendered request is found in full and means its method, URI and
   headers, or is refused for a bad Content-Length or for holding more than 24 headers.
   */
  lemma RenderedHeadParses(method_: seq<Byte>, uri: seq<Byte>, version: seq<Byte>, headers: seq<Header>,
                           tail: seq<Byte>)
    requires PlainRequest(method_, uri, version) && PlainHeaders(headers)
    ensures var s := Render(method_, uri, version, headers, tail);
            var e := HeadLength(method_, uri, version, headers);
            && HeadEnd(s) == Some(e) && s[e..] == tail
            && ParseHead(s[..e]) == if |headers| <= MAX_HEADERS then HeadOf(method_, uri, headers) else None
  {
    var s := Render(method_, uri, version, headers, tail);
    RequestLayout(method_, uri, version, headers, tail);
    LaidOutHeadEnds(s, method_, uri, version, headers);
    HeadLayout(s, method_, uri, version, headers);
    LaidOutHeadParses(s[..HeadLength(method_, uri, version, headers)], method_, uri, version, headers);
    AssembleAll(method_, uri, headers);
  }

  lemma BodyFollows(s: seq<Byte>, e: nat, head: Head, body: seq<Byte>, more: seq<Byte>)
    requires HeadEnd(s) == Some(e) && ParseHead(s[..e]) == Some(head) && head.contentLength == |body|
    requires s[e..] == body + more
    ensures Parse(s) == Complete(head, body, e + |body|)
  {
    Cut(s, e, body, more);
  }

  /** Whatever follows it on the stream, a rendered request is parsed back in full and no further. */
  lemma RenderedRequestParses(method_: seq<Byte>, uri: seq<Byte>, version: seq<Byte>, headers: seq<Header>,
                              body: seq<Byte>, more: seq<Byte>)
    requires PlainRequest(method_, uri, version) && PlainHeaders(headers) && |headers| <= MAX_HEADERS
    requires var h := HeadOf(method_, uri, headers); h.Some? && h.value.contentLength == |body|
    ensures Parse(Render(method_, uri, version, headers, body + more)) ==
            Complete(HeadOf(method_, uri, headers).value, body, HeadLength(method_, uri, version, headers) + |body|)
  {
    hide Render, HeadOf, Parse, ParseHead, HeadEnd;
    RenderedHeadParses(method_, uri, version, headers, body + more);
    BodyFollows(Render(method_, uri, version, headers, body + more), HeadLength(method_, uri, version, headers),
                HeadOf(method_, uri, headers).value, body, more);
  }
}
