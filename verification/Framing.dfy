/**
 Splitting a client's TCP byte stream into RTSP requests (src/main.c: drain, frame_oversized,
 on_client_readable), with an 8192-byte read buffer and a streaming path for bodies that do not
 fit it. Whether handling a request ends the connection (TEARDOWN, or a failed reply), and what the
 file system does with a captured body, is decided by an environment: any functions of what has been
 handled so far.
 */
module Framing {
  import opened Words
  import opened Scan
  import opened RtspMessage
  import opened BodyCapture

  const RBUF_CAP: int := 8192
  const IMAGE_JPEG := Ascii("image/jpeg")
  const DMAP_TAGGED := Ascii("application/x-dmap-tagged")
  const CONTENT_TYPE := Ascii("Content-Type")
  const SET_PARAMETER := Ascii("SET_PARAMETER")

  datatype Out =
    | Handled(head: Head, body: Option<seq<Byte>>)
    | Captured(mode: Mode, kept: seq<Byte>, ok: bool)
    | Hangup

  datatype Env = Env(drops: seq<Out> -> bool, fate: seq<Out> -> Fate)

  /** The memory set aside for metadata. */
  const META_CAP: int := 16384

  /** A finished capture: what its sink holds of the body, and whether that is all of it, safely stored. */
  function Outcome(mode: Mode, body: seq<Byte>, fate: Fate): Out {
    var ok := !Failed(mode, body, fate, META_CAP) && (mode == File ==> fate.renamed);
    Captured(mode, Kept(mode, body, fate, META_CAP), ok)
  }

  /** A body being streamed: what has been fed and how much is still to come. */
  datatype Stream = Stream(mode: Mode, fed: seq<Byte>, remaining: nat, fate: Fate)

  datatype Conn = Conn(alive: bool, buf: seq<Byte>, stream: Option<Stream>, log: seq<Out>)

  function ContentType(headers: seq<Header>): Option<seq<Byte>> {
    if headers == [] then None
    else if CaseEqual(headers[0].name, CONTENT_TYPE) then Some(headers[0].value)
    else ContentType(headers[1..])
  }

  predicate StartsWith(s: seq<Byte>, prefix: seq<Byte>) {
    |s| >= |prefix| && CaseEqual(s[..|prefix|], prefix)
  }

  function BodyMode(head: Head): Mode {
    var ct := ContentType(head.headers);
    if ct.Some? && StartsWith(ct.value, IMAGE_JPEG) then File
    else if ct.Some? && StartsWith(ct.value, DMAP_TAGGED) then Memory
    else Discard
  }

  function Gone(log: seq<Out>): Conn {
    Conn(false, [], None, log)
  }

  /** handle_msg on a request whose whole body is buffered. */
  function Handle(log: seq<Out>, head: Head, body: seq<Byte>, env: Env): seq<Out> {
    var mode := BodyMode(head);
    var captured := if head.method_ == SET_PARAMETER && body != [] && mode != Discard
                    then [Outcome(mode, body, env.fate(log))] else [];
    log + captured + [Handled(head, Some(body))]
  }

  function Drain(buf: seq<Byte>, log: seq<Out>, env: Env): Conn
    decreases |buf|
  {
    match Parse(buf)
    case NeedMore => Conn(true, buf, None, log)
    case NeedBody(_, _) => Conn(true, buf, None, log)
    case Malformed => Gone(log + [Hangup])
    case Complete(head, body, consumed) =>
      var log' := Handle(log, head, body, env);
      if env.drops(log') then Gone(log') else Drain(buf[consumed..], log', env)
  }

  /** frame_oversized: answer from the headers and start streaming the body. */
  function Oversized(c: Conn, env: Env): Conn {
    match Parse(c.buf)
    case NeedBody(head, n) =>
      var log' := c.log + [Handled(head, None)];
      if env.drops(log') then Gone(log')
      else
        var already := c.buf[n..];
        var left := Max(head.contentLength - |already|, 0);
        Conn(true, [], Some(Stream(BodyMode(head), already, left, env.fate(c.log))), log')
    case _ => Gone(c.log + [Hangup])
  }

  predicate Full(c: Conn) {
    c.alive && |c.buf| == RBUF_CAP && c.stream.None?
  }

  /** What recv delivered, fed to the stream first and drained after it. */
  function Receive(c: Conn, chunk: seq<Byte>, env: Env): Conn {
    var buf := c.buf + chunk;
    match c.stream
    case None => Drain(buf, c.log, env)
    case Some(st) =>
      var take := Min(|buf|, st.remaining);
      var fed := st.fed + buf[..take];
      if take < st.remaining then
        Conn(true, buf[take..], Some(Stream(st.mode, fed, st.remaining - take, st.fate)), c.log)
      else Drain(buf[take..], c.log + [Outcome(st.mode, fed, st.fate)], env)
  }

  /** on_client_readable: a full buffer is dealt with first, and nothing is received then. */
  function OnReadable(c: Conn, chunk: seq<Byte>, env: Env): Conn {
    if !c.alive then c
    else if Full(c) then Oversized(c, env)
    else Receive(c, chunk, env)
  }

  /** A full buffer has been dealt with, by a readable event that receives nothing. */
  function Settle(c: Conn, env: Env): Conn {
    if Full(c) then OnReadable(c, [], env) else c
  }

  // ----- the reference: a parser of the whole stream ---------------------------------------

  /** The first message of s: where its header block ends and what it says. */
  function Reference(s: seq<Byte>, log: seq<Out>, env: Env): Conn
    decreases |s|
  {
    var e := HeadEnd(s[..Min(|s|, RBUF_CAP)]);
    if e.None? then
      if |s| < RBUF_CAP then Conn(true, s, None, log) else Gone(log + [Hangup])
    else
      var head := ParseHead(s[..e.value]);
      if head.None? then Gone(log + [Hangup])
      else
        var total := e.value + head.value.contentLength;
        if |s| < Min(total, RBUF_CAP) then Conn(true, s, None, log)
        else if total <= RBUF_CAP then
          var log' := Handle(log, head.value, s[e.value..total], env);
          if env.drops(log') then Gone(log') else Reference(s[total..], log', env)
        else
          var log' := log + [Handled(head.value, None)];
          var mode := BodyMode(head.value);
          if env.drops(log') then Gone(log')
          else if |s| < total then Conn(true, [], Some(Stream(mode, s[e.value..], total - |s|, env.fate(log))), log')
          else Reference(s[total..], log' + [Outcome(mode, s[e.value..total], env.fate(log))], env)
  }

  // ----- drain and settle agree with the reference on what fits the buffer -------------------

  lemma {:induction false} DrainIsReference(s: seq<Byte>, log: seq<Out>, env: Env)
    requires |s| <= RBUF_CAP
    ensures Settle(Drain(s, log, env), env) == Reference(s, log, env)
    decreases |s|
  {
    hide ParseHead, HeadEnd, BodyMode, Handle, Outcome;
    assert s[..Min(|s|, RBUF_CAP)] == s;
    match Parse(s)
    case NeedMore =>
    case NeedBody(head, n) =>
    case Malformed =>
    case Complete(head, body, consumed) =>
      var log' := Handle(log, head, body, env);
      if !env.drops(log') { DrainIsReference(s[consumed..], log', env); }
  }

  // ----- the reference can be resumed ---------------------------------------------------------

  /** More bytes for a connection that the reference left at c. */
  function Resume(c: Conn, more: seq<Byte>, env: Env): Conn {
    if !c.alive then c
    else
      match c.stream
      case None => Reference(c.buf + more, c.log, env)
      case Some(st) =>
        if |more| < st.remaining then c.(stream := Some(Stream(st.mode, st.fed + more, st.remaining - |more|, st.fate)))
        else Reference(more[st.remaining..], c.log + [Outcome(st.mode, st.fed + more[..st.remaining], st.fate)], env)
  }

  lemma WindowedHeadEnd(s: seq<Byte>, more: seq<Byte>)
    requires HeadEnd(s[..Min(|s|, RBUF_CAP)]).Some? || |s| >= RBUF_CAP
    ensures HeadEnd((s + more)[..Min(|s + more|, RBUF_CAP)]) == HeadEnd(s[..Min(|s|, RBUF_CAP)])
  {
    var a := s[..Min(|s|, RBUF_CAP)];
    var b := (s + more)[..Min(|s + more|, RBUF_CAP)];
    assert b == a + b[|a|..];
    if |s| >= RBUF_CAP { assert b == a; } else { HeadEndStable(a, b[|a|..]); }
  }

  /** Parsing a longer stream is parsing the shorter one and then carrying on. */
  lemma {:induction false} ReferenceResumes(s: seq<Byte>, more: seq<Byte>, log: seq<Out>, env: Env)
    ensures Reference(s + more, log, env) == Resume(Reference(s, log, env), more, env)
    decreases |s|
  {
    hide ParseHead, HeadEnd, BodyMode, Handle, Outcome;
    var e := HeadEnd(s[..Min(|s|, RBUF_CAP)]);
    if e.Some? || |s| >= RBUF_CAP {
      WindowedHeadEnd(s, more);
      if e.Some? {
        assert (s + more)[..e.value] == s[..e.value];
        var head := ParseHead(s[..e.value]);
        if head.Some? {
          var total := e.value + head.value.contentLength;
          if |s| >= total {
            assert (s + more)[e.value..total] == s[e.value..total];
            assert (s + more)[total..] == s[total..] + more;
            var small, big := Handle(log, head.value, s[e.value..total], env), log + [Handled(head.value, None)];
            var after := if total <= RBUF_CAP then small
                         else big + [Outcome(BodyMode(head.value), s[e.value..total], env.fate(log))];
            ReferenceResumes(s[total..], more, after, env);
          } else if |s| >= RBUF_CAP {
            ResumeStream(s, more, e.value, total);
          }
        }
      }
    }
  }

  lemma ResumeStream(s: seq<Byte>, more: seq<Byte>, e: nat, total: nat)
    requires e <= |s| < total
    ensures |s + more| < total ==> (s + more)[e..] == s[e..] + more && total - |s + more| == total - |s| - |more|
    ensures |s + more| >= total ==>
              && (s + more)[e..total] == s[e..] + more[..total - |s|]
              && (s + more)[total..] == more[total - |s|..]
  {
  }

  // ----- every way of cutting the stream -----------------------------------------------------

  function Start(): Conn {
    Conn(true, [], None, [])
  }

  /** The connection after receiving the chunks, a full buffer being dealt with before the next recv. */
  function Deliver(chunks: seq<seq<Byte>>, env: Env): Conn {
    if chunks == [] then Start()
    else OnReadable(Settle(Deliver(chunks[..|chunks| - 1], env), env), chunks[|chunks| - 1], env)
  }

  function Room(c: Conn): int {
    RBUF_CAP - |c.buf|
  }

  /** Each recv returns at least one byte and no more than there is room for. */
  ghost predicate Receivable(chunks: seq<seq<Byte>>, env: Env) {
    forall k :: 0 <= k < |chunks| ==>
                  var c := Settle(Deliver(chunks[..k], env), env);
                  c.alive ==> 0 < |chunks[k]| <= Room(c)
  }

  /** A connection that waits for recv has room, and while a body is streamed its buffer is empty. */
  ghost predicate Waiting(c: Conn) {
    c.alive ==>
      && |c.buf| < RBUF_CAP
      && (c.stream.Some? ==> c.buf == [] && c.stream.value.remaining > 0)
  }

  lemma {:induction false} ReferenceWaits(s: seq<Byte>, log: seq<Out>, env: Env)
    ensures Waiting(Reference(s, log, env))
    decreases |s|
  {
    hide ParseHead, HeadEnd, BodyMode, Handle, Outcome;
    var e := HeadEnd(s[..Min(|s|, RBUF_CAP)]);
    if e.Some? {
      var head := ParseHead(s[..e.value]);
      if head.Some? {
        var total := e.value + head.value.contentLength;
        if |s| >= total {
          var small, big := Handle(log, head.value, s[e.value..total], env), log + [Handled(head.value, None)];
          var after := if total <= RBUF_CAP then small
                       else big + [Outcome(BodyMode(head.value), s[e.value..total], env.fate(log))];
          ReferenceWaits(s[total..], after, env);
        }
      }
    }
  }

  /** One more chunk takes the settled connection where the reference goes on to. */
  lemma ChunkIsResume(c: Conn, chunk: seq<Byte>, env: Env)
    requires Waiting(c)
    requires c.alive ==> |chunk| <= Room(c)
    ensures Settle(OnReadable(c, chunk, env), env) == Resume(c, chunk, env)
  {
    hide Parse, Reference, Drain, Outcome;
    if c.alive {
      match c.stream
      case None => DrainIsReference(c.buf + chunk, c.log, env);
      case Some(st) =>
        assert c.buf + chunk == chunk;
        if |chunk| >= st.remaining {
          var body := st.fed + chunk[..st.remaining];
          DrainIsReference(chunk[st.remaining..], c.log + [Outcome(st.mode, body, st.fate)], env);
        } else {
          assert chunk[..|chunk|] == chunk && chunk[|chunk|..] == [];
        }
    }
  }

  /**
   However the stream is cut into reads, the requests handled, the bodies captured and the bytes
   left over are those the whole-stream parser finds, and recv always has room.
   */
  lemma {:induction false} AnyCutIsReference(chunks: seq<seq<Byte>>, env: Env)
    requires Receivable(chunks, env)
    ensures Settle(Deliver(chunks, env), env) == Reference(Flatten(chunks), [], env)
    ensures Waiting(Settle(Deliver(chunks, env), env))
    decreases |chunks|
  {
    hide Parse, Reference, Drain, Oversized;
    ReferenceWaits(Flatten(chunks), [], env);
    if chunks == [] {
      DrainIsReference([], [], env);
      EmptyDrain(env);
    } else {
      var before, chunk := chunks[..|chunks| - 1], chunks[|chunks| - 1];
      assert Receivable(before, env) by {
        forall k | 0 <= k < |before|
          ensures var c := Settle(Deliver(before[..k], env), env); c.alive ==> 0 < |before[k]| <= Room(c)
        {
          assert before[..k] == chunks[..k];
        }
      }
      AnyCutIsReference(before, env);
      ReferenceResumes(Flatten(before), chunk, [], env);
      assert before == chunks[..|chunks| - 1];
      ChunkIsResume(Settle(Deliver(before, env), env), chunk, env);
    }
  }

  lemma EmptyDrain(env: Env)
    ensures Drain([], [], env) == Start() && !Full(Start())
  {
  }
}
