/**
 End to end: requests written one after the other on the stream are the requests handled,
 in order and with their bodies, however the stream is cut (src/main.c, src/rtsp_msg.c).
 */
module RtspStream {
  import opened Words
  import opened Scan
  import opened RtspMessage
  import opened RtspRender
  import opened BodyCapture
  import opened Framing

  datatype Request = Request(method_: seq<Byte>, uri: seq<Byte>, version: seq<Byte>, headers: seq<Header>,
                             body: seq<Byte>)

  function Meaning(r: Request): Option<Head> {
    HeadOf(r.method_, r.uri, r.headers)
  }

  function HeadSize(r: Request): nat {
    HeadLength(r.method_, r.uri, r.version, r.headers)
  }

  /** A request that declares the length of its body, with a header block that fits the buffer. */
  ghost predicate WellFormed(r: Request) {
    && PlainRequest(r.method_, r.uri, r.version) && PlainHeaders(r.headers) && |r.headers| <= MAX_HEADERS
    && Meaning(r).Some? && Meaning(r).value.contentLength == |r.body|
    && HeadSize(r) <= RBUF_CAP
  }

  function Written(r: Request, tail: seq<Byte>): seq<Byte> {
    Render(r.method_, r.uri, r.version, r.headers, r.body + tail)
  }

  function WrittenAll(requests: seq<Request>): seq<Byte>
    decreases |requests|
  {
    if requests == [] then [] else Written(requests[0], WrittenAll(requests[1..]))
  }

  /** The request's first Content-Type begins with that text, in any case. */
  ghost predicate Declares(r: Request, text: seq<Byte>) {
    exists i :: 0 <= i < |r.headers| && Named(r.headers[i], CONTENT_TYPE)
                && (forall k :: 0 <= k < i ==> !Named(r.headers[k], CONTENT_TYPE))
                && |r.headers[i].value| >= |text| && CaseEqual(r.headers[i].value[..|text|], text)
  }

  /** Art goes to the file, as far as the disk takes it; track data to memory, up to 16384 bytes; the rest nowhere. */
  ghost function Stored(r: Request, fate: Fate): Out {
    if Declares(r, IMAGE_JPEG) then
      Captured(File, if fate.opens then r.body[..Min(|r.body|, fate.capacity)] else [],
               fate.opens && |r.body| <= fate.capacity && fate.renamed)
    else if Declares(r, DMAP_TAGGED) then Captured(Memory, r.body[..Min(|r.body|, 16384)], |r.body| <= 16384)
    else Captured(Discard, [], true)
  }

  /**
   What handling one request adds to the log. One that fits the buffer is captured first, if it sets parameters
   and has art or track data in its body; an oversized one is answered first and captured after.
   */
  ghost function Effect(log: seq<Out>, r: Request, env: Env): seq<Out>
    requires Meaning(r).Some?
  {
    var head := Meaning(r).value;
    if HeadSize(r) + |r.body| > RBUF_CAP then log + [Handled(head, None), Stored(r, env.fate(log))]
    else if r.method_ == SET_PARAMETER && r.body != [] && (Declares(r, IMAGE_JPEG) || Declares(r, DMAP_TAGGED)) then
      log + [Stored(r, env.fate(log)), Handled(head, Some(r.body))]
    else log + [Handled(head, Some(r.body))]
  }

  lemma {:induction false} FirstContentType(headers: seq<Header>)
    ensures ContentType(headers).Some? ==>
              exists i :: 0 <= i < |headers| && Named(headers[i], CONTENT_TYPE)
                          && (forall k :: 0 <= k < i ==> !Named(headers[k], CONTENT_TYPE))
                          && headers[i].value == ContentType(headers).value
    ensures ContentType(headers).None? ==> forall i :: 0 <= i < |headers| ==> !Named(headers[i], CONTENT_TYPE)
    decreases |headers|
  {
    hide CaseEqual;
    if headers != [] && !CaseEqual(headers[0].name, CONTENT_TYPE) {
      var rest := headers[1..];
      FirstContentType(rest);
      if ContentType(rest).Some? {
        var i :| 0 <= i < |rest| && Named(rest[i], CONTENT_TYPE)
                 && (forall k :: 0 <= k < i ==> !Named(rest[k], CONTENT_TYPE))
                 && rest[i].value == ContentType(rest).value;
        assert headers[i + 1] == rest[i];
        assert forall k :: 1 <= k < i + 1 ==> headers[k] == rest[k - 1];
      } else {
        assert forall i :: 1 <= i < |headers| ==> headers[i] == rest[i - 1];
      }
    }
  }

  lemma DeclaresIff(r: Request, text: seq<Byte>)
    ensures Declares(r, text) <==> ContentType(r.headers).Some? && StartsWith(ContentType(r.headers).value, text)
  {
    hide CaseEqual, ContentType;
    FirstContentType(r.headers);
  }

  /** The sink the program chooses, and what its capture comes to, are those of the request's type. */
  lemma CapturedIsStored(r: Request, fate: Fate)
    requires Meaning(r).Some?
    ensures Outcome(BodyMode(Meaning(r).value), r.body, fate) == Stored(r, fate)
    ensures BodyMode(Meaning(r).value) != Discard <==> Declares(r, IMAGE_JPEG) || Declares(r, DMAP_TAGGED)
  {
    hide Declares, ContentType, StartsWith;
    DeclaresIff(r, IMAGE_JPEG);
    DeclaresIff(r, DMAP_TAGGED);
    assert Meaning(r).value.headers == r.headers && r.body[..|r.body|] == r.body;
  }

  lemma EffectIsHandling(log: seq<Out>, r: Request, env: Env)
    requires Meaning(r).Some?
    ensures var head := Meaning(r).value;
            Effect(log, r, env) ==
            if HeadSize(r) + |r.body| <= RBUF_CAP then Handle(log, head, r.body, env)
            else log + [Handled(head, None), Outcome(BodyMode(head), r.body, env.fate(log))]
  {
    hide Declares, BodyMode, Outcome, Stored;
    CapturedIsStored(r, env.fate(log));
    assert Meaning(r).value.method_ == r.method_;
  }

  ghost function Effects(log: seq<Out>, requests: seq<Request>, env: Env): seq<Out>
    requires forall i :: 0 <= i < |requests| ==> WellFormed(requests[i])
    decreases |requests|
  {
    if requests == [] then log
    else
      assert WellFormed(requests[0]);
      Effects(Effect(log, requests[0], env), requests[1..], env)
  }

  lemma HeadEndInWindow(s: seq<Byte>, e: nat, k: nat)
    requires HeadEnd(s) == Some(e) && e <= k <= |s|
    ensures HeadEnd(s[..k]) == Some(e)
  {
    var t := s[..k];
    assert BlankAt(t, e - 4);
    forall i: nat | i < e - 4 ensures !BlankAt(t, i) { assert !BlankAt(s, i); }
    assert HeadEnd(t).Some?;
  }

  lemma OneRequest(r: Request, tail: seq<Byte>, log: seq<Out>, env: Env)
    requires WellFormed(r) && forall l :: !env.drops(l)
    ensures Reference(Written(r, tail), log, env) == Reference(tail, Effect(log, r, env), env)
  {
    hide Render, HeadOf, ParseHead, HeadEnd, PlainRequest, PlainHeaders, HeadLength, BodyMode, Handle, Outcome, Effect;
    EffectIsHandling(log, r, env);
    var s, e, total := Written(r, tail), HeadSize(r), HeadSize(r) + |r.body|;
    RenderedHeadParses(r.method_, r.uri, r.version, r.headers, r.body + tail);
    HeadEndInWindow(s, e, Min(|s|, RBUF_CAP));
    assert s[..Min(|s|, RBUF_CAP)][..e] == s[..e];
    assert s == s[..e] + (r.body + tail);
    assert s[e..total] == r.body && s[total..] == tail;
    var big := log + [Handled(Meaning(r).value, None)];
    var captured := Outcome(BodyMode(Meaning(r).value), r.body, env.fate(log));
    assert big + [captured] == log + [Handled(Meaning(r).value, None), captured];
  }

  lemma {:induction false} AllRequests(requests: seq<Request>, log: seq<Out>, env: Env)
    requires forall i :: 0 <= i < |requests| ==> WellFormed(requests[i])
    requires forall l :: !env.drops(l)
    ensures Reference(WrittenAll(requests), log, env) == Conn(true, [], None, Effects(log, requests, env))
    decreases |requests|
  {
    hide Written, Effect, HeadOf;
    if requests != [] {
      assert WellFormed(requests[0]);
      OneRequest(requests[0], WrittenAll(requests[1..]), log, env);
      AllRequests(requests[1..], Effect(log, requests[0], env), env);
    }
  }

  /** Requests sent back to back are handled one by one, each with its whole body, for every cut. */
  lemma PipelinedRequestsHandled(requests: seq<Request>, chunks: seq<seq<Byte>>, env: Env)
    requires forall i :: 0 <= i < |requests| ==> WellFormed(requests[i])
    requires forall l :: !env.drops(l)
    requires Receivable(chunks, env) && Flatten(chunks) == WrittenAll(requests)
    ensures Settle(Deliver(chunks, env), env) == Conn(true, [], None, Effects([], requests, env))
  {
    hide Reference, Deliver, Settle, WellFormed;
    AnyCutIsReference(chunks, env);
    AllRequests(requests, [], env);
  }
}
