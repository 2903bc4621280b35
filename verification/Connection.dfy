/**
 The read side of the server struct (src/main.c): the 8192-byte buffer shifted in place, and the
 body capture beside it. Each method has exactly the effect of its counterpart in Framing.
 */
module Connections {
  import opened Words
  import opened RtspMessage
  import opened BodyCapture
  import opened Framing

  class Connection {
    const rbuf: array<Byte>
    const cap: Capture
    const env: Env
    var rlen: nat
    var alive: bool
    var capturing: bool
    var log: seq<Out>

    ghost predicate Valid()
      reads this, rbuf, cap, cap.mem
    {
      && rbuf.Length == RBUF_CAP && rlen <= RBUF_CAP && rbuf != cap.mem
      && cap.Valid() && cap.mem.Length == META_CAP
      && (!alive ==> rlen == 0 && !capturing)
    }

    ghost function View(): Conn
      reads this, rbuf, cap
      requires rlen <= rbuf.Length
    {
      var stream := if capturing then Some(Stream(cap.mode, cap.fed, cap.remaining, cap.fate)) else None;
      Conn(alive, rbuf[..rlen], stream, log)
    }

    constructor (env: Env)
      ensures Valid() && View() == Start()
      ensures fresh(rbuf) && fresh(cap) && fresh(cap.mem) && this.env == env
    {
      rbuf := new Byte[8192];
      cap := new Capture(META_CAP);
      this.env := env;
      rlen, alive, capturing, log := 0, true, false, [];
    }

    method Teardown()
      requires Valid()
      modifies this
      ensures Valid() && View() == Gone(old(log))
    {
      rlen, alive, capturing := 0, false, false;
      assert rbuf[..0] == [];
    }

    /** memmove of the unread rest to the front of the buffer. */
    method Shift(off: nat)
      requires Valid() && off <= rlen
      modifies this`rlen, rbuf
      ensures Valid() || !alive
      ensures rlen == old(rlen) - off && rbuf[..rlen] == old(rbuf[off..rlen])
    {
      forall i | 0 <= i < rlen - off { rbuf[i] := rbuf[off + i]; }
      rlen := rlen - off;
    }

    /** A buffered art or metadata body goes through the capture in one piece before the request is answered. */
    method HandleMessage(head: Head, body: seq<Byte>) returns (dropped: bool)
      requires Valid() && !capturing
      modifies this`log, cap, cap.mem
      ensures Valid()
      ensures log == Handle(old(log), head, body, env) && dropped == env.drops(log)
    {
      var mode := BodyMode(head);
      if head.method_ == SET_PARAMETER && |body| > 0 && mode != Discard {
        cap.Begin(mode, |body|, env.fate(log));
        var take := cap.Feed(body);
        assert body[..take] == body && [] + body == body;
        var ok, kept := cap.Finish();
        log := log + [Captured(mode, kept, ok)];
      }
      log := log + [Handled(head, Some(body))];
      dropped := env.drops(log);
    }

    method DrainBuffer()
      requires Valid() && alive && !capturing
      modifies this, rbuf, cap, cap.mem
      ensures Valid()
      ensures View() == Drain(old(rbuf[..rlen]), old(log), env)
    {
      hide Parse, Handle;
      ghost var start := Drain(rbuf[..rlen], log, env);
      var off := 0;
      assert rbuf[0..rlen] == rbuf[..rlen];
      while off < rlen
        invariant 0 <= off <= rlen && alive && !capturing && Valid()
        invariant start == Drain(rbuf[off..rlen], log, env)
        decreases rlen - off
      {
        var r := ParseMessage(rbuf[off..rlen]);
        if r.NeedMore? || r.NeedBody? { break; }
        if r.Malformed? {
          log := log + [Hangup];
          Teardown();
          return;
        }
        var dropped := HandleMessage(r.head, r.body);
        if dropped {
          Teardown();
          return;
        }
        assert rbuf[off..rlen][r.consumed..] == rbuf[off + r.consumed..rlen];
        off := off + r.consumed;
      }
      StopsWhenEmpty(rbuf[off..rlen], log, env);
      Shift(off);
    }

    method FrameOversized()
      requires Valid() && alive && !capturing
      modifies this, cap, cap.mem
      ensures Valid()
      ensures View() == Oversized(old(View()), env)
    {
      hide Parse;
      var r := ParseMessage(rbuf[..rlen]);
      if !r.NeedBody? {
        log := log + [Hangup];
        Teardown();
        return;
      }
      var already := rbuf[r.headLength..rlen];
      assert already == rbuf[..rlen][r.headLength..];
      cap.Begin(BodyMode(r.head), r.head.contentLength, env.fate(log));
      log := log + [Handled(r.head, None)];
      if env.drops(log) {
        Teardown();
        return;
      }
      BeginStream(already);
    }

    /** Feeds what is already buffered of the body; the rest will be streamed. */
    method BeginStream(already: seq<Byte>)
      requires Valid() && alive && cap.fed == [] && cap.remaining > |already|
      modifies this, cap, cap.mem
      ensures Valid()
      ensures var st := Stream(old(cap.mode), already, old(cap.remaining) - |already|, old(cap.fate));
              View() == Conn(true, [], Some(st), old(log))
    {
      var take := cap.Feed(already);
      assert already[..|already|] == already && [] + already == already;
      rlen, capturing := 0, true;
      assert rbuf[..0] == [];
    }

    /** One readable event; chunk is what recv would return and is not received when the buffer is full. */
    method Readable(chunk: seq<Byte>)
      requires Valid()
      requires alive && !Full(View()) ==> |chunk| <= RBUF_CAP - rlen
      modifies this, rbuf, cap, cap.mem
      ensures Valid()
      ensures View() == OnReadable(old(View()), chunk, env)
    {
      if !alive { return; }
      if rlen == RBUF_CAP && !capturing {
        FrameOversized();
        return;
      }
      Append(chunk);
      if capturing {
        var done := StreamBuffer();
        if !done { return; }
      }
      DrainBuffer();
    }

    method Append(chunk: seq<Byte>)
      requires Valid() && |chunk| <= RBUF_CAP - rlen && alive
      modifies this`rlen, rbuf
      ensures Valid()
      ensures rlen == old(rlen) + |chunk| && rbuf[..rlen] == old(rbuf[..rlen]) + chunk
    {
      forall i | 0 <= i < |chunk| { rbuf[rlen + i] := chunk[i]; }
      rlen := rlen + |chunk|;
    }

    /** Feeds buffered bytes to the capture and finishes it when the body is complete. */
    method StreamBuffer() returns (done: bool)
      requires Valid() && alive && capturing
      modifies this, rbuf, cap, cap.mem
      ensures Valid() && alive
      ensures var st := old(Stream(cap.mode, cap.fed, cap.remaining, cap.fate));
              var buf := old(rbuf[..rlen]);
              var take := Min(|buf|, st.remaining);
              var fed := st.fed + buf[..take];
              && (done <==> take == st.remaining)
              && View() == if done then Conn(true, buf[take..], None, old(log) + [Outcome(st.mode, fed, st.fate)])
                           else
                             var rest := Stream(st.mode, fed, st.remaining - take, st.fate);
                             Conn(true, buf[take..], Some(rest), old(log))
    {
      var take := Min(rlen, cap.remaining);
      assert rbuf[..rlen][..take] == rbuf[..take];
      assert rbuf[..rlen][take..] == rbuf[take..rlen];
      assert rbuf[..take][..take] == rbuf[..take];
      var fed := cap.Feed(rbuf[..take]);
      Shift(take);
      done := cap.Done();
      if done {
        FinishCapture();
      }
    }

    /** Logs what the sink holds and whether the capture succeeded. */
    method FinishCapture()
      requires Valid() && alive && |cap.fed| == cap.declared
      modifies this
      ensures Valid()
      ensures View() == Conn(true, old(rbuf[..rlen]), None, old(log) + [Outcome(cap.mode, cap.fed, cap.fate)])
    {
      var ok, kept := cap.Finish();
      log := log + [Captured(cap.mode, kept, ok)];
      capturing := false;
    }
  }

  lemma StopsWhenEmpty(buf: seq<Byte>, log: seq<Out>, env: Env)
    requires buf == [] || Parse(buf).NeedMore? || Parse(buf).NeedBody?
    ensures Drain(buf, log, env) == Conn(true, buf, None, log)
  {
  }
}
