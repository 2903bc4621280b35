/**
 The RTSP session and the server as the objects the daemon updates in place. Every method is
 proved to make the step of ServerModel.
 */
module Servers {
  import opened Words
  import opened ServerModel

  class RtspSession {
    var state: State
    var haveSdp: bool
    var ports: Ports
    var senderPorts: (int, int)
    var boundary: (Word16, Word32)
    var volume: int
    var action: Action

    ghost function View(): Rtsp
      reads this
    {
      Rtsp(state, haveSdp, ports, senderPorts, boundary, volume, action)
    }

    constructor ()
      ensures View() == FRESH
    {
      state, haveSdp, ports, senderPorts := Idle, false, NO_PORTS, (0, 0);
      boundary, volume, action := (0, 0), -1, NoAction;
    }

    /** rtsp_session_init */
    method Reset()
      modifies this
      ensures View() == FRESH
    {
      state, haveSdp, ports, senderPorts := Idle, false, NO_PORTS, (0, 0);
      boundary, volume, action := (0, 0), -1, NoAction;
    }

    /** rtsp_handle */
    method Handle(q: Request) returns (reply: Reply)
      modifies this
      ensures (View(), reply) == HandleRtsp(old(View()), q)
    {
      action := NoAction;
      reply := OK;
      match q.method_ {
        case Options =>
        case Announce =>
          if state != Idle {
            reply := Reply(453, None);
          } else if !q.sdpOk {
            reply := Reply(400, None);
          } else {
            haveSdp, state := true, Announced;
          }
        case Setup =>
          if state != Announced || q.transport.None? {
            reply := Reply(455, None);
          } else {
            senderPorts, state, action := q.transport.value, SetUp, BindRtp;
            reply := Reply(200, Some(ports));
          }
        case Record =>
          if state != SetUp {
            reply := Reply(455, None);
          } else {
            if q.rtpInfo.Some? { boundary := q.rtpInfo.value; }
            state, action := Playing, StartPlay;
          }
        case Flush =>
          if state != Playing {
            reply := Reply(455, None);
          } else {
            if q.rtpInfo.Some? { boundary := q.rtpInfo.value; }
            action := FlushPlay;
          }
        case SetParameter =>
          if q.volume.Some? { volume, action := q.volume.value, SetVolume; }
        case GetParameter =>
          if state != SetUp && state != Playing { reply := Reply(455, None); }
        case Teardown =>
          if state != Idle { action := TearDown; }
          state, haveSdp, volume, senderPorts, boundary := Idle, false, -1, (0, 0), (0, 0);
        case Other =>
          reply := Reply(501, None);
      }
    }
  }

  class Daemon {
    const rtsp: RtspSession
    var client: bool
    var bound: Option<Socks>
    var session: Option<Socks>
    var locks: int
    var playing: bool
    var opens: nat
    var closed: seq<nat>

    ghost function View(): Server
      reads this, rtsp
    {
      Server(rtsp.View(), client, bound, session, locks, playing, opens, closed)
    }

    constructor ()
      ensures View() == BOOT && fresh(rtsp)
      ensures Inv(View())
    {
      rtsp := new RtspSession();
      client, bound, session, locks, playing, opens, closed := false, None, None, 0, false, 0, [];
    }

    /** teardown_client */
    method TearDownNow()
      modifies this, rtsp
      ensures View() == TearDownClient(old(View()))
    {
      playing := false;
      if session.Some? {
        closed := closed + [session.value.id];
        session := None;
        locks := locks - 1;
        bound := None;
      } else {
        if bound.Some? { closed := closed + [bound.value.id]; }
        bound := None;
      }
      client := false;
      rtsp.Reset();
    }

    /** The accept of on_listen_readable: one client at a time. */
    method Accept() returns (taken: bool)
      requires Inv(View())
      modifies this`client
      ensures View() == Step(old(View()), Connect) && Inv(View())
      ensures taken <==> !old(client)
    {
      ghost var before := View();
      taken := !client;
      client := true;
      StepKeepsInv(before, Connect);
    }

    /** handle_msg; the result says whether the client is kept. */
    method Dispatch(q: Request, o: Outcome) returns (reply: Reply, keep: bool)
      requires Inv(View()) && client
      modifies this, rtsp
      ensures (View(), reply) == HandleMessage(old(View()), q, o) && Inv(View())
      ensures keep <==> client
    {
      hide Inv, HandleRtsp;
      ghost var before := View();
      if q.method_ == Setup && bound.None? && session.None? && o.bind.Some? {
        bound := Some(Socks(opens, o.bind.value));
        opens := opens + 1;
        rtsp.ports := o.bind.value;
      }
      reply := rtsp.Handle(q);
      keep := o.written && rtsp.action != TearDown;
      if !keep {
        TearDownNow();
      } else if rtsp.action == StartPlay {
        Start(o);
      }
      MessageKeepsInv(before, q, o);
    }

    /** RECORD: hand the sockets to a new session, or close them. */
    method Start(o: Outcome)
      modifies this`bound, this`session, this`locks, this`playing, this`closed
      ensures View() == StartSession(old(View()), o)
    {
      if bound.Some? {
        if o.created && o.started {
          session, locks, playing := bound, locks + 1, true;
        } else {
          closed := closed + [bound.value.id];
        }
        bound := None;
      }
    }
  }
}
