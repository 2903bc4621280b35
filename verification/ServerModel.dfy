/**
 The RTSP session state machine (src/rtsp.c) and what the server does with it (src/main.c:
 handle_msg, teardown_client): who owns the three UDP sockets, the playing session, the wake lock
 and the now-playing flag. Header and SDP text is already parsed here, and every outcome of the
 operating system is part of the event.
 */
module ServerModel {
  import opened Words

  datatype Method = Options | Announce | Setup | Record | Flush | SetParameter | GetParameter | Teardown | Other

  /** A request with its headers read: None stands for a header that is absent or too long. */
  datatype Request = Request(method_: Method, sdpOk: bool, transport: Option<(int, int)>,
                             rtpInfo: Option<(Word16, Word32)>, volume: Option<nat>)

  datatype State = Idle | Announced | SetUp | Playing

  datatype Action = NoAction | BindRtp | StartPlay | FlushPlay | TearDown | SetVolume

  datatype Ports = Ports(server: int, control: int, timing: int)

  const NO_PORTS := Ports(0, 0, 0)

  datatype Rtsp = Rtsp(state: State, haveSdp: bool, ports: Ports, senderPorts: (int, int),
                       boundary: (Word16, Word32), volume: int, action: Action)

  const FRESH := Rtsp(Idle, false, NO_PORTS, (0, 0), (0, 0), -1, NoAction)

  datatype Reply = Reply(status: nat, ports: Option<Ports>)

  const OK := Reply(200, None)

  function Boundary(r: Rtsp, q: Request): (Word16, Word32) {
    if q.rtpInfo.Some? then q.rtpInfo.value else r.boundary
  }

  /** rtsp_handle without the text of the reply. */
  function HandleRtsp(r0: Rtsp, q: Request): (Rtsp, Reply) {
    var r := r0.(action := NoAction);
    match q.method_
    case Options => (r, OK)
    case Announce =>
      if r.state != Idle then (r, Reply(453, None))
      else if !q.sdpOk then (r, Reply(400, None))
      else (r.(haveSdp := true, state := Announced), OK)
    case Setup =>
      if r.state != Announced || q.transport.None? then (r, Reply(455, None))
      else (r.(senderPorts := q.transport.value, state := SetUp, action := BindRtp), Reply(200, Some(r.ports)))
    case Record =>
      if r.state != SetUp then (r, Reply(455, None))
      else (r.(boundary := Boundary(r, q), state := Playing, action := StartPlay), OK)
    case Flush =>
      if r.state != Playing then (r, Reply(455, None))
      else (r.(boundary := Boundary(r, q), action := FlushPlay), OK)
    case SetParameter =>
      if q.volume.Some? then (r.(volume := q.volume.value, action := SetVolume), OK) else (r, OK)
    case GetParameter => (r, if r.state != SetUp && r.state != Playing then Reply(455, None) else OK)
    case Teardown =>
      (r.(state := Idle, haveSdp := false, volume := -1, senderPorts := (0, 0), boundary := (0, 0),
          action := if r.state != Idle then TearDown else NoAction), OK)
    case Other => (r, Reply(501, None))
  }

  /** The three bound UDP sockets of one rtp_open; id tells one open from the next. */
  datatype Socks = Socks(id: nat, ports: Ports)

  /** `locks` counts wake lock acquisitions less releases; `closed` lists every close in order. */
  datatype Server = Server(rtsp: Rtsp, client: bool, bound: Option<Socks>, session: Option<Socks>,
                           locks: int, playing: bool, opens: nat, closed: seq<nat>)

  /** Outcomes the server does not control. */
  datatype Outcome = Outcome(bind: Option<Ports>, created: bool, started: bool, written: bool)

  datatype Event =
    | Connect
    | Message(request: Request, outcome: Outcome)
    | Disconnect

  const BOOT := Server(FRESH, false, None, None, 0, false, 0, [])

  /** teardown_client: the session closes its sockets, or the server closes unclaimed ones. */
  function TearDownClient(s: Server): Server {
    var owned := if s.session.Some? then [s.session.value.id] else if s.bound.Some? then [s.bound.value.id] else [];
    s.(rtsp := FRESH, client := false, bound := None, session := None, playing := false,
       locks := if s.session.Some? then s.locks - 1 else s.locks, closed := s.closed + owned)
  }

  /** SETUP opens the sockets before the reply is made, so that the reply can carry their ports. */
  function BindFirst(s: Server, q: Request, o: Outcome): Server {
    if q.method_.Setup? && s.bound.None? && s.session.None? && o.bind.Some? then
      s.(bound := Some(Socks(s.opens, o.bind.value)), opens := s.opens + 1, rtsp := s.rtsp.(ports := o.bind.value))
    else s
  }

  function StartSession(s: Server, o: Outcome): Server {
    if s.bound.None? then s
    else if !o.created || !o.started then s.(bound := None, closed := s.closed + [s.bound.value.id])
    else s.(bound := None, session := s.bound, locks := s.locks + 1, playing := true)
  }

  function HandleMessage(s: Server, q: Request, o: Outcome): (Server, Reply) {
    var s := BindFirst(s, q, o);
    var (rtsp, reply) := HandleRtsp(s.rtsp, q);
    var s := s.(rtsp := rtsp);
    if !o.written then (TearDownClient(s), reply)
    else
      match rtsp.action
      case StartPlay => (StartSession(s, o), reply)
      case TearDown => (TearDownClient(s), reply)
      case _ => (s, reply)
  }

  function Step(s: Server, e: Event): Server {
    match e
    case Connect => if s.client then s else s.(client := true)
    case Message(q, o) => if s.client then HandleMessage(s, q, o).0 else s
    case Disconnect => if s.client then TearDownClient(s) else s
  }

  function Run(s: Server, events: seq<Event>): Server
    decreases |events|
  {
    if events == [] then s else Run(Step(s, events[0]), events[1..])
  }

  // ----- what every reachable state satisfies ---------------------------------------------

  function Owned(s: Server): set<nat> {
    (if s.bound.Some? then {s.bound.value.id} else {}) + (if s.session.Some? then {s.session.value.id} else {})
  }

  ghost predicate Distinct(xs: seq<nat>) {
    forall i, k :: 0 <= i < k < |xs| ==> xs[i] != xs[k]
  }

  /** Every socket triple ever opened is owned by exactly one party or has been closed exactly once. */
  ghost predicate SocketsAccounted(s: Server) {
    && Distinct(s.closed)
    && (forall id :: id in s.closed ==> id < s.opens && id !in Owned(s))
    && (forall id :: 0 <= id < s.opens ==> id in s.closed || id in Owned(s))
    && (forall id :: id in Owned(s) ==> id < s.opens)
    && (s.bound.None? || s.session.None?)
  }

  ghost predicate Inv(s: Server) {
    && SocketsAccounted(s)
    && (s.session.Some? ==> s.rtsp.state == Playing)
    && s.locks == (if s.session.Some? then 1 else 0)
    && (s.playing <==> s.session.Some?)
    && (s.rtsp.state != Idle <==> s.rtsp.haveSdp)
    // before SETUP succeeds, the ports on offer are those of the open sockets, or zeros
    && (s.rtsp.state == Idle || s.rtsp.state == Announced ==>
          s.rtsp.ports == if s.bound.Some? then s.bound.value.ports else NO_PORTS)
    && (!s.client ==> s.bound.None? && s.session.None? && s.rtsp == FRESH)
  }

  lemma CloseOnce(s: Server, s': Server, id: nat)
    requires SocketsAccounted(s) && id in Owned(s)
    requires s'.closed == s.closed + [id] && s'.opens == s.opens && Owned(s') == {}
    requires s'.bound.None? || s'.session.None?
    ensures SocketsAccounted(s')
  {
    assert Owned(s) == {id};
    forall i, k | 0 <= i < k < |s'.closed| ensures s'.closed[i] != s'.closed[k] {
      if k == |s.closed| { assert s.closed[i] in s.closed; }
    }
  }

  lemma TearDownKeepsInv(s: Server)
    requires SocketsAccounted(s) && s.locks == (if s.session.Some? then 1 else 0)
    ensures Inv(TearDownClient(s))
  {
    var s' := TearDownClient(s);
    if s.session.Some? {
      CloseOnce(s, s', s.session.value.id);
    } else if s.bound.Some? {
      CloseOnce(s, s', s.bound.value.id);
    } else {
      assert s'.closed == s.closed;
    }
  }

  lemma BindKeepsInv(s: Server, q: Request, o: Outcome)
    requires Inv(s) && s.client
    ensures Inv(BindFirst(s, q, o)) && BindFirst(s, q, o).client
  {
  }

  lemma StartKeepsInv(s: Server, o: Outcome)
    requires SocketsAccounted(s) && s.session.None? && s.locks == 0 && !s.playing
    requires s.rtsp.state == Playing && s.rtsp.haveSdp && s.client
    ensures Inv(StartSession(s, o))
  {
    var s' := StartSession(s, o);
    if s.bound.Some? && !(o.created && o.started) {
      CloseOnce(s, s', s.bound.value.id);
    } else {
      assert Owned(s') == Owned(s);
    }
  }

  /** What the server relies on: which moves between RTSP states each emitted action can accompany. */
  lemma TransitionFacts(r: Rtsp, q: Request)
    requires r.state != Idle <==> r.haveSdp
    ensures var (r', reply) := HandleRtsp(r, q);
            && (r'.state != Idle <==> r'.haveSdp)
            && r'.ports == r.ports
            && (r'.action == StartPlay <==> r.state == SetUp && r'.state == Playing)
            && (r'.action == TearDown <==> r.state != Idle && r'.state == Idle)
            && (r.state == Playing && r'.action != TearDown ==> r'.state == Playing)
            && (r'.state == Announced ==> r.state == Idle || r.state == Announced)
            && (r'.state == SetUp && r.state != SetUp <==> r'.action == BindRtp)
            && (r'.action == FlushPlay <==> q.method_ == Flush && r.state == Playing)
            && (r'.action == SetVolume <==> q.method_ == SetParameter && q.volume.Some?)
            && (reply.ports.Some? ==> reply.status == 200 && r'.action == BindRtp && reply.ports.value == r.ports)
  {
  }

  // ----- which requests succeed, in terms of the conversation so far ------------------------

  /** The session after a conversation that began fresh. */
  function Talk(requests: seq<Request>): Rtsp {
    if requests == [] then FRESH else HandleRtsp(Talk(requests[..|requests| - 1]), requests[|requests| - 1]).0
  }

  function Answer(requests: seq<Request>, q: Request): Reply { HandleRtsp(Talk(requests), q).1 }

  predicate IsMilestone(m: Method) { m == Announce || m == Setup || m == Record || m == Teardown }

  /** The last of ANNOUNCE, SETUP, RECORD and TEARDOWN that was answered 200; a fresh session counts as torn down. */
  function LastMilestone(requests: seq<Request>): Method {
    if requests == [] then Teardown
    else
      var before, q := requests[..|requests| - 1], requests[|requests| - 1];
      if IsMilestone(q.method_) && Answer(before, q).status == 200 then q.method_ else LastMilestone(before)
  }

  /** The order of a session: each request and the milestones it may follow. */
  predicate MayFollow(m: Method, last: Method) {
    match m
    case Announce => last == Teardown
    case Setup => last == Announce
    case Record => last == Setup
    case Flush => last == Record
    case GetParameter => last == Setup || last == Record
    case Other => false
    case _ => true
  }

  predicate WellMade(q: Request) {
    (q.method_ == Announce ==> q.sdpOk) && (q.method_ == Setup ==> q.transport.Some?)
  }

  /** The status of a request that does not succeed. */
  function Refusal(m: Method, last: Method): nat {
    if m == Other then 501 else if m != Announce then 455 else if last == Teardown then 400 else 453
  }

  function StateAfter(m: Method): State {
    match m
    case Announce => Announced
    case Setup => SetUp
    case Record => Playing
    case _ => Idle
  }

  /** One request, judged by the milestone behind the state it meets. */
  lemma JudgedByMilestone(r: Rtsp, q: Request, last: Method)
    requires IsMilestone(last) && r.state == StateAfter(last)
    ensures var (r', reply) := HandleRtsp(r, q);
            && (reply.status == 200 <==> WellMade(q) && MayFollow(q.method_, last))
            && (reply.status != 200 ==> r' == r.(action := NoAction) && reply.status == Refusal(q.method_, last))
            && r'.state == StateAfter(if IsMilestone(q.method_) && reply.status == 200 then q.method_ else last)
  {
  }

  lemma {:induction false} StateIsMilestone(requests: seq<Request>)
    ensures IsMilestone(LastMilestone(requests)) && Talk(requests).state == StateAfter(LastMilestone(requests))
  {
    if requests != [] {
      hide HandleRtsp;
      var before, q := requests[..|requests| - 1], requests[|requests| - 1];
      StateIsMilestone(before);
      JudgedByMilestone(Talk(before), q, LastMilestone(before));
    }
  }

  /**
   After every conversation a request succeeds exactly when it is well made and follows the last
   milestone in the order ANNOUNCE, SETUP, RECORD, TEARDOWN; a request that fails changes nothing.
   */
  lemma SucceedsIffInOrder(requests: seq<Request>, q: Request)
    ensures Answer(requests, q).status == 200 <==> WellMade(q) && MayFollow(q.method_, LastMilestone(requests))
    ensures Answer(requests, q).status != 200 ==>
              && Talk(requests + [q]) == Talk(requests).(action := NoAction)
              && Answer(requests, q).status == Refusal(q.method_, LastMilestone(requests))
  {
    hide HandleRtsp, LastMilestone;
    StateIsMilestone(requests);
    JudgedByMilestone(Talk(requests), q, LastMilestone(requests));
    assert (requests + [q])[..|requests|] == requests;
  }

  lemma MessageKeepsInv(s: Server, q: Request, o: Outcome)
    requires Inv(s) && s.client
    ensures Inv(HandleMessage(s, q, o).0)
  {
    hide HandleRtsp, BindFirst;
    BindKeepsInv(s, q, o);
    var b := BindFirst(s, q, o);
    TransitionFacts(b.rtsp, q);
    var (rtsp, reply) := HandleRtsp(b.rtsp, q);
    var t := b.(rtsp := rtsp);
    assert Owned(t) == Owned(b);
    if !o.written || rtsp.action == TearDown {
      TearDownKeepsInv(t);
    } else if rtsp.action == StartPlay {
      StartKeepsInv(t, o);
    }
  }

  lemma StepKeepsInv(s: Server, e: Event)
    requires Inv(s)
    ensures Inv(Step(s, e))
  {
    match e
    case Connect =>
    case Message(q, o) => if s.client { MessageKeepsInv(s, q, o); }
    case Disconnect => if s.client { TearDownKeepsInv(s); }
  }

  /** For every sequence of requests and every outcome of bind, create, start and write. */
  lemma {:induction false} EveryRunKeepsInv(s: Server, events: seq<Event>)
    requires Inv(s)
    ensures Inv(Run(s, events))
    decreases |events|
  {
    if events != [] {
      StepKeepsInv(s, events[0]);
      EveryRunKeepsInv(Step(s, events[0]), events[1..]);
    }
  }

  /** A successful SETUP reply carries the ports of the sockets that are open, or zeros when none are. */
  lemma SetupRepliesWithItsPorts(events: seq<Event>, q: Request, o: Outcome)
    requires Run(BOOT, events).client && q.method_.Setup?
    ensures var s := Run(BOOT, events);
            var (s', reply) := HandleMessage(s, q, o);
            reply.status == 200 ==>
              && s.rtsp.state == Announced && q.transport.Some?
              && (o.written ==> reply.ports == Some(if s'.bound.Some? then s'.bound.value.ports else NO_PORTS))
              && (reply.ports == Some(NO_PORTS) || s.bound.Some? || o.bind.Some?)
  {
    var s := Run(BOOT, events);
    EveryRunKeepsInv(BOOT, events);
    BindKeepsInv(s, q, o);
  }

  /** Once the client is gone, every triple ever opened has been closed exactly once and nothing is held. */
  lemma NothingLeaks(events: seq<Event>)
    ensures var s := Run(BOOT, events + [Disconnect]);
            && !s.client && s.locks == 0 && !s.playing && Distinct(s.closed)
            && (forall id :: id in s.closed <==> 0 <= id < s.opens)
  {
    var s := Run(BOOT, events + [Disconnect]);
    EveryRunKeepsInv(BOOT, events + [Disconnect]);
    RunConcat(BOOT, events, [Disconnect]);
    EveryRunKeepsInv(BOOT, events);
    assert Owned(s) == {};
  }

  lemma {:induction false} RunConcat(s: Server, a: seq<Event>, b: seq<Event>)
    ensures Run(s, a + b) == Run(Run(s, a), b)
    decreases |a|
  {
    if a == [] {
      assert a + b == b;
    } else {
      assert (a + b)[1..] == a[1..] + b;
      RunConcat(Step(s, a[0]), a[1..], b);
    }
  }
}
