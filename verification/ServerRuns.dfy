/**
 What the server holds after every run (src/main.c, src/rtsp.c), in terms of the conversation with the client
 connected now: when a session plays, when sockets wait for one, and what the RTSP session remembers.
 */
module ServerRuns {
  import opened Words
  import opened ServerModel

  // ----- what the RTSP session remembers ------------------------------------------------------

  /** The request succeeds after that conversation. */
  predicate Taken(before: seq<Request>, q: Request) {
    WellMade(q) && MayFollow(q.method_, LastMilestone(before))
  }

  /** The RTP-Info of the last RECORD or FLUSH taken since the last TEARDOWN that carried one. */
  function LatestInfo(requests: seq<Request>): (Word16, Word32) {
    if requests == [] then (0, 0)
    else
      var before, q := requests[..|requests| - 1], requests[|requests| - 1];
      if q.method_ == Teardown then (0, 0)
      else if (q.method_ == Record || q.method_ == Flush) && Taken(before, q) && q.rtpInfo.Some? then q.rtpInfo.value
      else LatestInfo(before)
  }

  /** The sender's ports in the last SETUP taken since then. */
  function LatestTransport(requests: seq<Request>): (int, int) {
    if requests == [] then (0, 0)
    else
      var before, q := requests[..|requests| - 1], requests[|requests| - 1];
      if q.method_ == Teardown then (0, 0)
      else if q.method_ == Setup && Taken(before, q) then q.transport.value
      else LatestTransport(before)
  }

  /** The last volume since then. */
  function LatestVolume(requests: seq<Request>): int {
    if requests == [] then -1
    else
      var before, q := requests[..|requests| - 1], requests[|requests| - 1];
      if q.method_ == Teardown then -1
      else if q.method_ == SetParameter && q.volume.Some? then q.volume.value
      else LatestVolume(before)
  }

  /** After every conversation the session holds the latest boundary, sender ports and volume it was told. */
  lemma {:induction false} RemembersLatest(requests: seq<Request>)
    ensures var r := Talk(requests);
            && r.boundary == LatestInfo(requests) && r.senderPorts == LatestTransport(requests)
            && r.volume == LatestVolume(requests) && r.ports == NO_PORTS
  {
    if requests != [] {
      var before, q := requests[..|requests| - 1], requests[|requests| - 1];
      RemembersLatest(before);
      StateIsMilestone(before);
      OneRequestRemembered(Talk(before), q, LastMilestone(before));
    }
  }

  lemma OneRequestRemembered(r: Rtsp, q: Request, last: Method)
    requires IsMilestone(last) && r.state == StateAfter(last)
    ensures var r' := HandleRtsp(r, q).0;
            var taken := WellMade(q) && MayFollow(q.method_, last);
            && r'.ports == r.ports
            && r'.boundary == (if q.method_ == Teardown then (0, 0)
                               else if (q.method_ == Record || q.method_ == Flush) && taken && q.rtpInfo.Some?
                               then q.rtpInfo.value else r.boundary)
            && r'.senderPorts == (if q.method_ == Teardown then (0, 0)
                                  else if q.method_ == Setup && taken then q.transport.value else r.senderPorts)
            && r'.volume == (if q.method_ == Teardown then -1
                             else if q.method_ == SetParameter && q.volume.Some? then q.volume.value else r.volume)
  {
  }

  // ----- the conversation with the client -----------------------------------------------------

  /** A request, and what the system did about it. */
  datatype Said = Said(q: Request, o: Outcome)

  function Requests(c: seq<Said>): seq<Request> {
    seq(|c|, i requires 0 <= i < |c| => c[i].q)
  }

  /** The reply could not be written, or a session in the making was torn down. */
  predicate EndsTalk(c: seq<Said>, x: Said) {
    !x.o.written || (x.q.method_ == Teardown && LastMilestone(Requests(c)) != Teardown)
  }

  /** What the client connected now has said, if there is one. */
  function Talking(events: seq<Event>): Option<seq<Said>> {
    if events == [] then None
    else
      var before := Talking(events[..|events| - 1]);
      match events[|events| - 1]
      case Connect => if before.None? then Some([]) else before
      case Disconnect => None
      case Message(q, o) =>
        if before.None? || EndsTalk(before.value, Said(q, o)) then None else Some(before.value + [Said(q, o)])
  }

  /** A SETUP that opened sockets, had there been none. */
  predicate Binds(c: seq<Said>, j: nat)
    requires j < |c|
  {
    c[j].q.method_ == Setup && c[j].o.bind.Some?
  }

  /** A RECORD answered 200. */
  predicate Records(c: seq<Said>, i: nat)
    requires i < |c|
  {
    c[i].q.method_ == Record && Answer(Requests(c[..i]), c[i].q).status == 200
  }

  /** A RECORD succeeded with sockets bound by an earlier SETUP, and a session was created and started for it. */
  ghost predicate Plays(c: seq<Said>) {
    exists j: nat, i: nat :: j < i < |c| && Binds(c, j) && Records(c, i) && c[i].o.created && c[i].o.started
  }

  /** A SETUP bound sockets that no session has taken and no later RECORD has used up. */
  ghost predicate Waits(c: seq<Said>) {
    !Plays(c) && exists j: nat :: j < |c| && Binds(c, j) && forall i: nat :: j < i < |c| ==> !Records(c, i)
  }

  ghost predicate Tells(s: Server, c: Option<seq<Said>>) {
    && (s.client <==> c.Some?)
    && (c.Some? ==>
          && s.rtsp.(ports := NO_PORTS) == Talk(Requests(c.value))
          && (LastMilestone(Requests(c.value)) != Record ==> forall i: nat :: i < |c.value| ==> !Records(c.value, i))
          && (s.session.Some? <==> Plays(c.value))
          && (s.bound.Some? <==> Waits(c.value)))
  }

  /** One more thing said. */
  lemma OneMoreSaid(c: seq<Said>, x: Said)
    ensures var c' := c + [x];
            && Requests(c') == Requests(c) + [x.q] && Requests(c')[..|c|] == Requests(c)
            && (forall i: nat :: i < |c| ==> (Records(c', i) <==> Records(c, i)) && (Binds(c', i) <==> Binds(c, i)))
            && (Records(c', |c|) <==> x.q.method_ == Record && Answer(Requests(c), x.q).status == 200)
            && (Binds(c', |c|) <==> x.q.method_ == Setup && x.o.bind.Some?)
  {
    var c' := c + [x];
    assert Requests(c') == Requests(c) + [x.q];
    forall i: nat | i < |c| ensures (Records(c', i) <==> Records(c, i)) && (Binds(c', i) <==> Binds(c, i)) {
      assert c'[..i] == c[..i] && c'[i] == c[i];
    }
    assert c'[..|c|] == c;
  }

  /** The server's ports do not sway the RTSP session. */
  lemma PortsDoNotSway(r: Rtsp, q: Request, p: Ports)
    ensures var (a, x) := HandleRtsp(r, q);
            var (b, y) := HandleRtsp(r.(ports := p), q);
            b == a.(ports := p) && x.status == y.status
  {
  }

  /** What a request that does not start a session does to sockets and session. */
  lemma PlaysLater(c: seq<Said>, x: Said)
    requires !Records(c + [x], |c|)
    ensures Plays(c + [x]) <==> Plays(c)
    ensures Waits(c + [x]) <==> !Plays(c) && (Waits(c) || Binds(c + [x], |c|))
  {
    hide Records, Binds;
    var c' := c + [x];
    OneMoreSaid(c, x);
    assert forall i: nat :: i < |c| ==> c'[i] == c[i];
    if Plays(c) {
      var j: nat, i: nat :| j < i < |c| && Binds(c, j) && Records(c, i) && c[i].o.created && c[i].o.started;
      assert Binds(c', j) && Records(c', i);
    }
    if Waits(c) {
      var j: nat :| j < |c| && Binds(c, j) && forall i: nat :: j < i < |c| ==> !Records(c, i);
      assert Binds(c', j);
    }
  }

  /** What the first RECORD to succeed does. */
  lemma PlaysNow(c: seq<Said>, x: Said)
    requires Records(c + [x], |c|) && forall i: nat :: i < |c| ==> !Records(c, i)
    ensures Plays(c + [x]) <==> Waits(c) && x.o.created && x.o.started
    ensures !Waits(c + [x])
  {
    hide Records, Binds;
    var c' := c + [x];
    OneMoreSaid(c, x);
    RecordBindsNothing(c, x);
    if Waits(c) {
      var j: nat :| j < |c| && Binds(c, j) && forall i: nat :: j < i < |c| ==> !Records(c, i);
      assert Binds(c', j) && c'[|c|] == x;
    }
  }

  lemma RecordBindsNothing(c: seq<Said>, x: Said)
    requires Records(c + [x], |c|)
    ensures !Binds(c + [x], |c|)
  {
  }

  lemma MessageTells(s: Server, c: seq<Said>, x: Said)
    requires Inv(s) && Tells(s, Some(c)) && s.client
    ensures Tells(HandleMessage(s, x.q, x.o).0, if EndsTalk(c, x) then None else Some(c + [x]))
  {
    hide HandleRtsp, Plays, Waits, Records, Binds, LastMilestone;
    var last, b := LastMilestone(Requests(c)), BindFirst(s, x.q, x.o);
    var (rtsp, reply) := HandleRtsp(b.rtsp, x.q);
    OneMoreSaid(c, x);
    StateIsMilestone(Requests(c));
    JudgedByMilestone(b.rtsp, x.q, last);
    JudgedByMilestone(Talk(Requests(c)), x.q, last);
    PortsDoNotSway(b.rtsp, x.q, NO_PORTS);
    TransitionFacts(b.rtsp, x.q);
    MilestoneAfter(Requests(c), x.q);
    assert Talk(Requests(c + [x])) == HandleRtsp(Talk(Requests(c)), x.q).0;
    BindsHere(c, x);
    if Records(c + [x], |c|) { PlaysNow(c, x); } else { PlaysLater(c, x); }
    PlayingStays(c);
  }

  lemma BindsHere(c: seq<Said>, x: Said)
    ensures Binds(c + [x], |c|) <==> x.q.method_ == Setup && x.o.bind.Some?
  {
  }

  lemma PlayingStays(c: seq<Said>)
    ensures Plays(c) ==> !Waits(c)
  {
  }

  lemma MilestoneAfter(requests: seq<Request>, q: Request)
    ensures LastMilestone(requests + [q]) ==
            if IsMilestone(q.method_) && Answer(requests, q).status == 200 then q.method_ else LastMilestone(requests)
  {
    assert (requests + [q])[..|requests|] == requests;
  }

  lemma {:induction false} RunTells(events: seq<Event>)
    ensures Tells(Run(BOOT, events), Talking(events))
    decreases |events|
  {
    if events != [] {
      hide HandleMessage, Plays, Waits, Records, LastMilestone, EndsTalk;
      var before, e := events[..|events| - 1], events[|events| - 1];
      RunTells(before);
      EveryRunKeepsInv(BOOT, before);
      assert events == before + [e] && [e][1..] == [];
      RunConcat(BOOT, before, [e]);
      var s := Run(BOOT, before);
      assert Run(s, [e]) == Run(Step(s, e), []) == Step(s, e);
      if e.Message? && s.client { MessageTells(s, Talking(before).value, Said(e.request, e.outcome)); }
      NothingSaid();
    }
  }

  lemma NothingSaid()
    ensures Talk(Requests([])) == FRESH && !Plays([]) && !Waits([])
  {
  }

  /**
   After every run a session is live if and only if the client connected now has had a RECORD answered 200, with
   sockets bound by an earlier SETUP, for which a session was created and started; neither a teardown nor a
   failed write has followed, or the client would be gone.
   */
  lemma SessionLiveIff(events: seq<Event>)
    ensures Run(BOOT, events).client <==> Talking(events).Some?
    ensures Run(BOOT, events).session.Some? <==> Talking(events).Some? && Plays(Talking(events).value)
  {
    hide Plays, Waits;
    RunTells(events);
    EveryRunKeepsInv(BOOT, events);
  }

  /** And sockets wait for a session if and only if such a SETUP has had no successful RECORD after it. */
  lemma SocketsWaitIff(events: seq<Event>)
    ensures Run(BOOT, events).bound.Some? <==> Talking(events).Some? && Waits(Talking(events).value)
  {
    hide Plays, Waits;
    RunTells(events);
    EveryRunKeepsInv(BOOT, events);
  }

  /** The server's RTSP session remembers what the client connected now told it last. */
  lemma ServerRemembers(events: seq<Event>)
    requires Talking(events).Some?
    ensures var r, told := Run(BOOT, events).rtsp, Requests(Talking(events).value);
            r.boundary == LatestInfo(told) && r.senderPorts == LatestTransport(told) && r.volume == LatestVolume(told)
  {
    hide Plays, Waits;
    RunTells(events);
    RemembersLatest(Requests(Talking(events).value));
  }
}
