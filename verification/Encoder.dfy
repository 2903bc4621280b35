/**
 The now-playing encoder (NowPlayingEncoder.java) and what its lines become at the other end of the
 control connection.
 */
module Encoders {
  import opened Words
  import opened Scan
  import opened LineBuffers
  import opened LeaseModel

  /** The transport command of a key code. */
  function Command(code: int): Option<LineBuffers.Event> {
    if code == 61448 || code == 61449 then Some(NextItem)
    else if code == 61450 then Some(PrevItem)
    else if code == 61451 then Some(PlayPause)
    else None
  }

  function Token(cmd: LineBuffers.Event): seq<Byte> {
    match cmd
    case NextItem => Ascii("NEXT")
    case PrevItem => Ascii("PREV")
    case _ => Ascii("PLAYPAUSE")
  }

  predicate IsKey(e: OutEvent) { e.kind != Hello && e.kind != Heartbeat }

  predicate Release(e: OutEvent) { IsKey(e) && !e.pressed }

  predicate MappedPress(e: OutEvent) { IsKey(e) && e.pressed && Command(e.keyCode).Some? }

  /** The press gate after one event: armed by a mapped press, released by any key release. */
  function Gate(active: bool, e: OutEvent): bool {
    if !IsKey(e) then active else if !e.pressed then false else active || Command(e.keyCode).Some?
  }

  /** The text of the line written for an event, without its line feed. */
  function LineFor(active: bool, e: OutEvent): Option<seq<Byte>> {
    if e.kind == Hello then Some(Ascii("HELLO 1"))
    else if e.kind == Heartbeat then Some(Ascii("PING"))
    else if !active && MappedPress(e) then Some(Token(Command(e.keyCode).value))
    else None
  }

  function Encoded(active: bool, e: OutEvent): seq<Byte> {
    var line := LineFor(active, e);
    if line.Some? then line.value + [LF] else []
  }

  class NowPlayingEncoder {
    var pressActive: bool

    constructor ()
      ensures !pressActive
    {
      pressActive := false;
    }

    /** The empty result stands for the null of the source: nothing is written. */
    method Encode(e: OutEvent) returns (bytes: seq<Byte>)
      modifies this
      ensures pressActive == Gate(old(pressActive), e) && bytes == Encoded(old(pressActive), e)
    {
      if e.kind == Hello { return Ascii("HELLO 1") + [LF]; }
      if e.kind == Heartbeat { return Ascii("PING") + [LF]; }
      if !e.pressed {
        pressActive := false;
        return [];
      }
      if pressActive { return []; }
      var cmd := Command(e.keyCode);
      if cmd.None? { return []; }
      pressActive := true;
      return Token(cmd.value) + [LF];
    }
  }

  // ----- one command per press --------------------------------------------------------------

  /** The gate after the first i events of a connection. */
  function GateAt(es: seq<OutEvent>, i: nat): bool
    requires i <= |es|
  {
    if i == 0 then false else Gate(GateAt(es, i - 1), es[i - 1])
  }

  predicate SendsCommand(es: seq<OutEvent>, i: nat)
    requires i < |es|
  {
    MappedPress(es[i]) && !GateAt(es, i)
  }

  /** The press at j has not been followed by a release before i. */
  ghost predicate StillDown(es: seq<OutEvent>, j: nat, i: nat)
    requires j < i <= |es|
  {
    MappedPress(es[j]) && forall r :: j < r < i ==> !Release(es[r])
  }

  /** The gate is closed exactly while some mapped press has not been followed by a release. */
  lemma {:induction false} GateIff(es: seq<OutEvent>, i: nat)
    requires i <= |es|
    ensures GateAt(es, i) <==> exists j :: 0 <= j < i && StillDown(es, j, i)
    decreases i
  {
    if i > 0 {
      GateIff(es, i - 1);
      var e := es[i - 1];
      if MappedPress(e) {
        assert StillDown(es, i - 1, i);
      } else {
        assert forall j {:trigger StillDown(es, j, i)} ::
            0 <= j < i - 1 && StillDown(es, j, i) ==> StillDown(es, j, i - 1);
        assert !Release(e) ==>
            forall j {:trigger StillDown(es, j, i - 1)} ::
              0 <= j < i - 1 && StillDown(es, j, i - 1) ==> StillDown(es, j, i);
        assert Release(e) ==> forall j {:trigger StillDown(es, j, i)} :: 0 <= j < i - 1 ==> !StillDown(es, j, i);
      }
    }
  }

  /** Two commands always have a key release between them. */
  lemma ReleaseBetweenCommands(es: seq<OutEvent>, i: nat, k: nat)
    requires i < k < |es| && SendsCommand(es, i) && SendsCommand(es, k)
    ensures exists r :: i < r < k && Release(es[r])
  {
    GateIff(es, k);
    assert !StillDown(es, i, k);
  }

  // ----- end to end -------------------------------------------------------------------------

  /** What an event means to the supervisor. */
  function Meaning(active: bool, e: OutEvent): seq<LineBuffers.Event> {
    if !IsKey(e) then [Beat]
    else if !active && MappedPress(e) then [Command(e.keyCode).value]
    else []
  }

  function Stream(active: bool, es: seq<OutEvent>): seq<Byte>
    decreases |es|
  {
    if es == [] then [] else Encoded(active, es[0]) + Stream(Gate(active, es[0]), es[1..])
  }

  function Meanings(active: bool, es: seq<OutEvent>): seq<LineBuffers.Event>
    decreases |es|
  {
    if es == [] then [] else Meaning(active, es[0]) + Meanings(Gate(active, es[0]), es[1..])
  }

  lemma PlainText(t: seq<Byte>)
    requires NUL !in t && CR !in t && LF !in t
    ensures Classify(t) == ByText(t)
  {
    assert CString(t) == t;
    assert Trim(t) == t;
  }

  lemma TokenBytes()
    ensures Ascii("STOP") == [83, 84, 79, 80] && Ascii("PING") == [80, 73, 78, 71]
    ensures Ascii("NEXT") == [78, 69, 88, 84] && Ascii("PREV") == [80, 82, 69, 86]
    ensures Ascii("PLAYPAUSE") == [80, 76, 65, 89, 80, 65, 85, 83, 69]
    ensures Ascii("HELLO") == [72, 69, 76, 76, 79] && Ascii("HELLO 1") == [72, 69, 76, 76, 79, 32, 49]
  {
  }

  lemma TokensClassify(cmd: LineBuffers.Event)
    requires cmd == NextItem || cmd == PrevItem || cmd == PlayPause
    ensures Classify(Token(cmd)) == cmd && LF !in Token(cmd) && |Token(cmd)| < LB_MAX
  {
    hide Ascii, Classify;
    TokenBytes();
    assert [80, 76, 65, 89, 80, 65, 85, 83, 69][..5] == [80, 76, 65, 89, 80];
    PlainText(Token(cmd));
  }

  lemma GreetingsClassify()
    ensures Classify(Ascii("HELLO 1")) == Beat && LF !in Ascii("HELLO 1")
    ensures Classify(Ascii("PING")) == Beat && LF !in Ascii("PING")
  {
    hide Ascii, Classify;
    TokenBytes();
    PlainText(Ascii("HELLO 1"));
    PlainText(Ascii("PING"));
    assert [72, 69, 76, 76, 79, 32, 49][..5] == [72, 69, 76, 76, 79];
  }

  /** What a press of each key code puts on the wire when no key is held: NEXT, PREV, PLAYPAUSE or nothing. */
  lemma KeyLines(code: int)
    ensures Encoded(false, OutEvent(Key, code, true)) ==
            if code == 61448 || code == 61449 then [78, 69, 88, 84, LF]
            else if code == 61450 then [80, 82, 69, 86, LF]
            else if code == 61451 then [80, 76, 65, 89, 80, 65, 85, 83, 69, LF]
            else []
  {
    hide Ascii;
    TokenBytes();
  }

  /** Each event's bytes are one whole line, or none, and mean what the event means. */
  lemma EncodedMeans(active: bool, e: OutEvent)
    ensures AfterAll(EMPTY, Encoded(active, e)) == EMPTY
    ensures EmitsAll(EMPTY, Encoded(active, e)) == Meaning(active, e)
  {
    hide Classify, Ascii, Token, AfterAll, EmitsAll;
    PushNothing(EMPTY);
    var line := LineFor(active, e);
    if line.Some? {
      GreetingsClassify();
      if MappedPress(e) { TokensClassify(Command(e.keyCode).value); }
      PushLine(line.value);
    }
  }

  lemma {:induction false} StreamMeans(active: bool, es: seq<OutEvent>)
    ensures EmitsAll(EMPTY, Stream(active, es)) == Meanings(active, es)
    decreases |es|
  {
    hide AfterAll, EmitsAll, Encoded, Meaning;
    PushNothing(EMPTY);
    if es != [] {
      EncodedMeans(active, es[0]);
      StreamMeans(Gate(active, es[0]), es[1..]);
      PushConcat(EMPTY, Encoded(active, es[0]), Stream(Gate(active, es[0]), es[1..]));
    }
  }

  lemma Streams(active: bool, es: seq<OutEvent>)
    ensures Stream(active, es) == if es == [] then [] else Encoded(active, es[0]) + Stream(Gate(active, es[0]), es[1..])
  {
  }

  lemma {:induction false} StreamSnoc(active: bool, es: seq<OutEvent>, e: OutEvent)
    ensures Stream(active, es + [e]) == Stream(active, es) + Encoded(GateAfter(active, es), e)
    decreases |es|
  {
    hide Encoded, Gate, Stream;
    Streams(active, es);
    Streams(active, es + [e]);
    if es == [] {
      assert (es + [e])[1..] == [];
      Streams(Gate(active, e), []);
    } else {
      assert (es + [e])[1..] == es[1..] + [e];
      StreamSnoc(Gate(active, es[0]), es[1..], e);
    }
  }

  function GateAfter(active: bool, es: seq<OutEvent>): bool
    decreases |es|
  {
    if es == [] then active else GateAfter(Gate(active, es[0]), es[1..])
  }

  lemma {:induction false} GateAfterSnoc(active: bool, es: seq<OutEvent>, e: OutEvent)
    ensures GateAfter(active, es + [e]) == Gate(GateAfter(active, es), e)
    decreases |es|
  {
    hide Gate;
    if es == [] {
      assert (es + [e])[1..] == [];
    } else {
      assert (es + [e])[1..] == es[1..] + [e];
      GateAfterSnoc(Gate(active, es[0]), es[1..], e);
    }
  }

  /** For every event sequence and every cut into reads, the supervisor sees exactly the encoder's lines. */
  lemma EndToEnd(es: seq<OutEvent>, chunks: seq<seq<Byte>>)
    requires Flatten(chunks) == Stream(false, es)
    ensures ReadEvents(EMPTY, chunks) == Meanings(false, es)
  {
    ReadsAreOneStream(EMPTY, chunks);
    StreamMeans(false, es);
  }
}
