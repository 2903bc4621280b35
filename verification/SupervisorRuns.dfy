/** What ends a supervisor session (src/supervisor_main.c), round by round, and what the session then has not done. */
module SupervisorRuns {
  import opened Words
  import opened LineBuffers
  import opened Encoders
  import opened Scan
  import S = SupervisorModel

  /** The lease has been silent too long, the connection is gone, or a STOP line is among those that arrived. */
  predicate Breaks(x: S.Session, t: S.Turn) {
    || t.tick - x.sup.lastBeat > S.TIMEOUT_MS
    || t.poll.HungUp? || t.poll.ReadFailed? || t.poll.Ended?
    || StopLine in EmitsAll(x.buf, S.Bytes(t))
  }

  /** The lines of a round that are acted on: up to the first STOP. */
  function UpToStop(evs: seq<Event>): seq<Event> {
    if evs == [] then [] else if evs[0] == StopLine then [StopLine] else [evs[0]] + UpToStop(evs[1..])
  }

  lemma OneLine(x: S.Session, ev: Event, now: int)
    requires x.sup.phase == S.Active && ev != Accept && ev != Eof && ev != Tick
    ensures var y := S.HandleLine(x, ev, now);
            && (y.sup.phase == S.Idle <==> ev == StopLine) && y.handled == x.handled + [ev] && y.buf == x.buf
  {
  }

  lemma {:induction false} LinesUpToStop(x: S.Session, evs: seq<Event>, t: S.Turn, i: nat)
    requires i <= |evs| && x.sup.phase == S.Active
    requires forall ev :: ev in evs ==> ev != Accept && ev != Eof && ev != Tick
    ensures var y := S.HandleLines(x, evs, t, i);
            y.handled == x.handled + UpToStop(evs[i..]) && (y.sup.phase == S.Idle <==> StopLine in evs[i..])
    decreases |evs| - i
  {
    hide S.HandleLine;
    if i < |evs| {
      var now := S.Clock(t, i);
      assert evs[i] in evs && evs[i..] == [evs[i]] + evs[i + 1..];
      OneLine(x, evs[i], now);
      var x' := S.HandleLine(x, evs[i], now);
      if x'.sup.phase == S.Active {
        LinesUpToStop(x', evs, t, i + 1);
      } else {
        assert S.HandleLines(x', evs, t, i + 1) == x';
      }
    }
  }

  lemma {:induction false} OnlyLineEvents(b: Buf, data: seq<Byte>)
    ensures forall ev :: ev in EmitsAll(b, data) ==> ev != Accept && ev != Eof && ev != Tick
    decreases |data|
  {
    hide Trim;
    if data != [] { OnlyLineEvents(After(b, data[0]), data[1..]); }
  }

  /**
   A round ends a live lease if and only if it breaks it. A round that does not time out and finds the connection
   whole acts on the lines that arrived, up to the first STOP; any other acts on none.
   */
  lemma RoundEndsIff(x: S.Session, t: S.Turn)
    requires x.sup.phase == S.Active
    ensures S.Round(x, t).sup.phase == S.Idle <==> Breaks(x, t)
    ensures S.Round(x, t).handled ==
            x.handled + if t.tick - x.sup.lastBeat > S.TIMEOUT_MS then [] else UpToStop(EmitsAll(x.buf, S.Bytes(t)))
    ensures !t.poll.Data? && !Breaks(x, t) ==> S.Round(x, t) == x
  {
    hide S.HandleLines, EmitsAll, AfterAll;
    OnlyLineEvents(x.buf, S.Bytes(t));
    PushNothing(x.buf);
    assert x.handled + [] == x.handled;
    if t.poll.Data? && t.tick - x.sup.lastBeat <= S.TIMEOUT_MS {
      var evs := EmitsAll(x.buf, t.poll.bytes);
      LinesUpToStop(x.(buf := AfterAll(x.buf, t.poll.bytes)), evs, t, 0);
      assert evs[0..] == evs;
    }
  }

  /** A failed poll is the last round; every other round of a live lease is followed by the next. */
  lemma {:induction false} FailedPollIsLast(x: S.Session, before: seq<S.Turn>, after: seq<S.Turn>)
    requires forall i :: 0 <= i < |before| - 1 ==> !before[i].poll.Failed?
    ensures before != [] && before[|before| - 1].poll.Failed? ==> S.Loop(x, before + after) == S.Loop(x, before)
    ensures before == [] || !before[|before| - 1].poll.Failed? ==>
              S.Loop(x, before + after) == S.Loop(S.Loop(x, before), after)
    decreases |before|
  {
    hide S.Round;
    if before == [] {
      assert before + after == after;
    } else {
      var rest := before[1..];
      assert (before + after)[1..] == rest + after && (before + after)[0] == before[0];
      assert forall i :: 0 <= i < |rest| ==> rest[i] == before[i + 1];
      if x.sup.phase == S.Active && !before[0].poll.Failed? {
        FailedPollIsLast(S.Round(x, before[0]), rest, after);
      }
    }
  }

  /** A session whose receiver did not start is torn down without a line being read. */
  lemma UnstartedServesNothing(at: int, turns: seq<S.Turn>, end: int)
    ensures S.Serve(at, false, turns, end).handled == [] && S.Serve(at, false, turns, end).log == [S.Began, S.TornDown]
  {
  }

  /** An idle supervisor waits for a connection: nothing else moves it. */
  lemma IdleStays(s: S.Sup, ev: Event, now: int)
    requires s.phase == S.Idle && ev != Accept
    ensures S.Stepped(s, ev, now) == s && S.Ordered(s, ev, now) == S.NoOrder
  {
  }

  function Accepts(run: seq<S.Timed>): nat {
    if run == [] then 0 else Accepts(run[..|run| - 1]) + if run[|run| - 1].ev == Accept then 1 else 0
  }

  /** Sessions are numbered by the connections accepted. */
  lemma {:induction false} SessionsAreCounted(run: seq<S.Timed>)
    ensures S.After(S.FRESH, run).session == Accepts(run)
    decreases |run|
  {
    if run != [] {
      SessionsAreCounted(run[..|run| - 1]);
      S.AfterSnoc(S.FRESH, run);
    }
  }

  // ----- the words of the control line --------------------------------------------------------

  /** A word is heard with any line ending behind it, and whatever a NUL cuts off. */
  lemma WordIsHeard(word: seq<Byte>, ends: seq<Byte>, junk: seq<Byte>)
    requires NUL !in word && (word != [] ==> word[|word| - 1] != CR && word[|word| - 1] != LF)
    requires forall i :: 0 <= i < |ends| ==> ends[i] == CR || ends[i] == LF
    ensures Classify(word + ends) == ByText(word)
    ensures Classify(word + ends + [NUL] + junk) == ByText(word)
  {
    hide ByText;
    NulCuts(word + ends, junk);
    TrimsEnds(word, ends);
  }

  lemma NulCuts(text: seq<Byte>, junk: seq<Byte>)
    requires NUL !in text
    ensures CString(text) == text && CString(text + [NUL] + junk) == text
  {
    var s := text + [NUL] + junk;
    assert s[|text|] == NUL && forall i :: 0 <= i < |text| ==> s[i] == text[i];
    assert forall i :: 0 <= i < |text| ==> text[i] in text;
  }

  lemma {:induction false} TrimsEnds(word: seq<Byte>, ends: seq<Byte>)
    requires word != [] ==> word[|word| - 1] != CR && word[|word| - 1] != LF
    requires forall i :: 0 <= i < |ends| ==> ends[i] == CR || ends[i] == LF
    ensures Trim(word + ends) == word
    decreases |ends|
  {
    if ends == [] {
      assert word + ends == word;
    } else {
      assert (word + ends)[..|word + ends| - 1] == word + ends[..|ends| - 1];
      TrimsEnds(word, ends[..|ends| - 1]);
    }
  }

  /** The six words the supervisor knows, the fifth of them by its beginning; it passes over everything else. */
  lemma Vocabulary(t: seq<Byte>)
    ensures ByText(t) == StopLine <==> t == [83, 84, 79, 80]
    ensures ByText(t) == NextItem <==> t == [78, 69, 88, 84]
    ensures ByText(t) == PrevItem <==> t == [80, 82, 69, 86]
    ensures ByText(t) == PlayPause <==> t == [80, 76, 65, 89, 80, 65, 85, 83, 69]
    ensures ByText(t) == Beat <==> t == [80, 73, 78, 71] || (|t| >= 5 && t[..5] == [72, 69, 76, 76, 79])
  {
    hide Ascii;
    TokenBytes();
    assert [80, 76, 65, 89, 80, 65, 85, 83, 69][0] == 80 && [72, 69, 76, 76, 79][0] == 72;
    assert |t| >= 5 && t[..5] == [72, 69, 76, 76, 79] ==> t[0] == 72;
  }
}
