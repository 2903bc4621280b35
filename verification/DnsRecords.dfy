/**
 Which port a DNS response gives (src/dacp_resolve.c), read off the packet itself: the questions and records
 laid out one after the other, and the first record that answers.
 */
module DnsRecords {
  import opened Words
  import opened Scan
  import opened DnsNames
  import opened DnsService

  /** A question starts at `at` and ends at `next`: a name and four bytes. */
  ghost predicate QuestionSpans(p: seq<Byte>, at: nat, next: nat) {
    ReadName(p, at).Some? && next == ReadName(p, at).value.next + 4 <= |p|
  }

  /** A record does: a name, ten bytes of which the last two are the length of its data, and the data. */
  ghost predicate RecordSpans(p: seq<Byte>, at: nat, next: nat) {
    && ReadName(p, at).Some?
    && var fixed := ReadName(p, at).value.next;
       fixed + 10 <= |p| && next == fixed + 10 + Be16(p, fixed + 8) <= |p|
  }

  /** The record at `at` is a live SRV record of that owner, with that port. */
  ghost predicate Answers(p: seq<Byte>, at: nat, owner: seq<Byte>, port: nat) {
    && ReadName(p, at).Some? && CString(ReadName(p, at).value.text) == owner
    && var fixed := ReadName(p, at).value.next;
       && fixed + 10 <= |p| && fixed + 10 + Be16(p, fixed + 8) <= |p|
       && Be16(p, fixed) == TYPE_SRV && p[fixed + 4..fixed + 8] != [0, 0, 0, 0] && Be16(p, fixed + 8) >= 6
       && port == Be16(p, fixed + 14) != 0
  }

  ghost predicate AnswersAtAll(p: seq<Byte>, at: nat, owner: seq<Byte>) {
    exists port: nat :: Answers(p, at, owner, port)
  }

  /** Offsets of things laid out one after the other. */
  ghost predicate Questions(p: seq<Byte>, at: seq<nat>) {
    forall i :: 0 <= i < |at| - 1 ==> QuestionSpans(p, at[i], at[i + 1])
  }

  ghost predicate Records(p: seq<Byte>, at: seq<nat>) {
    forall i :: 0 <= i < |at| - 1 ==> RecordSpans(p, at[i], at[i + 1])
  }

  /** The walk goes over n questions, from one offset to the other. */
  ghost predicate Skips(p: seq<Byte>, at: seq<nat>, from: nat, n: nat, to: nat) {
    |at| == n + 1 && at[0] == from && at[n] == to && Questions(p, at)
  }

  /** The walk begins at that offset and ends at the first record to answer, one of the first n. */
  ghost predicate Finds(p: seq<Byte>, at: seq<nat>, from: nat, n: nat, owner: seq<Byte>, port: nat) {
    && 0 < |at| <= n && at[0] == from && Records(p, at)
    && Answers(p, at[|at| - 1], owner, port)
    && forall i :: 0 <= i < |at| - 1 ==> !AnswersAtAll(p, at[i], owner)
  }

  ghost predicate CanSkip(p: seq<Byte>, from: nat, n: nat, to: nat) {
    exists at :: Skips(p, at, from, n, to)
  }

  ghost predicate CanFind(p: seq<Byte>, from: nat, n: nat, owner: seq<Byte>, port: nat) {
    exists at :: Finds(p, at, from, n, owner, port)
  }

  lemma {:induction false} SkipIff(p: seq<Byte>, off: nat, n: nat, to: nat)
    ensures SkipQuestions(p, off, n) == Some(to) <==> CanSkip(p, off, n, to)
    decreases n
  {
    hide ReadName;
    if n == 0 {
      if SkipQuestions(p, off, n) == Some(to) { assert Skips(p, [off], off, n, to); }
    } else {
      if SkipQuestions(p, off, n) == Some(to) {
        var next := ReadName(p, off).value.next + 4;
        SkipIff(p, next, n - 1, to);
        var rest :| Skips(p, rest, next, n - 1, to);
        assert forall i :: 1 <= i <= n ==> ([off] + rest)[i] == rest[i - 1];
        assert Skips(p, [off] + rest, off, n, to);
      }
      if at :| Skips(p, at, off, n, to) {
        assert QuestionSpans(p, at[0], at[1]);
        var rest := at[1..];
        assert forall i :: 0 <= i < n ==> rest[i] == at[i + 1];
        assert Skips(p, rest, at[1], n - 1, to);
        SkipIff(p, at[1], n - 1, to);
      }
    }
  }

  /** The fixed part of a record and what it answers, as the parser reads them. */
  lemma RecordMeans(p: seq<Byte>, at: nat, owner: seq<Byte>)
    requires ReadName(p, at).Some?
    ensures var name := ReadName(p, at).value;
            var r := RecordAt(p, name.next);
            && (r.Some? ==> RecordSpans(p, at, r.value.rdata + r.value.rdlen))
            && (forall next: nat :: RecordSpans(p, at, next) ==> r.Some? && next == r.value.rdata + r.value.rdlen)
            && (forall port: nat :: Answers(p, at, owner, port) <==>
                                 r.Some? && CString(name.text) == owner && SrvPort(p, r.value) == Some(port))
  {
    hide ReadName, CString;
  }

  lemma {:induction false} FindIff(p: seq<Byte>, off: nat, n: nat, owner: seq<Byte>, port: nat)
    ensures FindPort(p, off, n, owner) == Some(port) <==> CanFind(p, off, n, owner, port)
    decreases n
  {
    hide ReadName, CString, RecordAt, SrvPort, RecordSpans, Answers;
    if n > 0 && ReadName(p, off).Some? {
      RecordMeans(p, off, owner);
      var r := RecordAt(p, ReadName(p, off).value.next);
      if AnswersAtAll(p, off, owner) {
        AnswersHere(p, off, n, owner, port);
      } else if r.Some? {
        var next := r.value.rdata + r.value.rdlen;
        FindIff(p, next, n - 1, owner, port);
        FindsLater(p, off, next, n, owner, port);
      } else {
        NoNextRecord(p, off, n, owner, port);
      }
    } else {
      NoRecord(p, off, n, owner, port);
    }
  }

  lemma AnswersHere(p: seq<Byte>, off: nat, n: nat, owner: seq<Byte>, port: nat)
    requires n > 0 && AnswersAtAll(p, off, owner)
    ensures Answers(p, off, owner, port) <==> CanFind(p, off, n, owner, port)
  {
    hide Answers, RecordSpans;
    if Answers(p, off, owner, port) { assert Finds(p, [off], off, n, owner, port); }
    if at :| Finds(p, at, off, n, owner, port) {
      assert at[0] == off;
    }
  }

  lemma FindsLater(p: seq<Byte>, off: nat, next: nat, n: nat, owner: seq<Byte>, port: nat)
    requires n > 0 && !AnswersAtAll(p, off, owner)
    requires forall x: nat :: RecordSpans(p, off, x) <==> x == next
    ensures CanFind(p, off, n, owner, port) <==> CanFind(p, next, n - 1, owner, port)
  {
    hide Answers, RecordSpans;
    if at :| Finds(p, at, off, n, owner, port) {
      assert RecordSpans(p, at[0], at[1]);
      var rest := at[1..];
      assert forall i :: 0 <= i < |rest| ==> rest[i] == at[i + 1];
      assert Finds(p, rest, next, n - 1, owner, port);
    }
    if CanFind(p, next, n - 1, owner, port) {
      var left := n - 1;
      var rest :| Finds(p, rest, next, left, owner, port);
      var at := [off] + rest;
      assert forall i :: 1 <= i < |at| ==> at[i] == rest[i - 1];
      assert Finds(p, at, off, n, owner, port);
    }
  }

  lemma NoNextRecord(p: seq<Byte>, off: nat, n: nat, owner: seq<Byte>, port: nat)
    requires !AnswersAtAll(p, off, owner) && forall x: nat :: !RecordSpans(p, off, x)
    ensures !CanFind(p, off, n, owner, port)
  {
    hide Answers, RecordSpans;
    forall at ensures !Finds(p, at, off, n, owner, port) {
      if |at| > 1 { assert !RecordSpans(p, off, at[1]); }
    }
  }

  lemma NoRecord(p: seq<Byte>, off: nat, n: nat, owner: seq<Byte>, port: nat)
    requires n == 0 || ReadName(p, off).None?
    ensures !CanFind(p, off, n, owner, port)
  {
    hide ReadName;
    forall at ensures !Finds(p, at, off, n, owner, port) {
      if n > 0 && |at| > 1 { assert !RecordSpans(p, off, at[1]); }
    }
  }

  /** A response, to this query unless the query has no number, about an owner that fits the name buffer. */
  ghost predicate Addressed(p: seq<Byte>, owner: seq<Byte>, id: Word16) {
    |p| >= 12 && (id == 0 || Be16(p, 0) == id) && p[2] >= 0x80 && |owner| < MAX_NAME
  }

  /**
   For every packet: the port is found if and only if the questions and the records up to some k-th of the
   three sections lie one after the other in the packet, the k-th is a live SRV record of the owner with that
   port, and no earlier one is such a record with any port.
   */
  lemma PortIff(p: seq<Byte>, owner: seq<Byte>, id: Word16, port: nat)
    ensures ParseResponse(p, owner, id) == Some(port) <==>
            && Addressed(p, owner, id)
            && exists start: nat ::
                 && CanSkip(p, 12, Be16(p, 4), start)
                 && CanFind(p, start, Be16(p, 6) + Be16(p, 8) + Be16(p, 10), LowerAll(owner), port)
  {
    hide SkipQuestions, FindPort, CanSkip, CanFind;
    if Addressed(p, owner, id) {
      var questions, records := Be16(p, 4), Be16(p, 6) + Be16(p, 8) + Be16(p, 10);
      forall start: nat
        ensures SkipQuestions(p, 12, questions) == Some(start) <==> CanSkip(p, 12, questions, start)
        ensures FindPort(p, start, records, LowerAll(owner)) == Some(port)
                <==> CanFind(p, start, records, LowerAll(owner), port)
      {
        SkipIff(p, 12, questions, start);
        FindIff(p, start, records, LowerAll(owner), port);
      }
    }
  }
}
