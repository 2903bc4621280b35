/**
 The one-shot mDNS SRV lookup (src/dacp_resolve.c): the query it builds (section 4.1 of RFC 1035,
 with the unicast-response bit of section 5.4 of RFC 6762) and the port it finds in a response
 (the SRV layout of RFC 2782). An owner name is a C string, so it holds no NUL byte.
 */
module DnsService {
  import opened Words
  import opened Scan
  import opened DnsNames

  const TYPE_SRV: int := 33

  function Be16(p: seq<Byte>, at: nat): (v: int)
    requires at + 1 < |p|
    ensures 0 <= v < WRAP16
  {
    var high: int := p[at];
    high * 0x100 + p[at + 1]
  }

  function Bytes16(v: Word16): seq<Byte> {
    [v / 0x100, v % 0x100]
  }

  // ----- the query ---------------------------------------------------------------------------

  function HeaderBytes(id: Word16, flags: Byte, answers: Byte): seq<Byte> {
    Bytes16(id) + [flags, 0, 0, 1, 0, answers, 0, 0, 0, 0]
  }

  const QUESTION_TAIL: seq<Byte> := [0, 33, 0x80, 1]

  function Query(owner: seq<Byte>, cap: nat, id: Word16): Option<seq<Byte>> {
    if cap < 12 then None
    else
      var name := EncodeName(owner, cap - 12);
      if name.None? || 12 + |name.value| + 4 > cap then None
      else Some(HeaderBytes(id, 0, 0) + name.value + QUESTION_TAIL)
  }

  // ----- the response ------------------------------------------------------------------------

  function SkipQuestions(p: seq<Byte>, off: nat, n: nat): Option<nat>
    decreases n
  {
    if n == 0 then Some(off)
    else
      var name := ReadName(p, off);
      if name.None? || name.value.next + 4 > |p| then None
      else SkipQuestions(p, name.value.next + 4, n - 1)
  }

  /** The fixed part of a resource record after its name. */
  datatype Record = Record(type_: int, live: bool, rdata: nat, rdlen: nat)

  function RecordAt(p: seq<Byte>, at: nat): (r: Option<Record>)
    ensures r.Some? ==> r.value.rdata + r.value.rdlen <= |p|
  {
    if at + 10 > |p| then None
    else
      var rdlen := Be16(p, at + 8);
      if at + 10 + rdlen > |p| then None
      else Some(Record(Be16(p, at), p[at + 4..at + 8] != [0, 0, 0, 0], at + 10, rdlen))
  }

  /** The port of a live SRV record, or nothing. */
  function SrvPort(p: seq<Byte>, r: Record): (port: Option<nat>)
    requires r.rdata + r.rdlen <= |p|
  {
    if r.type_ == TYPE_SRV && r.rdlen >= 6 && r.live && Be16(p, r.rdata + 4) != 0 then
      Some(Be16(p, r.rdata + 4))
    else None
  }

  function FindPort(p: seq<Byte>, off: nat, n: nat, want: seq<Byte>): Option<nat>
    decreases n
  {
    if n == 0 then None
    else
      var name := ReadName(p, off);
      if name.None? then None
      else
        var r := RecordAt(p, name.value.next);
        if r.None? then None
        else if CString(name.value.text) == want && SrvPort(p, r.value).Some? then SrvPort(p, r.value)
        else FindPort(p, r.value.rdata + r.value.rdlen, n - 1, want)
  }

  function ParseResponse(p: seq<Byte>, owner: seq<Byte>, id: Word16): Option<nat> {
    if |p| < 12 || (id != 0 && Be16(p, 0) != id) || p[2] < 0x80 || |owner| >= MAX_NAME then None
    else
      var off := SkipQuestions(p, 12, Be16(p, 4));
      if off.None? then None
      else FindPort(p, off.value, Be16(p, 6) + Be16(p, 8) + Be16(p, 10), LowerAll(owner))
  }

  // ----- success on a prefix is success on the whole -----------------------------------------

  lemma {:induction false} SkipStable(p: seq<Byte>, more: seq<Byte>, off: nat, n: nat)
    requires SkipQuestions(p, off, n).Some?
    ensures SkipQuestions(p + more, off, n) == SkipQuestions(p, off, n)
    decreases n
  {
    hide ReadName;
    if n > 0 {
      NameStable(p, more, off);
      SkipStable(p, more, ReadName(p, off).value.next + 4, n - 1);
    }
  }

  lemma RecordStable(p: seq<Byte>, more: seq<Byte>, at: nat)
    requires RecordAt(p, at).Some?
    ensures RecordAt(p + more, at) == RecordAt(p, at)
    ensures SrvPort(p + more, RecordAt(p, at).value) == SrvPort(p, RecordAt(p, at).value)
  {
    assert (p + more)[at + 4..at + 8] == p[at + 4..at + 8];
  }

  lemma {:induction false} FindStable(p: seq<Byte>, more: seq<Byte>, off: nat, n: nat, want: seq<Byte>)
    requires FindPort(p, off, n, want).Some?
    ensures FindPort(p + more, off, n, want) == FindPort(p, off, n, want)
    decreases n
  {
    hide ReadName, RecordAt, SrvPort, CString;
    NameStable(p, more, off);
    var name := ReadName(p, off).value;
    RecordStable(p, more, name.next);
    var r := RecordAt(p, name.next).value;
    if !(CString(name.text) == want && SrvPort(p, r).Some?) {
      FindStable(p, more, r.rdata + r.rdlen, n - 1, want);
    }
  }

  /** A port found in a truncated packet is the port found in the whole packet. */
  lemma ResponseStable(p: seq<Byte>, more: seq<Byte>, owner: seq<Byte>, id: Word16)
    requires ParseResponse(p, owner, id).Some?
    ensures ParseResponse(p + more, owner, id) == ParseResponse(p, owner, id)
  {
    hide SkipQuestions, FindPort;
    var off := SkipQuestions(p, 12, Be16(p, 4));
    SkipStable(p, more, 12, Be16(p, 4));
    FindStable(p, more, off.value, Be16(p, 6) + Be16(p, 8) + Be16(p, 10), LowerAll(owner));
  }

  // ----- a query answered with its own name is resolved -----------------------------------------

  /** The wire form of the labels stands at position at. */
  ghost predicate WireAt(p: seq<Byte>, at: nat, labels: seq<Label>)
    requires forall i :: 0 <= i < |labels| ==> |labels[i]| <= MAX_LABEL
  {
    at + |Wire(labels)| <= |p| && p[at..at + |Wire(labels)|] == Wire(labels)
  }

  function LowerLabels(labels: seq<Label>): seq<Label> {
    if labels == [] then [] else [LowerAll(labels[0])] + LowerLabels(labels[1..])
  }

  lemma Pieces(p: seq<Byte>, at: nat, n: Byte, x: seq<Byte>, y: seq<Byte>)
    requires at + 1 + |x| + |y| <= |p| && p[at..at + 1 + |x| + |y|] == [n] + x + y
    ensures p[at] == n && p[at + 1..at + 1 + |x|] == x && p[at + 1 + |x|..at + 1 + |x| + |y|] == y
  {
    var w := [n] + x + y;
    assert forall i :: at <= i < at + |w| ==> p[i] == p[at..at + |w|][i - at];
    assert forall i :: 0 <= i < |x| ==> w[1 + i] == x[i];
    assert forall i :: 0 <= i < |y| ==> w[1 + |x| + i] == y[i];
  }

  lemma WireHead(p: seq<Byte>, at: nat, labels: seq<Label>)
    requires labels != [] && forall i :: 0 <= i < |labels| ==> 1 <= |labels[i]| <= MAX_LABEL
    requires WireAt(p, at, labels)
    ensures var n := |labels[0]|;
            && at + 1 + n <= |p| && p[at] == n && p[at + 1..at + 1 + n] == labels[0]
            && WireAt(p, at + 1 + n, labels[1..])
  {
    var n, w := |labels[0]|, Wire(labels);
    assert w == [n] + labels[0] + Wire(labels[1..]);
    Pieces(p, at, n, labels[0], Wire(labels[1..]));
  }

  lemma {:induction false} WireNameEnd(p: seq<Byte>, at: nat, labels: seq<Label>)
    requires forall i :: 0 <= i < |labels| ==> 1 <= |labels[i]| <= MAX_LABEL
    requires WireAt(p, at, labels)
    ensures NameEnd(p, at) == at + |Wire(labels)|
    decreases |labels|
  {
    if labels == [] {
      assert p[at] == p[at..at + 1][0] == 0;
    } else {
      WireHead(p, at, labels);
      WireNameEnd(p, at + 1 + |labels[0]|, labels[1..]);
    }
  }

  lemma RootReadsBack(p: seq<Byte>, at: nat, size: nat, hops: nat)
    requires WireAt(p, at, []) && hops <= MAX_HOPS
    ensures ReadLabels(p, at, size, hops) == Some(LowerLabels([]))
  {
    assert p[at] == p[at..at + 1][0] == 0;
  }

  lemma LowerCons(labels: seq<Label>)
    requires labels != []
    ensures LowerLabels(labels) == [LowerAll(labels[0])] + LowerLabels(labels[1..])
  {
    hide LowerAll;
  }

  /** An uncompressed name is read back label by label. */
  lemma {:induction false} WireReadsBack(p: seq<Byte>, at: nat, labels: seq<Label>, size: nat, hops: nat)
    requires forall i :: 0 <= i < |labels| ==> 1 <= |labels[i]| <= MAX_LABEL
    requires WireAt(p, at, labels) && hops <= MAX_HOPS && TextSize(size, LowerLabels(labels)) < MAX_NAME
    ensures ReadLabels(p, at, size, hops) == Some(LowerLabels(labels))
    decreases |labels|
  {
    hide ReadLabels, LowerAll, LowerLabels, WireAt, Wire, TextSize;
    if labels == [] {
      RootReadsBack(p, at, size, hops);
    } else {
      WireHead(p, at, labels);
      var n, rest := |labels[0]|, labels[1..];
      LowerCons(labels);
      TextSizeCons(size, LowerAll(labels[0]), LowerLabels(rest));
      ReadsLabel(p, at, size, hops, labels[0]);
      WireReadsBack(p, at + 1 + n, rest, Grown(size, n), hops);
    }
  }

  lemma {:induction false} LowerJoin(labels: seq<Label>)
    ensures Join(LowerLabels(labels)) == LowerAll(Join(labels))
    ensures |LowerLabels(labels)| == |labels|
    ensures forall i :: 0 <= i < |labels| ==> |LowerLabels(labels)[i]| == |labels[i]|
  {
    if labels != [] {
      LowerJoin(labels[1..]);
      JoinCons(labels[0], labels[1..]);
      JoinCons(LowerAll(labels[0]), LowerLabels(labels[1..]));
      assert [labels[0]] + labels[1..] == labels;
    }
  }

  /** A response that repeats the question and answers it with one SRV record naming offset 12. */
  function Answer(owner: seq<Byte>, id: Word16, class_: Word16, ttl: seq<Byte>, srv: seq<Byte>, port: Word16,
                  target: seq<Byte>): seq<Byte>
    requires Labels(owner).Some? && |ttl| == 4 && |srv| == 4 && |target| + 6 < WRAP16
  {
    HeaderBytes(id, 0x80, 1) + Wire(Labels(owner).value) + QUESTION_TAIL
    + ([0xC0, 12] + Bytes16(TYPE_SRV) + Bytes16(class_) + ttl + Bytes16(|target| + 6))
    + (srv + Bytes16(port) + target)
  }

  /** The places of an answer that the parser looks at. */
  ghost predicate AnswerLayout(p: seq<Byte>, owner: seq<Byte>, id: Word16, ttl: seq<Byte>, port: Word16)
    requires Labels(owner).Some?
  {
    var labels := Labels(owner).value;
    var record := 12 + |Wire(labels)| + 4;
    && |p| >= record + 18 && Be16(p, 0) == id && p[2] == 0x80
    && Be16(p, 4) == 1 && Be16(p, 6) == 1 && Be16(p, 8) == 0 && Be16(p, 10) == 0
    && WireAt(p, 12, labels)
    && p[record] == 0xC0 && p[record + 1] == 12
    && Be16(p, record + 2) == TYPE_SRV && p[record + 6..record + 10] == ttl
    && Be16(p, record + 10) == |p| - record - 12 && Be16(p, record + 16) == port
  }

  lemma AnswerIsLaidOut(owner: seq<Byte>, id: Word16, class_: Word16, ttl: seq<Byte>, srv: seq<Byte>, port: Word16,
                        target: seq<Byte>)
    requires Labels(owner).Some? && |ttl| == 4 && |srv| == 4 && |target| + 6 < WRAP16
    ensures AnswerLayout(Answer(owner, id, class_, ttl, srv, port, target), owner, id, ttl, port)
  {
    hide Wire, Labels;
    var p := Answer(owner, id, class_, ttl, srv, port, target);
    var w := Wire(Labels(owner).value);
    var record := 12 + |w| + 4;
    var fixed := [0xC0, 12] + Bytes16(TYPE_SRV) + Bytes16(class_) + ttl + Bytes16(|target| + 6);
    var data := srv + Bytes16(port) + target;
    var head := HeaderBytes(id, 0x80, 1);
    assert p == head + w + QUESTION_TAIL + fixed + data;
    Slices(p, head, w, QUESTION_TAIL, fixed, data);
    assert fixed[6..10] == ttl;
    assert p[record + 6..record + 10] == p[record..record + 12][6..10];
  }

  lemma Slices(p: seq<Byte>, head: seq<Byte>, w: seq<Byte>, tail: seq<Byte>, fixed: seq<Byte>, data: seq<Byte>)
    requires p == head + w + tail + fixed + data && |head| == 12 && |tail| == 4 && |fixed| == 12
    ensures var record := 12 + |w| + 4;
            && p[12..12 + |w|] == w && p[record..record + 12] == fixed
            && (forall i {:trigger head[i]} {:trigger p[i]} :: 0 <= i < 12 ==> p[i] == head[i])
            && (forall i {:trigger fixed[i]} :: 0 <= i < 12 ==> p[record + i] == fixed[i])
            && (forall i {:trigger data[i]} :: 0 <= i < |data| ==> p[record + 12 + i] == data[i])
  {
  }

  /** Both names of an answer, the question's and the record's, read as the owner in lower case. */
  lemma AnswerNames(p: seq<Byte>, owner: seq<Byte>, record: nat)
    requires Labels(owner).Some? && 0 !in owner && |owner| < MAX_NAME
    requires WireAt(p, 12, Labels(owner).value) && record == 12 + |Wire(Labels(owner).value)| + 4
    requires record + 1 < |p| && p[record] == 0xC0 && p[record + 1] == 12
    ensures var text := LowerAll(Join(Labels(owner).value));
            && ReadName(p, 12) == Some(Name(text, record - 4))
            && ReadName(p, record) == Some(Name(text, record + 2))
            && CString(text) == text
  {
    hide Wire, Join, Labels, WireAt, ReadLabels, NameEnd, LowerAll;
    var labels := Labels(owner).value;
    JoinOfLabels(owner);
    LowerJoin(labels);
    TextSizeIsJoin(0, LowerLabels(labels));
    WireReadsBack(p, 12, labels, 0, 0);
    WireReadsBack(p, 12, labels, 0, 1);
    WireNameEnd(p, 12, labels);
    PointerReads(p, record, LowerLabels(labels));
    LowerHasNoNul(Join(labels), owner);
  }

  lemma AnswerIsResolved(p: seq<Byte>, owner: seq<Byte>, id: Word16, ttl: seq<Byte>, port: Word16, asked: Word16)
    requires Labels(owner).Some? && 0 !in owner && |owner| < MAX_NAME
    requires AnswerLayout(p, owner, id, ttl, port) && ttl != [0, 0, 0, 0] && port != 0
    requires asked == 0 || asked == id
    ensures ParseResponse(p, owner, asked) == if EndsWithDot(owner) then None else Some(port)
  {
    hide Wire, Join, Labels, WireAt, ReadName, CString, LowerAll, FindPort, EndsWithDot;
    var joined := Join(Labels(owner).value);
    var record := 12 + |Wire(Labels(owner).value)| + 4;
    AnswerNames(p, owner, record);
    assert SkipQuestions(p, 12, 1) == Some(record);
    OneRecord(p, record, LowerAll(joined), LowerAll(owner), port);
    JoinOfLabels(owner);
    LowerOfOwner(owner, joined);
  }

  lemma PointerReads(p: seq<Byte>, at: nat, labels: seq<Label>)
    requires 12 < at && at + 1 < |p| && p[at] == 0xC0 && p[at + 1] == 12
    requires ReadLabels(p, 12, 0, 1) == Some(labels)
    ensures ReadLabels(p, at, 0, 0) == Some(labels) && NameEnd(p, at) == at + 2
  {
  }

  lemma LowerHasNoNul(text: seq<Byte>, owner: seq<Byte>)
    requires 0 !in owner && text <= owner
    ensures CString(LowerAll(text)) == LowerAll(text)
  {
    forall i | 0 <= i < |text| ensures LowerAll(text)[i] != 0 { assert text[i] == owner[i]; }
  }

  /** A lone SRV record resolves the name it carries. */
  lemma OneRecord(p: seq<Byte>, record: nat, text: seq<Byte>, want: seq<Byte>, port: Word16)
    requires ReadName(p, record) == Some(Name(text, record + 2)) && CString(text) == text
    requires |p| >= record + 18 && port != 0
    requires Be16(p, record + 2) == TYPE_SRV && p[record + 6..record + 10] != [0, 0, 0, 0]
    requires Be16(p, record + 10) == |p| - record - 12 && Be16(p, record + 16) == port
    ensures FindPort(p, record, 1, want) == if text == want then Some(port) else None
  {
    hide ReadName, CString;
    assert FindPort(p, |p|, 0, want) == None;
  }

  lemma LowerOfOwner(owner: seq<Byte>, joined: seq<Byte>)
    requires owner == joined + TrailingDot(owner)
    ensures LowerAll(joined) == LowerAll(owner) <==> !EndsWithDot(owner)
  {
    if EndsWithDot(owner) { assert |LowerAll(joined)| != |LowerAll(owner)|; } else { assert joined == owner; }
  }

  /**
   Answering a query with a live SRV record under its own name yields that record's port, unless
   the owner was written with a trailing dot: then the decoded name never compares equal.
   */
  lemma QueryRoundTrip(owner: seq<Byte>, id: Word16, class_: Word16, ttl: seq<Byte>, srv: seq<Byte>, port: Word16,
                       target: seq<Byte>)
    requires Labels(owner).Some? && 0 !in owner && |owner| < MAX_NAME
    requires |ttl| == 4 && ttl != [0, 0, 0, 0] && |srv| == 4 && |target| + 6 < WRAP16 && port != 0
    ensures Query(owner, 512, id) == Some(HeaderBytes(id, 0, 0) + Wire(Labels(owner).value) + QUESTION_TAIL)
    ensures ParseResponse(Answer(owner, id, class_, ttl, srv, port, target), owner, id)
            == if EndsWithDot(owner) then None else Some(port)
  {
    hide Answer, ParseResponse, Query, AnswerLayout, Wire, Labels, HeaderBytes, EndsWithDot;
    QueryFits(owner, id);
    AnswerIsLaidOut(owner, id, class_, ttl, srv, port, target);
    AnswerIsResolved(Answer(owner, id, class_, ttl, srv, port, target), owner, id, ttl, port, id);
  }

  /**
   A query is made exactly if the labels are proper and the name fits between header and question; it asks once,
   for the SRV records of the name in the Internet class, with a unicast response.
   */
  lemma QueryIff(owner: seq<Byte>, cap: nat, id: Word16)
    ensures Query(owner, cap, id) ==
            if Labels(owner).Some? && 16 + |Wire(Labels(owner).value)| <= cap
            then Some([id / 0x100, id % 0x100, 0, 0, 0, 1, 0, 0, 0, 0, 0, 0] + Wire(Labels(owner).value)
                      + [0, 33, 0x80, 1])
            else None
  {
    hide Wire, Labels;
    assert HeaderBytes(id, 0, 0) == [id / 0x100, id % 0x100, 0, 0, 0, 1, 0, 0, 0, 0, 0, 0];
    if cap >= 12 && Labels(owner).Some? { assert EncodeName(owner, cap - 12).Some? ==> cap - 12 >= 0; }
  }

  /** Every owner of at most 255 bytes with proper labels has a query that fits the 512-byte buffer. */
  lemma QueryFits(owner: seq<Byte>, id: Word16)
    requires Labels(owner).Some? && |owner| < MAX_NAME
    ensures Query(owner, 512, id) == Some(HeaderBytes(id, 0, 0) + Wire(Labels(owner).value) + QUESTION_TAIL)
  {
    hide Wire, Labels, Join, HeaderBytes;
    JoinOfLabels(owner);
    WireSize(Labels(owner).value);
  }
}
