/**
 The loops of src/dacp_resolve.c: writing a name and a query into a buffer, decoding a name and
 scanning a response. Each is proved against its specification in DnsNames and DnsService.
 */
module DnsCodec {
  import opened Words
  import opened Scan
  import opened DnsNames
  import opened DnsService

  /** `written` is the wire form of the labels of `all` that are not in `rest`. */
  ghost predicate Progress(all: Option<seq<Label>>, written: seq<Byte>, rest: Option<seq<Label>>)
    requires all.Some? ==> forall i :: 0 <= i < |all.value| ==> |all.value[i]| <= MAX_LABEL
    requires rest.Some? ==> forall i :: 0 <= i < |rest.value| ==> |rest.value[i]| <= MAX_LABEL
  {
    && (all.Some? <==> rest.Some?)
    && (all.Some? ==> Wire(all.value) == written + Wire(rest.value))
  }

  /** encode_name into buf[base..]; the result is the number of bytes written. */
  method WriteName(buf: array<Byte>, base: nat, dotted: seq<Byte>) returns (n: Option<nat>)
    requires base <= buf.Length
    modifies buf
    ensures buf[..base] == old(buf[..base])
    ensures n.Some? <==> EncodeName(dotted, buf.Length - base).Some?
    ensures n.Some? ==> base + n.value <= buf.Length
                        && buf[base..base + n.value] == EncodeName(dotted, buf.Length - base).value
  {
    hide Wire, Labels, Progress;
    ghost var all := Labels(dotted);
    var cap := buf.Length - base;
    var o: nat, rest := 0, dotted;
    Begins(dotted);
    assert buf[base..base] == [];
    while |rest| > 0
      invariant o == 0 || o < cap
      invariant buf[..base] == old(buf[..base])
      invariant Progress(all, buf[base..base + o], Labels(rest))
      decreases |rest|
    {
      var dot := IndexOf(rest, DOT, 0, |rest|);
      var l := if dot.Some? then dot.value else |rest|;
      if l == 0 || l > MAX_LABEL {
        BadLabel(all, buf[base..base + o], rest, l);
        return None;
      }
      if o + 1 + l >= cap {
        TooLong(all, buf[base..base + o], rest, l, cap);
        return None;
      }
      ghost var before, front := buf[base..base + o], buf[..base + o];
      assert before == front[base..] && old(buf[..base]) == front[..base];
      PutLabel(buf, base + o, rest[..l]);
      assert buf[..base] == buf[..base + o][..base];
      assert buf[base..base + o + 1 + l] == buf[..base + o][base..] + buf[base + o..base + o + 1 + l];
      LabelWritten(all, before, rest, l);
      o := o + 1 + l;
      rest := if dot.None? then [] else rest[l + 1..];
    }
    Finished(all, buf[base..base + o]);
    if o + 1 > cap { return None; }
    ghost var before := buf[base..base + o];
    buf[base + o] := 0;
    assert buf[base..base + o + 1] == before + [0];
    n := Some(o + 1);
  }

  lemma Begins(dotted: seq<Byte>)
    ensures Progress(Labels(dotted), [], Labels(dotted))
  {
    assert Labels(dotted).Some? ==> [] + Wire(Labels(dotted).value) == Wire(Labels(dotted).value);
  }

  lemma BadLabel(all: Option<seq<Label>>, written: seq<Byte>, rest: seq<Byte>, l: nat)
    requires all.Some? ==> forall i :: 0 <= i < |all.value| ==> |all.value[i]| <= MAX_LABEL
    requires Progress(all, written, Labels(rest)) && rest != [] && (l == 0 || l > MAX_LABEL)
    requires var dot := IndexOf(rest, DOT, 0, |rest|); l == if dot.Some? then dot.value else |rest|
    ensures all.None?
  {
  }

  lemma LabelWritten(all: Option<seq<Label>>, written: seq<Byte>, rest: seq<Byte>, l: nat)
    requires all.Some? ==> forall i :: 0 <= i < |all.value| ==> |all.value[i]| <= MAX_LABEL
    requires Progress(all, written, Labels(rest)) && rest != [] && 1 <= l <= MAX_LABEL
    requires var dot := IndexOf(rest, DOT, 0, |rest|); l == if dot.Some? then dot.value else |rest|
    ensures Progress(all, written + ([l] + rest[..l]), Labels(if l < |rest| then rest[l + 1..] else []))
  {
    hide Wire, Labels;
    OneLabel(rest, l);
    if all.Some? {
      var after := Labels(if l < |rest| then rest[l + 1..] else []).value;
      assert written + ([l] + rest[..l] + Wire(after)) == (written + ([l] + rest[..l])) + Wire(after);
    }
  }

  lemma TooLong(all: Option<seq<Label>>, written: seq<Byte>, rest: seq<Byte>, l: nat, cap: nat)
    requires all.Some? ==> forall i :: 0 <= i < |all.value| ==> |all.value[i]| <= MAX_LABEL
    requires Progress(all, written, Labels(rest)) && rest != [] && 1 <= l <= MAX_LABEL
    requires var dot := IndexOf(rest, DOT, 0, |rest|); l == if dot.Some? then dot.value else |rest|
    requires |written| + 1 + l >= cap
    ensures all.Some? ==> |Wire(all.value)| > cap
  {
    hide Labels;
    OneLabel(rest, l);
  }

  lemma Finished(all: Option<seq<Label>>, written: seq<Byte>)
    requires all.Some? ==> forall i :: 0 <= i < |all.value| ==> |all.value[i]| <= MAX_LABEL
    requires Progress(all, written, Labels([]))
    ensures all.Some? && Wire(all.value) == written + [0]
  {
  }

  method PutLabel(buf: array<Byte>, at: nat, part: seq<Byte>)
    requires |part| <= MAX_LABEL && at + 1 + |part| <= buf.Length
    modifies buf
    ensures buf[..at] == old(buf[..at])
    ensures buf[at..at + 1 + |part|] == [|part|] + part
  {
    buf[at] := |part|;
    forall i | 0 <= i < |part| { buf[at + 1 + i] := part[i]; }
  }

  /** What one label contributes to the wire form of the rest of the name. */
  lemma OneLabel(rest: seq<Byte>, l: nat)
    requires rest != [] && 1 <= l <= MAX_LABEL
    requires var dot := IndexOf(rest, DOT, 0, |rest|); l == if dot.Some? then dot.value else |rest|
    ensures var after := if l < |rest| then rest[l + 1..] else [];
            && (Labels(rest).Some? <==> Labels(after).Some?)
            && (Labels(rest).Some? ==> Wire(Labels(rest).value) == [l] + rest[..l] + Wire(Labels(after).value))
  {
    var dot := IndexOf(rest, DOT, 0, |rest|);
    if dot.None? {
      assert rest[..l] == rest;
      assert Wire([rest]) == [|rest|] + rest + Wire([rest][1..]);
    } else if Labels(rest).Some? {
      var tail := Labels(rest[l + 1..]).value;
      assert ([rest[..l]] + tail)[1..] == tail;
    }
  }

  method BuildQuery(buf: array<Byte>, owner: seq<Byte>, id: Word16) returns (n: Option<nat>)
    modifies buf
    ensures n.Some? <==> Query(owner, buf.Length, id).Some?
    ensures n.Some? ==> n.value <= buf.Length && buf[..n.value] == Query(owner, buf.Length, id).value
  {
    hide EncodeName;
    if buf.Length < 12 { return None; }
    var head := HeaderBytes(id, 0, 0);
    forall i | 0 <= i < 12 { buf[i] := head[i]; }
    assert buf[..12] == head;
    var name := WriteName(buf, 12, owner);
    if name.None? { return None; }
    var o := 12 + name.value;
    if o + 4 > buf.Length { return None; }
    ghost var encoded := buf[12..o];
    forall i | 0 <= i < 4 { buf[o + i] := QUESTION_TAIL[i]; }
    assert buf[..12] == head && buf[12..o] == encoded && buf[o..o + 4] == QUESTION_TAIL;
    assert buf[..o + 4] == buf[..12] + buf[12..o] + buf[o..o + 4];
    n := Some(o + 4);
  }

  /** Adding a label at the end of the text, with a dot unless it is the first. */
  lemma {:induction false} JoinSnoc(done: seq<Label>, part: Label)
    ensures Join(done + [part]) == if done == [] then part else Join(done) + [DOT] + part
  {
    if done == [] {
      assert [] + [part] == [part];
    } else {
      JoinSnoc(done[1..], part);
      JoinCons(done[0], done[1..] + [part]);
      JoinCons(done[0], done[1..]);
      assert done + [part] == [done[0]] + (done[1..] + [part]);
      assert [done[0]] + done[1..] == done;
    }
  }

  /** One pass of read_name's loop: what stands at cur. */
  method Examine(p: seq<Byte>, cur: nat, size: nat, hops: nat) returns (f: Found)
    ensures f == Look(p, cur, size, hops)
  {
    if cur >= |p| { return Bad; }
    var b := p[cur];
    if b >= 0xC0 {
      if cur + 1 >= |p| { return Bad; }
      var ptr := Target(p, cur);
      if ptr >= cur { return Bad; }
      if hops + 1 > MAX_HOPS { return Bad; }
      return Pointer(ptr);
    }
    if b >= 0x40 { return Bad; }
    if b == 0 { return Root; }
    if cur + 1 + b > |p| { return Bad; }
    if size + b + 1 >= MAX_NAME { return Bad; }
    f := Part(LowerAll(p[cur + 1..cur + 1 + b]));
  }

  /** What is decoded so far, and what is still to be decoded from cur. */
  ghost predicate Decoding(p: seq<Byte>, off: nat, done: seq<Label>, text: seq<Byte>, cur: nat, hops: nat)
    requires hops <= MAX_HOPS
  {
    && text == Join(done) && (text == [] <==> done == [])
    && var rest := ReadLabels(p, cur, |text|, hops);
       ReadLabels(p, off, 0, 0) == if rest.None? then None else Some(done + rest.value)
  }

  lemma DecodingBegins(p: seq<Byte>, off: nat)
    ensures Decoding(p, off, [], [], off, 0)
  {
    var rest := ReadLabels(p, off, 0, 0);
    assert rest.Some? ==> [] + rest.value == rest.value;
  }

  lemma DecodingJumps(p: seq<Byte>, off: nat, done: seq<Label>, text: seq<Byte>, cur: nat, hops: nat)
    requires hops <= MAX_HOPS && Decoding(p, off, done, text, cur, hops)
    requires Look(p, cur, |text|, hops).Pointer?
    ensures Decoding(p, off, done, text, Look(p, cur, |text|, hops).target, hops + 1)
  {
    hide Look, Join;
  }

  lemma DecodingGrows(p: seq<Byte>, off: nat, done: seq<Label>, text: seq<Byte>, cur: nat, hops: nat)
    requires hops <= MAX_HOPS && Decoding(p, off, done, text, cur, hops)
    requires Look(p, cur, |text|, hops).Part?
    ensures var part := Look(p, cur, |text|, hops).text;
            Decoding(p, off, done + [part], (if text == [] then [] else text + [DOT]) + part, cur + 1 + |part|, hops)
  {
    hide Look, Join;
    var part := Look(p, cur, |text|, hops).text;
    JoinSnoc(done, part);
    assert [] + part == part;
    var rest := ReadLabels(p, cur + 1 + |part|, Grown(|text|, |part|), hops);
    assert rest.Some? ==> done + ([part] + rest.value) == (done + [part]) + rest.value;
  }

  /** read_name: follows labels and pointers, collecting the text in lower case. */
  method DecodeName(p: seq<Byte>, off: nat) returns (name: Option<Name>)
    ensures name == ReadName(p, off)
  {
    hide Decoding, Join;
    ghost var done: seq<Label> := [];
    var text: seq<Byte>, hops: nat, cur: nat, next: Option<nat> := [], 0, off, None;
    DecodingBegins(p, off);
    while true
      invariant hops <= MAX_HOPS && Decoding(p, off, done, text, cur, hops)
      invariant next.Some? ==> next.value == NameEnd(p, off)
      invariant next.None? ==> NameEnd(p, off) == NameEnd(p, cur)
      decreases MAX_HOPS - hops, |p| - cur
    {
      var f := Examine(p, cur, |text|, hops);
      match f {
        case Bad =>
          DecodingEnds(p, off, done, text, cur, hops);
          return None;
        case Root =>
          DecodingEnds(p, off, done, text, cur, hops);
          return Some(Name(text, if next.None? then cur + 1 else next.value));
        case Pointer(target) =>
          if next.None? { next := Some(cur + 2); }
          DecodingJumps(p, off, done, text, cur, hops);
          hops, cur := hops + 1, target;
        case Part(part) =>
          DecodingGrows(p, off, done, text, cur, hops);
          text := (if text == [] then [] else text + [DOT]) + part;
          done := done + [part];
          cur := cur + 1 + |part|;
      }
    }
  }

  lemma DecodingEnds(p: seq<Byte>, off: nat, done: seq<Label>, text: seq<Byte>, cur: nat, hops: nat)
    requires hops <= MAX_HOPS && Decoding(p, off, done, text, cur, hops)
    ensures Look(p, cur, |text|, hops).Bad? ==> ReadLabels(p, off, 0, 0).None?
    ensures Look(p, cur, |text|, hops).Root? ==> ReadLabels(p, off, 0, 0) == Some(done) && text == Join(done)
  {
    hide Look, Join;
    assert done + [] == done;
  }

  /** dacp_srv_parse_response: skips the questions, then looks through every record of the three sections. */
  method FindSrvPort(p: seq<Byte>, owner: seq<Byte>, id: Word16) returns (port: Option<nat>)
    ensures port == ParseResponse(p, owner, id)
  {
    hide ReadName, CString, LowerAll, RecordAt, SrvPort;
    if |p| < 12 { return None; }
    if id != 0 && Be16(p, 0) != id { return None; }
    if p[2] < 0x80 { return None; }
    if |owner| >= MAX_NAME { return None; }
    var questions := Be16(p, 4);
    var off: nat := 12;
    ghost var skipped := SkipQuestions(p, 12, questions);
    for i := 0 to questions
      invariant skipped == SkipQuestions(p, off, questions - i)
    {
      var name := DecodeName(p, off);
      if name.None? || name.value.next + 4 > |p| { return None; }
      off := name.value.next + 4;
    }
    var want := LowerAll(owner);
    var total := Be16(p, 6) + Be16(p, 8) + Be16(p, 10);
    port := ScanRecords(p, off, total, want);
  }

  method ScanRecords(p: seq<Byte>, start: nat, total: nat, want: seq<Byte>) returns (port: Option<nat>)
    ensures port == FindPort(p, start, total, want)
  {
    hide ReadName, CString, RecordAt, SrvPort;
    var off: nat := start;
    for i := 0 to total
      invariant FindPort(p, start, total, want) == FindPort(p, off, total - i, want)
    {
      var name := DecodeName(p, off);
      if name.None? { return None; }
      var r := RecordAt(p, name.value.next);
      if r.None? { return None; }
      if CString(name.value.text) == want {
        var found := SrvPort(p, r.value);
        if found.Some? { return found; }
      }
      off := r.value.rdata + r.value.rdlen;
    }
    port := None;
  }
}
