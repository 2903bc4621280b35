/**
 DNS names on the wire (src/dacp_resolve.c): encoding a dotted name into labels, and decoding a
 possibly compressed name (sections 3.1 and 4.1.4 of RFC 1035). A dotted name is a C string, so
 it holds no NUL byte.
 */
module DnsNames {
  import opened Words
  import opened Scan

  const MAX_NAME: int := 256
  const MAX_LABEL: int := 63
  const MAX_HOPS: int := 8

  type Label = seq<Byte>

  // ----- dotted names --------------------------------------------------------------------

  /** The labels of a dotted name; one trailing dot is tolerated, empty and oversized labels are not. */
  function Labels(dotted: seq<Byte>): (r: Option<seq<Label>>)
    ensures r.Some? ==> forall i :: 0 <= i < |r.value| ==> 1 <= |r.value[i]| <= MAX_LABEL
    decreases |dotted|
  {
    if dotted == [] then Some([])
    else
      var dot := IndexOf(dotted, DOT, 0, |dotted|);
      var n := if dot.Some? then dot.value else |dotted|;
      if n == 0 || n > MAX_LABEL then None
      else if dot.None? then Some([dotted])
      else
        var rest := Labels(dotted[n + 1..]);
        if rest.None? then None else Some([dotted[..n]] + rest.value)
  }

  function Join(labels: seq<Label>): seq<Byte> {
    if labels == [] then []
    else if |labels| == 1 then labels[0]
    else labels[0] + [DOT] + Join(labels[1..])
  }

  predicate EndsWithDot(dotted: seq<Byte>) {
    dotted != [] && dotted[|dotted| - 1] == DOT
  }

  lemma JoinCons(head: Label, rest: seq<Label>)
    ensures Join([head] + rest) == if rest == [] then head else head + [DOT] + Join(rest)
  {
    assert ([head] + rest)[1..] == rest;
  }

  function TrailingDot(dotted: seq<Byte>): seq<Byte> {
    if EndsWithDot(dotted) then [DOT] else []
  }

  /** Splitting and joining give the name back, less a trailing dot. */
  lemma {:induction false} JoinOfLabels(dotted: seq<Byte>)
    requires Labels(dotted).Some?
    ensures dotted == Join(Labels(dotted).value) + TrailingDot(dotted)
    ensures dotted != [] ==> Labels(dotted).value != []
    decreases |dotted|
  {
    if dotted == [] {
    } else if IndexOf(dotted, DOT, 0, |dotted|).None? {
      JoinCons(dotted, []);
      assert [dotted] + [] == [dotted];
    } else {
      var n := IndexOf(dotted, DOT, 0, |dotted|).value;
      JoinOfLabels(dotted[n + 1..]);
      JoinSplit(dotted, n, Labels(dotted[n + 1..]).value);
    }
  }

  ghost predicate Proper(labels: seq<Label>) {
    forall i :: 0 <= i < |labels| ==> 1 <= |labels[i]| <= MAX_LABEL && DOT !in labels[i]
  }

  lemma FirstDot(head: Label, tail: seq<Byte>)
    requires DOT !in head
    ensures IndexOf(head + [DOT] + tail, DOT, 0, |head| + 1 + |tail|) == Some(|head|)
  {
    var s := head + [DOT] + tail;
    assert s[|head|] == DOT;
    assert forall i :: 0 <= i < |head| ==> s[i] == head[i];
  }

  /** A proper first label, a dot and the rest split into that label and the labels of the rest. */
  lemma LabelsCons(head: Label, tail: seq<Byte>)
    requires 1 <= |head| <= MAX_LABEL && DOT !in head
    ensures Labels(head) == Some([head])
    ensures Labels(head + [DOT] + tail) == if Labels(tail).None? then None else Some([head] + Labels(tail).value)
  {
    FirstDot(head, tail);
    var dotted := head + [DOT] + tail;
    assert dotted[|head| + 1..] == tail && dotted[..|head|] == head;
    assert IndexOf(head, DOT, 0, |head|).None?;
  }

  /** Joining proper labels, with or without a trailing dot, and splitting again gives the labels back. */
  lemma {:induction false} LabelsOfJoin(labels: seq<Label>, tail: seq<Byte>)
    requires labels != [] && Proper(labels) && (tail == [] || tail == [DOT])
    ensures Labels(Join(labels) + tail) == Some(labels)
    decreases |labels|
  {
    hide Labels, Join;
    var head, rest := labels[0], labels[1..];
    assert labels == [head] + rest;
    JoinCons(head, rest);
    NoLabels();
    if rest == [] {
      LabelsCons(head, []);
      assert head + [DOT] + [] == head + [DOT] && head + [] == head && [head] + [] == [head];
      assert labels == [head] && Join(labels) == head;
    } else {
      LabelsOfJoin(rest, tail);
      LabelsCons(head, Join(rest) + tail);
      assert Join(labels) + tail == head + [DOT] + (Join(rest) + tail);
    }
  }

  lemma NoLabels()
    ensures Labels([]) == Some([])
  {
  }

  lemma JoinSplit(dotted: seq<Byte>, n: nat, rest: seq<Label>)
    requires n < |dotted| && dotted[n] == DOT
    requires var tail := dotted[n + 1..];
             tail == Join(rest) + TrailingDot(tail) && (tail != [] ==> rest != []) && (tail == [] ==> rest == [])
    ensures dotted == Join([dotted[..n]] + rest) + TrailingDot(dotted)
  {
    hide Join;
    var head, tail := dotted[..n], dotted[n + 1..];
    assert dotted == head + [DOT] + tail;
    JoinCons(head, rest);
    if tail != [] {
      assert TrailingDot(dotted) == TrailingDot(tail);
      assert head + [DOT] + (Join(rest) + TrailingDot(tail)) == (head + [DOT] + Join(rest)) + TrailingDot(tail);
    } else {
      assert TrailingDot(dotted) == [DOT];
    }
  }

  /** The uncompressed wire form: each label after its length, then the root. */
  function Wire(labels: seq<Label>): (w: seq<Byte>)
    requires forall i :: 0 <= i < |labels| ==> |labels[i]| <= MAX_LABEL
  {
    if labels == [] then [0] else [|labels[0]|] + labels[0] + Wire(labels[1..])
  }

  /** The wire form of a dotted name, if it has one that fits. */
  function EncodeName(dotted: seq<Byte>, cap: nat): Option<seq<Byte>> {
    var labels := Labels(dotted);
    if labels.Some? && |Wire(labels.value)| <= cap then Some(Wire(labels.value)) else None
  }

  lemma {:induction false} WireSize(labels: seq<Label>)
    requires forall i :: 0 <= i < |labels| ==> |labels[i]| <= MAX_LABEL
    ensures |Wire(labels)| == if labels == [] then 1 else |Join(labels)| + 2
  {
    if labels != [] { WireSize(labels[1..]); }
  }

  // ----- decoding ------------------------------------------------------------------------

  predicate IsPointer(b: Byte) {
    b >= 0xC0
  }

  predicate IsLabel(b: Byte) {
    1 <= b <= MAX_LABEL
  }

  function Target(p: seq<Byte>, at: nat): nat
    requires at + 1 < |p| && IsPointer(p[at])
  {
    var high: int := p[at];
    (high - 0xC0) * 0x100 + p[at + 1]
  }

  /** The length of the decoded text once a label of n bytes is added to `size` bytes. */
  function Grown(size: nat, n: nat): nat {
    (if size > 0 then size + 1 else 0) + n
  }

  /** What read_name finds at position cur, with `size` bytes of text written and `hops` pointers followed. */
  datatype Found = Bad | Root | Pointer(target: nat) | Part(text: Label)

  function Look(p: seq<Byte>, cur: nat, size: nat, hops: nat): (f: Found)
    ensures f.Pointer? ==> hops < MAX_HOPS && f.target < cur < |p|
    ensures f.Part? ==> 1 <= |f.text| <= MAX_LABEL && cur + 1 + |f.text| <= |p|
  {
    if cur >= |p| then Bad
    else if IsPointer(p[cur]) then
      if cur + 1 >= |p| || Target(p, cur) >= cur || hops + 1 > MAX_HOPS then Bad else Pointer(Target(p, cur))
    else if p[cur] == 0 then Root
    else if !IsLabel(p[cur]) || cur + 1 + p[cur] > |p| || size + p[cur] + 1 >= MAX_NAME then Bad
    else Part(LowerAll(p[cur + 1..cur + 1 + p[cur]]))
  }

  function ReadLabels(p: seq<Byte>, cur: nat, size: nat, hops: nat): Option<seq<Label>>
    requires hops <= MAX_HOPS
    decreases MAX_HOPS - hops, |p| - cur
  {
    match Look(p, cur, size, hops)
    case Bad => None
    case Root => Some([])
    case Pointer(target) => ReadLabels(p, target, size, hops + 1)
    case Part(text) =>
      var rest := ReadLabels(p, cur + 1 + |text|, Grown(size, |text|), hops);
      if rest.None? then None else Some([text] + rest.value)
  }

  lemma LookAtLabel(p: seq<Byte>, cur: nat, size: nat, hops: nat)
    requires cur < |p| && IsLabel(p[cur]) && cur + 1 + p[cur] <= |p| && size + p[cur] + 1 < MAX_NAME
    ensures Look(p, cur, size, hops) == Part(LowerAll(p[cur + 1..cur + 1 + p[cur]]))
  {
  }

  /** Reading on from a label that fits. */
  lemma ReadsLabel(p: seq<Byte>, cur: nat, size: nat, hops: nat, text: Label)
    requires hops <= MAX_HOPS && cur < |p| && 1 <= |text| <= MAX_LABEL && cur + 1 + |text| <= |p|
    requires p[cur] == |text| && p[cur + 1..cur + 1 + |text|] == text && size + |text| + 1 < MAX_NAME
    ensures var rest := ReadLabels(p, cur + 1 + |text|, Grown(size, |text|), hops);
            ReadLabels(p, cur, size, hops) == if rest.None? then None else Some([LowerAll(text)] + rest.value)
  {
    hide Look, LowerAll;
    LookAtLabel(p, cur, size, hops);
  }

  /** A reader moves on exactly as far as what it found tells it to. */
  lemma LookMoves(p: seq<Byte>, cur: nat, size: nat, hops: nat)
    ensures match Look(p, cur, size, hops)
            case Bad => true
            case Root => cur < |p| && p[cur] == 0
            case Pointer(target) => IsPointer(p[cur]) && Moves(p, cur, target)
            case Part(text) => && IsLabel(p[cur]) && Moves(p, cur, cur + 1 + |text|)
                               && text == LowerAll(p[cur + 1..cur + 1 + |text|]) && size + |text| + 1 < MAX_NAME
  {
  }

  /** The position after the name where it first stands. */
  function NameEnd(p: seq<Byte>, cur: nat): nat
    decreases |p| - cur
  {
    if cur >= |p| then cur
    else if IsPointer(p[cur]) then cur + 2
    else if !IsLabel(p[cur]) then cur + 1
    else NameEnd(p, cur + 1 + p[cur])
  }

  datatype Name = Name(text: seq<Byte>, next: nat)

  function ReadName(p: seq<Byte>, off: nat): Option<Name> {
    var labels := ReadLabels(p, off, 0, 0);
    if labels.None? then None else Some(Name(Join(labels.value), NameEnd(p, off)))
  }

  lemma {:induction false} NameEndsInPacket(p: seq<Byte>, cur: nat, size: nat, hops: nat)
    requires hops <= MAX_HOPS && ReadLabels(p, cur, size, hops).Some?
    ensures cur < NameEnd(p, cur) <= |p|
    decreases |p| - cur
  {
    if IsLabel(p[cur]) { NameEndsInPacket(p, cur + 1 + p[cur], Grown(size, p[cur]), hops); }
  }

  // ----- decoding is full expansion --------------------------------------------------------

  /** One move of a reader that follows the wire: over a label, or backwards along a pointer. */
  ghost predicate Moves(p: seq<Byte>, a: nat, b: nat) {
    && a < |p|
    && (|| (IsPointer(p[a]) && a + 1 < |p| && b == Target(p, a) && b < a)
        || (IsLabel(p[a]) && b == a + 1 + p[a] && b <= |p|))
  }

  /** A walk from the start of a name to its root. */
  ghost predicate Walk(p: seq<Byte>, path: seq<nat>) {
    && path != []
    && (forall i :: 0 <= i < |path| - 1 ==> Moves(p, path[i], path[i + 1]))
    && path[|path| - 1] < |p| && p[path[|path| - 1]] == 0
  }

  ghost function Jumps(p: seq<Byte>, path: seq<nat>): nat {
    if |path| < 2 then 0
    else (if path[0] < |p| && IsPointer(p[path[0]]) then 1 else 0) + Jumps(p, path[1..])
  }

  /** The labels passed on the way, in lower case. */
  ghost function LabelsAlong(p: seq<Byte>, path: seq<nat>): seq<Label> {
    if |path| < 2 then []
    else if path[0] < path[1] <= |p| then [LowerAll(p[path[0] + 1..path[1]])] + LabelsAlong(p, path[1..])
    else LabelsAlong(p, path[1..])
  }

  ghost function TextSize(size: nat, labels: seq<Label>): nat
    decreases |labels|
  {
    if labels == [] then size else TextSize(Grown(size, |labels[0]|), labels[1..])
  }

  lemma {:induction false} GrownIsMonotone(size: nat, labels: seq<Label>)
    ensures TextSize(size, labels) >= size
    decreases |labels|
  {
    if labels != [] { GrownIsMonotone(Grown(size, |labels[0]|), labels[1..]); }
  }

  lemma TextSizeCons(size: nat, first: Label, rest: seq<Label>)
    ensures TextSize(size, [first] + rest) == TextSize(Grown(size, |first|), rest) >= Grown(size, |first|)
  {
    assert ([first] + rest)[1..] == rest;
    GrownIsMonotone(Grown(size, |first|), rest);
  }

  lemma {:induction false} TextSizeIsJoin(size: nat, labels: seq<Label>)
    requires forall i :: 0 <= i < |labels| ==> |labels[i]| >= 1
    ensures TextSize(size, labels) == if labels == [] then size else Grown(size, |Join(labels)|)
    decreases |labels|
  {
    if labels != [] { TextSizeIsJoin(Grown(size, |labels[0]|), labels[1..]); }
  }

  /** Whatever decoding returns is what some walk with few enough jumps spells. */
  lemma {:induction false} DecodedIsWalk(p: seq<Byte>, cur: nat, size: nat, hops: nat) returns (path: seq<nat>)
    requires hops <= MAX_HOPS && ReadLabels(p, cur, size, hops).Some? && size < MAX_NAME
    ensures Walk(p, path) && path[0] == cur && hops + Jumps(p, path) <= MAX_HOPS
    ensures LabelsAlong(p, path) == ReadLabels(p, cur, size, hops).value
    ensures TextSize(size, LabelsAlong(p, path)) < MAX_NAME
    decreases MAX_HOPS - hops, |p| - cur
  {
    hide Look, LowerAll;
    LookMoves(p, cur, size, hops);
    match Look(p, cur, size, hops)
    case Bad =>
    case Root =>
      path := [cur];
    case Pointer(target) =>
      var rest := DecodedIsWalk(p, target, size, hops + 1);
      path := [cur] + rest;
      assert path[1..] == rest;
      WalkExtends(p, cur, rest);
    case Part(text) =>
      var rest := DecodedIsWalk(p, cur + 1 + |text|, Grown(size, |text|), hops);
      path := [cur] + rest;
      assert path[1..] == rest;
      assert LabelsAlong(p, path) == [text] + LabelsAlong(p, rest);
      assert ([text] + LabelsAlong(p, rest))[1..] == LabelsAlong(p, rest);
      WalkExtends(p, cur, rest);
  }

  lemma WalkExtends(p: seq<Byte>, cur: nat, rest: seq<nat>)
    requires Walk(p, rest) && Moves(p, cur, rest[0])
    ensures Walk(p, [cur] + rest)
  {
    var path := [cur] + rest;
    forall i | 0 <= i < |path| - 1 ensures Moves(p, path[i], path[i + 1]) {
      if i > 0 { assert path[i] == rest[i - 1] && path[i + 1] == rest[i]; }
    }
  }

  lemma WalkTail(p: seq<Byte>, path: seq<nat>)
    requires Walk(p, path) && |path| >= 2
    ensures Walk(p, path[1..]) && Moves(p, path[0], path[1])
  {
    var rest := path[1..];
    forall i | 0 <= i < |rest| - 1 ensures Moves(p, rest[i], rest[i + 1]) {
      assert rest[i] == path[i + 1] && rest[i + 1] == path[i + 2];
    }
  }

  /** Every walk with at most eight jumps whose text fits is decoded. */
  lemma {:induction false} WalkIsDecoded(p: seq<Byte>, path: seq<nat>, size: nat, hops: nat)
    requires Walk(p, path) && hops + Jumps(p, path) <= MAX_HOPS
    requires TextSize(size, LabelsAlong(p, path)) < MAX_NAME
    ensures ReadLabels(p, path[0], size, hops) == Some(LabelsAlong(p, path))
    decreases |path|
  {
    var cur := path[0];
    if |path| == 1 {
      assert p[cur] == 0;
    } else {
      WalkTail(p, path);
      var rest := path[1..];
      if IsPointer(p[cur]) {
        WalkIsDecoded(p, rest, size, hops + 1);
      } else {
        var n := p[cur];
        assert LabelsAlong(p, path)[1..] == LabelsAlong(p, rest);
        GrownIsMonotone(Grown(size, n), LabelsAlong(p, rest));
        WalkIsDecoded(p, rest, Grown(size, n), hops);
        LookAtLabel(p, cur, size, hops);
      }
    }
  }

  /** A name decodes exactly when following its labels and pointers reaches a root within eight jumps
      and 255 bytes of text, and it decodes to what is passed on the way. */
  lemma DecodesIffExpands(p: seq<Byte>, off: nat, labels: seq<Label>)
    ensures ReadLabels(p, off, 0, 0) == Some(labels) <==>
            exists path :: && Walk(p, path) && path[0] == off && Jumps(p, path) <= MAX_HOPS
                           && LabelsAlong(p, path) == labels && TextSize(0, labels) < MAX_NAME
  {
    if ReadLabels(p, off, 0, 0) == Some(labels) {
      var path := DecodedIsWalk(p, off, 0, 0);
    }
    forall path | Walk(p, path) && path[0] == off && Jumps(p, path) <= MAX_HOPS
                  && LabelsAlong(p, path) == labels && TextSize(0, labels) < MAX_NAME
      ensures ReadLabels(p, off, 0, 0) == Some(labels)
    {
      WalkIsDecoded(p, path, 0, 0);
    }
  }

  // ----- more bytes do not change a decoded name -------------------------------------------

  lemma {:induction false} LabelsStable(p: seq<Byte>, more: seq<Byte>, cur: nat, size: nat, hops: nat)
    requires hops <= MAX_HOPS && ReadLabels(p, cur, size, hops).Some?
    ensures ReadLabels(p + more, cur, size, hops) == ReadLabels(p, cur, size, hops)
    decreases MAX_HOPS - hops, |p| - cur
  {
    hide LowerAll;
    var q := p + more;
    assert q[cur] == p[cur];
    if IsPointer(p[cur]) {
      assert q[cur + 1] == p[cur + 1] && Target(q, cur) == Target(p, cur);
      LabelsStable(p, more, Target(p, cur), size, hops + 1);
    } else if IsLabel(p[cur]) {
      var n := p[cur];
      assert q[cur + 1..cur + 1 + n] == p[cur + 1..cur + 1 + n];
      LabelsStable(p, more, cur + 1 + n, Grown(size, n), hops);
    }
  }

  lemma {:induction false} NameEndStable(p: seq<Byte>, more: seq<Byte>, cur: nat, size: nat, hops: nat)
    requires hops <= MAX_HOPS && ReadLabels(p, cur, size, hops).Some?
    ensures NameEnd(p + more, cur) == NameEnd(p, cur)
    decreases |p| - cur
  {
    assert (p + more)[cur] == p[cur];
    if IsLabel(p[cur]) { NameEndStable(p, more, cur + 1 + p[cur], Grown(size, p[cur]), hops); }
  }

  lemma NameStable(p: seq<Byte>, more: seq<Byte>, off: nat)
    requires ReadName(p, off).Some?
    ensures ReadName(p + more, off) == ReadName(p, off)
  {
    LabelsStable(p, more, off, 0, 0);
    NameEndStable(p, more, off, 0, 0);
  }
}
