/**
 The lease connection (LeaseConnection.java): producers that enqueue events, one writer thread that
 drains them, and close() from any thread. One step is one synchronized block, one encoder call or
 one socket write; the outcome of encoder and socket, and the passing of time, are free choices.
 */
module LeaseModel {
  const QUEUE_CAP: nat := 256

  datatype Kind = Key | Hello | Heartbeat | OtherKind

  /** An event on its way to the supervisor; the key fields matter for keys only. */
  datatype OutEvent = OutEvent(kind: Kind, keyCode: int, pressed: bool)

  const HELLO := OutEvent(Hello, 0, false)
  const BEAT := OutEvent(Heartbeat, 0, false)

  datatype Framed = Framed(seqNo: nat, event: OutEvent)

  /** The fields guarded by the lock. */
  datatype Core = Core(queue: seq<Framed>, nextSeq: nat, drops: nat, closed: bool, up: bool, down: bool, helloSeq: nat)

  const OPENED := Core([], 0, 0, false, false, false, 0)

  function StartSection(c: Core): (Core, bool) {
    if c.closed then (c, false) else (c.(helloSeq := c.nextSeq, nextSeq := c.nextSeq + 1), true)
  }

  predicate MustDrop(c: Core, e: OutEvent) { |c.queue| >= QUEUE_CAP && e.kind == Key }

  function EnqueueSection(c: Core, e: OutEvent): (Core, bool) {
    if c.closed then (c, false)
    else
      var kept := if MustDrop(c, e) then c.queue[1..] else c.queue;
      (c.(queue := kept + [Framed(c.nextSeq, e)], nextSeq := c.nextSeq + 1,
          drops := if MustDrop(c, e) then c.drops + 1 else c.drops), true)
  }

  function CloseSection(c: Core): (Core, bool) { (c.(closed := true), !c.closed) }

  function MarkUp(c: Core): Core { if c.closed then c else c.(up := true) }

  function MarkDown(c: Core): Core { if c.up then c.(down := true) else c }

  datatype Taken = Stop | Wait | Frame(frame: Framed)

  /** The writer's turn: the oldest frame, or a heartbeat once the queue has been idle long enough. */
  function TakeSection(c: Core, idle: bool): (Core, Taken) {
    if c.closed then (c, Stop)
    else if c.queue != [] then (c.(queue := c.queue[1..]), Frame(c.queue[0]))
    else if idle then (c.(nextSeq := c.nextSeq + 1), Frame(Framed(c.nextSeq, BEAT)))
    else (c, Wait)
  }

  // ----- threads ----------------------------------------------------------------------------

  datatype Writer =
    | Unborn
    | Spawned
    | Encode(frame: Framed, first: bool)
    | Write(first: bool)
    | RaiseUp
    | Loop
    | SelfClose
    | SelfDown
    | Gone

  /**
   `handed` lists the frames given to the encoder and `dropped` the numbers removed unsent, both in
   order; `issued` has the event of every number given out, and `others` counts enqueued events that
   are not keys.
   */
  datatype Lease = Lease(core: Core, writer: Writer, closers: nat, handed: seq<Framed>, dropped: seq<nat>,
                         issued: seq<OutEvent>, others: nat)

  const BOOT := Lease(OPENED, Unborn, 0, [], [], [], 0)

  datatype Action =
    | Start
    | Enqueue(event: OutEvent)
    | Close
    | FinishClose
    | Step(ok: bool, bytes: bool)

  function HelloFrame(l: Lease): Framed { Framed(l.core.helloSeq, HELLO) }

  function WriterNext(l: Lease, ok: bool, bytes: bool): Lease {
    match l.writer
    case Spawned =>
      l.(writer := if l.core.closed then Gone else Encode(HelloFrame(l), true))
    case Encode(f, first) =>
      l.(handed := l.handed + [f],
         writer := if bytes then Write(first) else if first then RaiseUp else Loop)
    case Write(first) =>
      l.(writer := if l.core.closed || !ok then SelfClose else if first then RaiseUp else Loop)
    case RaiseUp => l.(core := MarkUp(l.core), writer := Loop)
    case Loop =>
      var (core, taken) := TakeSection(l.core, ok);
      l.(core := core, issued := if core.nextSeq > l.core.nextSeq then l.issued + [BEAT] else l.issued,
         writer := match taken case Stop => SelfClose case Wait => Loop case Frame(f) => Encode(f, false))
    case SelfClose =>
      var (core, mine) := CloseSection(l.core);
      l.(core := core, writer := if mine then SelfDown else Gone)
    case SelfDown => l.(core := MarkDown(l.core), writer := Gone)
    case _ => l
  }

  function Next(l: Lease, a: Action): Lease {
    match a
    case Start =>
      var (core, spawned) := StartSection(l.core);
      if l.writer.Unborn? && spawned then l.(core := core, writer := Spawned, issued := l.issued + [HELLO]) else l
    case Enqueue(e) =>
      var (core, taken) := EnqueueSection(l.core, e);
      if !taken then l
      else
        l.(core := core, issued := l.issued + [e],
           dropped := if MustDrop(l.core, e) then l.dropped + [l.core.queue[0].seqNo] else l.dropped,
           others := if e.kind == Key then l.others else l.others + 1)
    case Close =>
      var (core, mine) := CloseSection(l.core);
      l.(core := core, closers := if mine then l.closers + 1 else l.closers)
    case FinishClose =>
      if l.closers > 0 then l.(core := MarkDown(l.core), closers := l.closers - 1) else l
    case Step(ok, bytes) => WriterNext(l, ok, bytes)
  }

  function Run(l: Lease, actions: seq<Action>): Lease
    decreases |actions|
  {
    if actions == [] then l else Run(Next(l, actions[0]), actions[1..])
  }

  // ----- the frames in the order they reach the encoder -------------------------------------

  function Numbers(q: seq<Framed>): seq<nat> {
    seq(|q|, i requires 0 <= i < |q| => q[i].seqNo)
  }

  /** The frame the writer is committed to next: HELLO until it is encoded, then the frame it took. */
  function InHand(l: Lease): seq<Framed> {
    match l.writer
    case Spawned => [HelloFrame(l)]
    case Encode(f, _) => [f]
    case Gone => if l.handed == [] then [HelloFrame(l)] else []
    case _ => []
  }

  /** Everything issued and not dropped. */
  function Line(l: Lease): seq<Framed> {
    l.handed + InHand(l) + l.core.queue
  }

  ghost predicate Increasing(xs: seq<nat>, bound: nat) {
    && (forall i, k :: 0 <= i < k < |xs| ==> xs[i] < xs[k])
    && (forall i :: 0 <= i < |xs| ==> xs[i] < bound)
  }

  function UpTo(n: nat): multiset<nat> {
    if n == 0 then multiset{} else UpTo(n - 1) + multiset{n - 1}
  }

  ghost predicate Started(l: Lease) {
    !l.writer.Unborn?
  }

  // ----- a step keeps the line, appends a frame, drops the oldest queued one first, or puts HELLO in front

  ghost predicate Kept(l: Lease, l': Lease) {
    && Line(l') == Line(l) && l'.core.nextSeq == l.core.nextSeq && l'.issued == l.issued
    && l'.dropped == l.dropped && l'.core.drops == l.core.drops
  }

  ghost predicate Issued(l: Lease, l': Lease, e: OutEvent) {
    l'.core.nextSeq == l.core.nextSeq + 1 && l'.issued == l.issued + [e]
  }

  ghost predicate Appended(l: Lease, l': Lease, e: OutEvent) {
    && Line(l') == Line(l) + [Framed(l.core.nextSeq, e)] && Issued(l, l', e)
    && l'.dropped == l.dropped && l'.core.drops == l.core.drops
  }

  ghost predicate Replaced(l: Lease, l': Lease, e: OutEvent) {
    && l.core.queue != [] && Issued(l, l', e)
    && Line(l) == l.handed + InHand(l) + [l.core.queue[0]] + l.core.queue[1..]
    && Line(l') == l.handed + InHand(l) + l.core.queue[1..] + [Framed(l.core.nextSeq, e)]
    && l'.dropped == l.dropped + [l.core.queue[0].seqNo] && l'.core.drops == l.core.drops + 1
  }

  ghost predicate Pinned(l: Lease, l': Lease) {
    && l.core.queue == Line(l) && Line(l') == [Framed(l.core.nextSeq, HELLO)] + Line(l) && Issued(l, l', HELLO)
    && l'.dropped == l.dropped && l'.core.drops == l.core.drops && l'.core.helloSeq == l.core.nextSeq
  }

  ghost predicate Shaped(l: Lease, l': Lease, e: OutEvent) {
    Kept(l, l') || Appended(l, l', e) || Replaced(l, l', e) || Pinned(l, l')
  }

  /** The event a step issues a number to, if it issues one. */
  function EventOf(a: Action): OutEvent { if a.Enqueue? then a.event else BEAT }

  /** HELLO is first in the line from start() on. */
  ghost predicate Front(l: Lease) {
    && (!Started(l) ==> l.handed == [])
    && (l.writer.Spawned? || (l.writer.Encode? && l.writer.first) ==> l.handed == [])
    && (Started(l) ==> if l.handed == [] then InHand(l) == [HelloFrame(l)] else l.handed[0] == HelloFrame(l))
  }

  lemma EnqueueShape(l: Lease, e: OutEvent)
    ensures Shaped(l, Next(l, Enqueue(e)), e)
  {
    var l' := Next(l, Enqueue(e));
    if l.core.closed {
      assert Kept(l, l');
    } else if MustDrop(l.core, e) {
      assert Replaced(l, l', e);
    } else {
      assert Appended(l, l', e);
    }
  }

  lemma TakeShape(l: Lease, ok: bool, bytes: bool)
    requires l.writer.Loop?
    ensures Kept(l, WriterNext(l, ok, bytes)) || Appended(l, WriterNext(l, ok, bytes), BEAT)
  {
    var l' := WriterNext(l, ok, bytes);
    if l.core.queue != [] {
      assert l.core.queue == [l.core.queue[0]] + l.core.queue[1..];
      assert Kept(l, l');
    } else if !l.core.closed && ok {
      assert Appended(l, l', BEAT);
    } else {
      assert Kept(l, l');
    }
  }

  lemma OtherWriterShape(l: Lease, ok: bool, bytes: bool)
    requires Front(l) && !l.writer.Loop?
    ensures Kept(l, WriterNext(l, ok, bytes))
  {
    var l' := WriterNext(l, ok, bytes);
    assert l'.handed + InHand(l') == l.handed + InHand(l);
  }

  lemma WriterShape(l: Lease, ok: bool, bytes: bool)
    requires Front(l)
    ensures Kept(l, WriterNext(l, ok, bytes)) || Appended(l, WriterNext(l, ok, bytes), BEAT)
  {
    hide Front, Kept, Appended, WriterNext;
    if l.writer.Loop? { TakeShape(l, ok, bytes); } else { OtherWriterShape(l, ok, bytes); }
  }

  lemma StepShape(l: Lease, a: Action)
    requires Front(l)
    ensures Shaped(l, Next(l, a), EventOf(a))
  {
    if a.Enqueue? {
      EnqueueShape(l, a.event);
    } else if a.Step? {
      WriterShape(l, a.ok, a.bytes);
    } else if a.Start? && l.writer.Unborn? && !l.core.closed {
      assert Pinned(l, Next(l, a));
    } else {
      assert Kept(l, Next(l, a));
    }
  }

  // ----- what every run keeps ---------------------------------------------------------------

  /** Every number issued is in exactly one place. */
  ghost predicate Accounted(l: Lease) {
    && multiset(Numbers(Line(l))) + multiset(l.dropped) == UpTo(l.core.nextSeq)
    && l.core.drops == |l.dropped|
  }

  /** Every frame carries the event its number was issued for. */
  ghost predicate Tagged(l: Lease) {
    && |l.issued| == l.core.nextSeq
    && (forall i :: 0 <= i < |Line(l)| ==>
                      Line(l)[i].seqNo < |l.issued| && l.issued[Line(l)[i].seqNo] == Line(l)[i].event)
  }

  ghost predicate Latches(l: Lease) {
    && (l.core.down ==> l.core.up && l.core.closed)
    && (l.writer.SelfDown? || l.closers > 0 ==> l.core.closed)
    && (l.core.closed && l.closers == 0 && !l.writer.SelfDown? ==> l.core.down == l.core.up)
  }

  lemma NumbersConcat(a: seq<Framed>, b: seq<Framed>)
    ensures Numbers(a + b) == Numbers(a) + Numbers(b)
  {
  }

  lemma NumbersOne(f: Framed)
    ensures Numbers([f]) == [f.seqNo]
  {
  }

  lemma CountConcat(a: seq<Framed>, b: seq<Framed>)
    ensures multiset(Numbers(a + b)) == multiset(Numbers(a)) + multiset(Numbers(b))
  {
    NumbersConcat(a, b);
  }

  lemma ReplaceKeepsAccount(l: Lease, l': Lease, e: OutEvent)
    requires Accounted(l) && Replaced(l, l', e)
    ensures Accounted(l')
  {
    hide Line, Numbers, InHand;
    var a, x, b, f := l.handed + InHand(l), l.core.queue[0], l.core.queue[1..], Framed(l.core.nextSeq, e);
    CountConcat(a + [x], b);
    CountConcat(a, [x]);
    CountConcat(a + b, [f]);
    CountConcat(a, b);
    NumbersOne(x);
    NumbersOne(f);
    assert multiset(l.dropped + [x.seqNo]) == multiset(l.dropped) + multiset{x.seqNo};
  }

  lemma ShapeKeepsAccount(l: Lease, l': Lease, e: OutEvent)
    requires Accounted(l) && Shaped(l, l', e)
    ensures Accounted(l')
  {
    hide Line, Numbers, InHand;
    if Replaced(l, l', e) {
      ReplaceKeepsAccount(l, l', e);
    } else if Appended(l, l', e) {
      CountConcat(Line(l), [Framed(l.core.nextSeq, e)]);
      NumbersOne(Framed(l.core.nextSeq, e));
    } else if Pinned(l, l') {
      CountConcat([Framed(l.core.nextSeq, HELLO)], Line(l));
      NumbersOne(Framed(l.core.nextSeq, HELLO));
    }
  }

  lemma ShapeKeepsTags(l: Lease, l': Lease, e: OutEvent)
    requires Tagged(l) && Shaped(l, l', e)
    ensures Tagged(l')
  {
    hide Line, InHand;
    if Replaced(l, l', e) {
      var xs, ys, n := Line(l), Line(l'), |l.handed + InHand(l)|;
      assert forall i :: 0 <= i < |ys| - 1 ==> ys[i] == xs[if i < n then i else i + 1];
    } else if Pinned(l, l') {
      assert forall i :: 0 < i < |Line(l')| ==> Line(l')[i] == Line(l)[i - 1];
    }
  }

  lemma StepKeepsFront(l: Lease, a: Action)
    requires Front(l)
    ensures Front(Next(l, a))
  {
  }

  lemma StepKeepsLatches(l: Lease, a: Action)
    requires Latches(l)
    ensures Latches(Next(l, a))
  {
  }

  lemma StepKeepsBound(l: Lease, a: Action)
    requires |l.core.queue| <= QUEUE_CAP + l.others
    ensures |Next(l, a).core.queue| <= QUEUE_CAP + Next(l, a).others
  {
  }

  ghost predicate Inv(l: Lease) {
    && Front(l) && Accounted(l) && Tagged(l) && Latches(l)
    && |l.core.queue| <= QUEUE_CAP + l.others
  }

  lemma StepKeepsInv(l: Lease, a: Action)
    requires Inv(l)
    ensures Inv(Next(l, a))
  {
    hide Front, Accounted, Tagged, Latches, Shaped, Next;
    StepKeepsFront(l, a);
    StepShape(l, a);
    ShapeKeepsAccount(l, Next(l, a), EventOf(a));
    ShapeKeepsTags(l, Next(l, a), EventOf(a));
    StepKeepsLatches(l, a);
    StepKeepsBound(l, a);
  }

  lemma {:induction false} RunKeepsInv(l: Lease, actions: seq<Action>)
    requires Inv(l)
    ensures Inv(Run(l, actions))
    decreases |actions|
  {
    if actions != [] {
      hide Inv, Next;
      StepKeepsInv(l, actions[0]);
      RunKeepsInv(Next(l, actions[0]), actions[1..]);
    }
  }

  lemma FreshInv()
    ensures Inv(BOOT)
  {
    assert Line(BOOT) == [];
  }

  lemma {:induction false} OneOfEach(n: nat, x: nat)
    ensures UpTo(n)[x] == if x < n then 1 else 0
  {
    if n > 0 { OneOfEach(n - 1, x); }
  }

  /** Every number issued is handed over, in the writer's hand, queued or dropped, and only one of these. */
  lemma EveryNumberOnce(actions: seq<Action>, x: nat)
    ensures var l := Run(BOOT, actions);
            && multiset(Numbers(l.handed))[x] + multiset(Numbers(InHand(l)))[x] + multiset(Numbers(l.core.queue))[x]
               + multiset(l.dropped)[x] == (if x < l.core.nextSeq then 1 else 0)
            && l.core.drops == |l.dropped|
  {
    hide Run, Numbers, InHand;
    FreshInv();
    RunKeepsInv(BOOT, actions);
    var l := Run(BOOT, actions);
    OneOfEach(l.core.nextSeq, x);
    CountConcat(l.handed + InHand(l), l.core.queue);
    CountConcat(l.handed, InHand(l));
  }

  /** The queue never holds more than 256 frames beyond the events that are not keys. */
  lemma QueueBounded(actions: seq<Action>)
    ensures |Run(BOOT, actions).core.queue| <= QUEUE_CAP + Run(BOOT, actions).others
    ensures (forall i :: 0 <= i < |actions| && actions[i].Enqueue? ==> actions[i].event.kind == Key) ==>
              |Run(BOOT, actions).core.queue| <= QUEUE_CAP
  {
    FreshInv();
    RunKeepsInv(BOOT, actions);
    if forall i :: 0 <= i < |actions| && actions[i].Enqueue? ==> actions[i].event.kind == Key {
      OnlyKeys(BOOT, actions);
    }
  }

  lemma {:induction false} OnlyKeys(l: Lease, actions: seq<Action>)
    requires forall i :: 0 <= i < |actions| && actions[i].Enqueue? ==> actions[i].event.kind == Key
    ensures Run(l, actions).others == l.others
    decreases |actions|
  {
    if actions != [] { OnlyKeys(Next(l, actions[0]), actions[1..]); }
  }

  /** Down only after up; and once a close has run to its end the two latches agree. */
  lemma DownOnlyAfterUp(actions: seq<Action>)
    ensures var l := Run(BOOT, actions);
            && (l.core.down ==> l.core.up && l.core.closed)
            && (l.core.closed && l.closers == 0 && !l.writer.SelfDown? ==> l.core.down == l.core.up)
  {
    FreshInv();
    RunKeepsInv(BOOT, actions);
  }

  // ----- the order of the numbers, exactly when start() comes first --------------------------

  /** The contract of the class: no enqueue() is accepted before start(). */
  ghost predicate StartsFirst(l: Lease, actions: seq<Action>)
    decreases |actions|
  {
    actions == [] || Started(l) ||
    ((actions[0].Enqueue? ==> l.core.closed) && StartsFirst(Next(l, actions[0]), actions[1..]))
  }

  ghost predicate Ordered(l: Lease) {
    && Increasing(Numbers(Line(l)), l.core.nextSeq)
    && (if Started(l) then l.core.helloSeq == 0 else l.core.nextSeq == 0 && Line(l) == [])
  }

  lemma ShapeKeepsOrder(l: Lease, l': Lease, e: OutEvent)
    requires Increasing(Numbers(Line(l)), l.core.nextSeq) && Shaped(l, l', e) && (Pinned(l, l') ==> Line(l) == [])
    ensures Increasing(Numbers(Line(l')), l'.core.nextSeq)
  {
    hide Line, InHand;
    var xs, ys := Line(l), Line(l');
    assert forall i :: 0 <= i < |xs| ==> Numbers(xs)[i] == xs[i].seqNo;
    if Replaced(l, l', e) {
      var n := |l.handed + InHand(l)|;
      assert forall i :: 0 <= i < |ys| - 1 ==> ys[i] == xs[if i < n then i else i + 1];
    }
  }

  lemma StepKeepsOrder(l: Lease, a: Action)
    requires Front(l) && Ordered(l) && (a.Enqueue? ==> Started(l) || l.core.closed)
    ensures Ordered(Next(l, a))
  {
    StepShape(l, a);
    ShapeKeepsOrder(l, Next(l, a), EventOf(a));
  }

  lemma {:induction false} RunKeepsOrder(l: Lease, actions: seq<Action>)
    requires Front(l) && Ordered(l) && StartsFirst(l, actions)
    ensures Ordered(Run(l, actions))
    decreases |actions|
  {
    if actions != [] {
      hide Front, Ordered, Next;
      StepKeepsOrder(l, actions[0]);
      StepKeepsFront(l, actions[0]);
      StaysStarted(l, actions[0]);
      RunKeepsOrder(Next(l, actions[0]), actions[1..]);
    }
  }

  /** Once started, a lease stays started and HELLO keeps its number. */
  lemma StaysStarted(l: Lease, a: Action)
    ensures Started(l) ==> Started(Next(l, a)) && Next(l, a).core.helloSeq == l.core.helloSeq
    ensures Next(l, a).core.nextSeq >= l.core.nextSeq
  {
  }

  /** HELLO keeps its number; and if numbers had been issued before start(), it is not the first. */
  lemma {:induction false} HelloStays(l: Lease, actions: seq<Action>)
    ensures Started(l) ==> Started(Run(l, actions)) && Run(l, actions).core.helloSeq == l.core.helloSeq
    ensures !Started(l) && l.core.nextSeq > 0 && Started(Run(l, actions)) ==> Run(l, actions).core.helloSeq > 0
    decreases |actions|
  {
    if actions != [] {
      StaysStarted(l, actions[0]);
      HelloStays(Next(l, actions[0]), actions[1..]);
    }
  }

  /** HELLO is number 0 exactly when nothing was enqueued before start(). */
  lemma {:induction false} HelloIsZeroIff(l: Lease, actions: seq<Action>)
    requires !Started(l) && l.core.nextSeq == 0 && Started(Run(l, actions))
    ensures Run(l, actions).core.helloSeq == 0 <==> StartsFirst(l, actions)
    decreases |actions|
  {
    if actions != [] {
      var l' := Next(l, actions[0]);
      HelloStays(l', actions[1..]);
      if !Started(l') && l'.core.nextSeq == 0 { HelloIsZeroIff(l', actions[1..]); }
    }
  }

  ghost predicate InOrder(handed: seq<Framed>) {
    && (forall i, k :: 0 <= i < k < |handed| ==> handed[i].seqNo < handed[k].seqNo)
    && handed != [] && handed[0] == Framed(0, HELLO)
  }

  /**
   Over every run that hands anything to the encoder: HELLO comes first as number 0 and the numbers
   then only grow, if and only if no enqueue() was accepted before start().
   */
  lemma HandedInOrderIff(actions: seq<Action>)
    requires Run(BOOT, actions).handed != []
    ensures InOrder(Run(BOOT, actions).handed) <==> StartsFirst(BOOT, actions)
  {
    var l := Run(BOOT, actions);
    FreshInv();
    RunKeepsInv(BOOT, actions);
    HelloIsZeroIff(BOOT, actions);
    if StartsFirst(BOOT, actions) {
      RunKeepsOrder(BOOT, actions);
      assert forall i :: 0 <= i < |l.handed| ==> l.handed[i].seqNo == Numbers(Line(l))[i];
    }
  }

  lemma {:induction false} RunConcat(l: Lease, a: seq<Action>, b: seq<Action>)
    ensures Run(l, a + b) == Run(Run(l, a), b)
    decreases |a|
  {
    if a == [] {
      assert a + b == b;
    } else {
      assert (a + b)[1..] == a[1..] + b;
      RunConcat(Next(l, a[0]), a[1..], b);
    }
  }

  lemma Then(actions: seq<Action>, a: Action) returns (longer: seq<Action>)
    ensures Run(BOOT, longer) == Next(Run(BOOT, actions), a)
  {
    longer := actions + [a];
    RunConcat(BOOT, actions, [a]);
  }

  lemma AtBoot()
    ensures Run(BOOT, []) == BOOT
  {
  }

  /** A run without it: a key enqueued before start() is handed over after HELLO with a smaller number. */
  lemma EnqueueBeforeStart(key: OutEvent)
    ensures exists actions :: Run(BOOT, actions).handed == [Framed(1, HELLO), Framed(0, key)]
  {
    hide Run;
    AtBoot();
    var go := Step(true, false);
    var actions := Then([], Enqueue(key));
    actions := Then(actions, Start);
    assert Run(BOOT, actions).core == Core([Framed(0, key)], 2, 0, false, false, false, 1);
    actions := Then(actions, go);
    actions := Then(actions, go);
    actions := Then(actions, go);
    assert Run(BOOT, actions).handed == [Framed(1, HELLO)] && Run(BOOT, actions).core.queue == [Framed(0, key)];
    actions := Then(actions, go);
    actions := Then(actions, go);
  }
}
