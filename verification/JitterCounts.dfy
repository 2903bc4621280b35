/** What the counters of src/jitter.c count, over every run of its operations. */
module JitterCounts {
  import opened Words
  import opened SequenceExtension
  import opened JitterModel
  import opened JitterRuns
  import opened Playback

  datatype Mishap = IsLate | IsDuplicate | IsOverwrite | IsLost | IsResync

  /** The number an insert is about, unless it is refused for its length or as ambiguous. */
  function NumberOf(j: Jitter, op: Op): Option<nat> {
    if op.Insert? && |op.payload| <= MAX_PAYLOAD then ExtendSeq(j.seqRef, op.wireSeq) else None
  }

  /** What a call meets: a number already played or cut off, one already held, a taken slot, a gap, or a lap. */
  ghost predicate Meets(j: Jitter, op: Op, what: Mishap) {
    var n := NumberOf(j, op);
    match what
    case IsLate => n.Some? && n.value < Max(j.boundary, j.cursor)
    case IsDuplicate => n.Some? && n.value >= Max(j.boundary, j.cursor) && n.value in j.held
    case IsOverwrite => op.Insert? && Claims(j, op).Some? && Rivals(j.held, Claims(j, op).value) != {}
    case IsLost => op.Pop? && op.pastDeadline && j.cursor !in j.held
    case IsResync => op.Resync? && exists hi :: FreshRun(j, hi)
  }

  ghost function Tally(j: Jitter, ops: seq<Op>, what: Mishap): nat
    decreases |ops|
  {
    if ops == [] then 0
    else (if Meets(j, ops[0], what) then 1 else 0) + Tally(Step(j, ops[0]).0, ops[1..], what)
  }

  /** How far resyncs have moved the cursor. */
  ghost function Skips(j: Jitter, ops: seq<Op>): int
    decreases |ops|
  {
    if ops == [] then 0
    else
      var j' := Step(j, ops[0]).0;
      (if ops[0].Resync? then j'.cursor - j.cursor else 0) + Skips(j', ops[1..])
  }

  lemma StepCounts(j: Jitter, op: Op)
    ensures var c, c' := j.counters, Step(j, op).0.counters;
            && c'.late == c.late + (if Meets(j, op, IsLate) then 1 else 0)
            && c'.dupes == c.dupes + (if Meets(j, op, IsDuplicate) then 1 else 0)
            && c'.overwritten == c.overwritten + (if Meets(j, op, IsOverwrite) then 1 else 0)
            && c'.lost == c.lost + (if Meets(j, op, IsLost) then 1 else 0)
            && c'.concealed == c.concealed + (if Meets(j, op, IsLost) then 1 else 0)
            && c'.resyncs == c.resyncs + (if Meets(j, op, IsResync) then 1 else 0)
            && c'.skipped == c.skipped + (if op.Resync? then Step(j, op).0.cursor - j.cursor else 0)
  {
    hide ExtendSeq, ExtendTs, ResyncTarget;
    if op.Resync? { ResyncFiresIff(j); }
  }

  /** Over every run each counter has grown by exactly the number of calls that met its mishap, or by the skips. */
  lemma {:induction false} CountersTally(j: Jitter, ops: seq<Op>)
    ensures var c, c' := j.counters, Run(j, ops).counters;
            && c'.late == c.late + Tally(j, ops, IsLate)
            && c'.dupes == c.dupes + Tally(j, ops, IsDuplicate)
            && c'.overwritten == c.overwritten + Tally(j, ops, IsOverwrite)
            && c'.lost == c.lost + Tally(j, ops, IsLost) && c'.concealed == c.concealed + Tally(j, ops, IsLost)
            && c'.resyncs == c.resyncs + Tally(j, ops, IsResync) && c'.skipped == c.skipped + Skips(j, ops)
    decreases |ops|
  {
    if ops != [] {
      hide Meets, Step;
      StepCounts(j, ops[0]);
      CountersTally(Step(j, ops[0]).0, ops[1..]);
    }
  }
}
