/** The background thread that reads input and writes output around the compressing thread,
    over two buffers and auto-reset events: a state machine whose steps interleave freely. */
module DoubleBuffer {
  import opened Bytes

  const BUFFERS := 2

  /** What the client hands over with a compressed block. */
  datatype Output = Output(statSize: u32, stats: seq<u32>, outSize: u32)

  datatype BgPc = Fill | WaitWrite | SignalRead | Save | Next | SignalFinished | BgEnd

  datatype ClientPc = WaitRead | Advance | Hold | SignalWrite | WaitFinished | ClientEnd

  datatype State = State(
    // the slots
    buf: seq<seq<byte>>, outs: seq<Output>,
    // the events
    readDone: bool, writeReady: bool, finished: bool,
    // the background thread: its slot, its block number
    bg: BgPc, i: nat, n: nat,
    // the client: its slot
    client: ClientPc, k: nat,
    // history: what the client read and handed over, what was written to the output
    seen: seq<seq<byte>>, written: seq<Output>, saved: seq<(seq<byte>, Output)>)

  /** The blocks of the input, all non-empty, and whether output is written at all. */
  datatype Job = Job(blocks: seq<seq<byte>>, noWrites: bool) {
    ghost predicate Ok() {
      forall b :: 0 <= b < |blocks| ==> blocks[b] != []
    }

    /** What reading block `b` delivers; nothing at the end of the file. */
    function Input(b: nat): seq<byte> {
      if b < |blocks| then blocks[b] else []
    }
  }

  function Initial(none: Output): (s: State)
    ensures Shape(s)
  {
    State([[], []], [none, none], false, false, false, Fill, 1, 0, WaitRead, 0, [], [], [])
  }

  /** Steps of the two threads. The two that scribble stand for any partial work on a slot. */
  datatype Step =
    | BgScribble(data: seq<byte>) | BgFill | BgWaitWrite | BgSignalRead | BgSave | BgNext | BgSignalFinished
    | ClWaitRead | ClAdvance | ClScribble(out: Output) | ClFinish(result: Output) | ClSignalWrite | ClWaitFinished

  ghost predicate Shape(s: State) {
    |s.buf| == BUFFERS && |s.outs| == BUFFERS && s.i < BUFFERS && s.k < BUFFERS
  }

  /** A thread waiting for an event can go on only when it is set. */
  predicate Enabled(job: Job, s: State, step: Step) {
    match step
    case BgScribble(_) => s.bg == Fill
    case BgFill => s.bg == Fill
    case BgWaitWrite => s.bg == WaitWrite && s.writeReady
    case BgSignalRead => s.bg == SignalRead
    case BgSave => s.bg == Save
    case BgNext => s.bg == Next
    case BgSignalFinished => s.bg == SignalFinished
    case ClWaitRead => s.client == WaitRead && s.readDone
    case ClAdvance => s.client == Advance
    case ClScribble(_) => s.client == Hold
    case ClFinish(_) => s.client == Hold
    case ClSignalWrite => s.client == SignalWrite
    case ClWaitFinished => s.client == WaitFinished && s.finished
  }

  function Following(i: nat): (j: nat)
    ensures j < BUFFERS
  {
    (i + 1) % BUFFERS
  }

  function Previous(i: nat): (j: nat)
    ensures j < BUFFERS
  {
    (i + BUFFERS - 1) % BUFFERS
  }

  /** The effect of a step; waiting resets the event. */
  function Do(job: Job, s: State, step: Step): (t: State)
    requires Shape(s)
    ensures Shape(t)
  {
    match step
    case BgScribble(data) => s.(buf := s.buf[s.i := data])
    case BgFill => s.(buf := s.buf[s.i := job.Input(s.n)], bg := if s.n == 0 then SignalRead else WaitWrite)
    case BgWaitWrite => s.(writeReady := false, bg := SignalRead)
    case BgSignalRead => s.(readDone := true, bg := if s.n == 0 || job.noWrites then Next else Save)
    case BgSave => s.(saved := s.saved + [(s.buf[Previous(s.i)], s.outs[Previous(s.i)])], bg := Next)
    case BgNext =>
      if s.buf[s.i] == [] then s.(bg := SignalFinished)
      else s.(i := Following(s.i), n := s.n + 1, bg := Fill)
    case BgSignalFinished => s.(finished := true, bg := BgEnd)
    case ClWaitRead => s.(readDone := false, client := Advance)
    case ClAdvance =>
      var k := Following(s.k);
      s.(k := k, seen := s.seen + [s.buf[k]], client := if s.buf[k] == [] then WaitFinished else Hold)
    case ClScribble(out) => s.(outs := s.outs[s.k := out])
    case ClFinish(result) => s.(outs := s.outs[s.k := result], client := SignalWrite)
    case ClSignalWrite => s.(written := s.written + [s.outs[s.k]], writeReady := true, client := WaitRead)
    case ClWaitFinished => s.(finished := false, client := ClientEnd)
  }

  // ---- counting signals and waits ----

  /** Blocks the background thread has announced. */
  function Announced(s: State): nat {
    if s.bg in {Fill, WaitWrite, SignalRead} then s.n else s.n + 1
  }

  /** Blocks whose announcement the client has taken. */
  function Taken(s: State): nat {
    |s.seen| + if s.client == Advance then 1 else 0
  }

  /** Blocks whose results the background thread has waited for. */
  function Collected(s: State): nat {
    if s.bg in {Fill, WaitWrite} then if s.n == 0 then 0 else s.n - 1 else s.n
  }

  /** Blocks whose results have been handed over and written out. */
  function SavedCount(s: State): nat {
    if s.bg in {Next, SignalFinished, BgEnd} || s.n == 0 then s.n else s.n - 1
  }

  /** Events agree with the counts of signals and waits, so none is ever set twice. */
  ghost predicate Counts(job: Job, s: State) {
    && Taken(s) <= Announced(s) <= Taken(s) + 1
    && (s.readDone <==> Announced(s) == Taken(s) + 1)
    && Collected(s) <= |s.written| <= Collected(s) + 1
    && (s.writeReady <==> |s.written| == Collected(s) + 1)
    && (if s.client == WaitRead then |s.written| == Taken(s) else |s.written| + 1 == Taken(s))
    && (s.finished <==> s.bg == BgEnd && s.client != ClientEnd)
    && (s.client == ClientEnd ==> s.bg == BgEnd)
    && (s.bg == WaitWrite ==> s.n > 0)
    && (s.bg == Save ==> s.n > 0 && !job.noWrites)
  }

  /** The slot of the block before block `b`. */
  function Slot(b: nat): (j: nat)
    ensures j < BUFFERS
  {
    b % BUFFERS
  }

  lemma SlotFacts(b: nat)
    ensures Following(Slot(b)) == Slot(b + 1) != Slot(b) && Slot(b + 2) == Slot(b) && Previous(Slot(b + 1)) == Slot(b)
  {
  }

  /** Both threads take the slots in the same order and see the blocks in order. */
  ghost predicate Slots(job: Job, s: State) {
    && Shape(s)
    && s.i == Slot(s.n + 1) && s.k == Slot(|s.seen|)
    && s.n <= |job.blocks| && (s.bg in {SignalFinished, BgEnd} ==> s.n == |job.blocks|)
    && (s.n > 0 ==> s.buf[Slot(s.n)] == job.Input(s.n - 1))
    && (s.bg != Fill ==> s.buf[s.i] == job.Input(s.n))
    && |s.seen| <= |job.blocks| + 1 && (forall b :: 0 <= b < |s.seen| ==> s.seen[b] == job.Input(b))
    && (s.client in {WaitFinished, ClientEnd} <==> |s.seen| == |job.blocks| + 1)
  }

  /** Results stay in their slot until they are saved, and are saved in order. */
  ghost predicate Results(job: Job, s: State)
    requires Shape(s)
  {
    && (0 < s.n <= |s.written| ==> s.outs[Slot(s.n)] == s.written[s.n - 1])
    && (s.n < |s.written| ==> s.outs[Slot(s.n + 1)] == s.written[s.n])
    && SavedCount(s) <= |s.written|
    && s.saved == if job.noWrites then [] else Paired(job, s.written, SavedCount(s))
  }

  /** The first `m` blocks with their results. */
  ghost function Paired(job: Job, written: seq<Output>, m: nat): seq<(seq<byte>, Output)>
    requires m <= |written|
  {
    seq(m, b requires 0 <= b < m => (job.Input(b), written[b]))
  }

  ghost predicate Inv(job: Job, s: State) {
    job.Ok() && Counts(job, s) && Slots(job, s) && Results(job, s)
  }

  lemma InitialInv(job: Job, none: Output)
    requires job.Ok()
    ensures Inv(job, Initial(none))
  {
    var s := Initial(none);
    assert Paired(job, s.written, 0) == [];
  }

  predicate OfBackground(step: Step) {
    step.BgScribble? || step.BgFill? || step.BgWaitWrite? || step.BgSignalRead? || step.BgSave? || step.BgNext? || step.BgSignalFinished?
  }

  lemma EndOfInput(job: Job, s: State)
    requires Inv(job, s) && s.bg != Fill
    ensures s.buf[s.i] == [] <==> s.n == |job.blocks|
  {
  }

  /** What the client finds in its next slot. */
  lemma NextRead(job: Job, s: State)
    requires Inv(job, s) && s.client == Advance
    ensures s.buf[Following(s.k)] == job.Input(|s.seen|) && |s.seen| <= |job.blocks|
  {
    hide Slot, Following, Previous;
    SlotFacts(|s.seen|);
    SlotFacts(s.n);
  }

  lemma BgCounts(job: Job, s: State, step: Step)
    requires Inv(job, s) && Enabled(job, s, step) && OfBackground(step)
    ensures Counts(job, Do(job, s, step))
  {
    hide Slot, Following, Previous, Results;
    if step.BgNext? {
      EndOfInput(job, s);
      hide Slots;
    } else {
      hide Slots;
    }
  }

  lemma ClientCounts(job: Job, s: State, step: Step)
    requires Inv(job, s) && Enabled(job, s, step) && !OfBackground(step)
    ensures Counts(job, Do(job, s, step))
  {
    hide Slot, Following, Previous, Results;
  }

  lemma FillSlots(job: Job, s: State, step: Step)
    requires Inv(job, s) && Enabled(job, s, step) && (step.BgScribble? || step.BgFill?)
    ensures Slots(job, Do(job, s, step))
  {
    SlotFacts(s.n);
    hide Slot, Following, Previous, Results;
  }

  lemma NextSlots(job: Job, s: State, step: Step)
    requires Inv(job, s) && Enabled(job, s, step) && step.BgNext?
    ensures Slots(job, Do(job, s, step))
  {
    hide Slot, Following, Previous, Results, Counts;
    SlotFacts(s.n);
    SlotFacts(s.n + 1);
    EndOfInput(job, s);
    assert Do(job, s, step) == if s.buf[s.i] == [] then s.(bg := SignalFinished) else s.(i := Following(s.i), n := s.n + 1, bg := Fill);
    hide Do, Enabled;
  }

  lemma AdvanceSlots(job: Job, s: State, step: Step)
    requires Inv(job, s) && Enabled(job, s, step) && step.ClAdvance?
    ensures Slots(job, Do(job, s, step))
  {
    SlotFacts(|s.seen|);
    NextRead(job, s);
    hide Slot, Following, Previous, Results;
  }

  lemma OtherSlots(job: Job, s: State, step: Step)
    requires Inv(job, s) && Enabled(job, s, step) && !(step.BgScribble? || step.BgFill? || step.BgNext? || step.ClAdvance?)
    ensures Slots(job, Do(job, s, step))
  {
    hide Slot, Following, Previous, Results;
  }

  lemma BgResults(job: Job, s: State, step: Step)
    requires Inv(job, s) && Enabled(job, s, step) && OfBackground(step) && !step.BgSave? && !step.BgNext?
    ensures Results(job, Do(job, s, step))
  {
    hide Slot, Following, Previous;
  }

  lemma PairedNext(job: Job, written: seq<Output>, m: nat)
    requires m < |written|
    ensures Paired(job, written, m + 1) == Paired(job, written, m) + [(job.Input(m), written[m])]
  {
  }

  lemma PairedPrefix(job: Job, written: seq<Output>, out: Output, m: nat)
    requires m <= |written|
    ensures Paired(job, written + [out], m) == Paired(job, written, m)
  {
  }

  lemma SaveResults(job: Job, s: State)
    requires Inv(job, s) && Enabled(job, s, BgSave)
    ensures Results(job, Do(job, s, BgSave))
  {
    SlotFacts(s.n);
    PairedNext(job, s.written, s.n - 1);
    hide Slot, Following, Previous, Paired;
    assert Previous(s.i) == Slot(s.n);
  }

  lemma NextResults(job: Job, s: State)
    requires Inv(job, s) && Enabled(job, s, BgNext)
    ensures Results(job, Do(job, s, BgNext))
  {
    SlotFacts(s.n);
    hide Slot, Following, Previous, Paired;
  }

  lemma HandOverResults(job: Job, s: State)
    requires Inv(job, s) && Enabled(job, s, ClSignalWrite)
    ensures Results(job, Do(job, s, ClSignalWrite))
  {
    SlotFacts(s.n);
    PairedPrefix(job, s.written, s.outs[s.k], SavedCount(s));
    hide Slot, Following, Previous, Paired;
    assert |s.seen| == |s.written| + 1 && (s.n == |s.written| || s.n == |s.seen|);
  }

  lemma HoldResults(job: Job, s: State, out: Output)
    requires Inv(job, s) && s.client == Hold
    ensures Results(job, s.(outs := s.outs[s.k := out]))
  {
    SlotFacts(s.n);
    hide Slot, Following, Previous, Paired;
    assert |s.seen| == |s.written| + 1 && (s.n == |s.written| || s.n == |s.seen|);
  }

  lemma ClientResults(job: Job, s: State, step: Step)
    requires Inv(job, s) && Enabled(job, s, step) && !OfBackground(step)
    ensures Results(job, Do(job, s, step))
  {
    match step
    case ClScribble(out) => HoldResults(job, s, out);
    case ClFinish(out) => HoldResults(job, s, out);
    case ClSignalWrite => HandOverResults(job, s);
    case _ =>
      hide Slot, Paired, Counts;
  }

  /** Every step keeps the invariant. */
  lemma StepKeeps(job: Job, s: State, step: Step)
    requires Inv(job, s) && Enabled(job, s, step)
    ensures Inv(job, Do(job, s, step))
  {
    if OfBackground(step) { BgCounts(job, s, step); } else { ClientCounts(job, s, step); }
    if step.BgScribble? || step.BgFill? {
      FillSlots(job, s, step);
    } else if step.BgNext? {
      NextSlots(job, s, step);
    } else if step.ClAdvance? {
      AdvanceSlots(job, s, step);
    } else {
      OtherSlots(job, s, step);
    }
    if !OfBackground(step) {
      ClientResults(job, s, step);
    } else if step.BgSave? {
      SaveResults(job, s);
    } else if step.BgNext? {
      NextResults(job, s);
    } else {
      BgResults(job, s, step);
    }
    hide Counts, Slots, Results, Do, Enabled;
  }

  // ---- all runs ----

  ghost predicate IsRun(job: Job, s: State, steps: seq<Step>)
    requires Shape(s)
    decreases |steps|
  {
    steps == [] || (Enabled(job, s, steps[0]) && IsRun(job, Do(job, s, steps[0]), steps[1..]))
  }

  ghost function After(job: Job, s: State, steps: seq<Step>): (t: State)
    requires Shape(s)
    ensures Shape(t)
    decreases |steps|
  {
    if steps == [] then s else After(job, Do(job, s, steps[0]), steps[1..])
  }

  lemma {:induction false} RunKeeps(job: Job, s: State, steps: seq<Step>)
    requires Inv(job, s) && IsRun(job, s, steps)
    ensures Inv(job, After(job, s, steps))
    decreases |steps|
  {
    hide Do, Enabled, Counts, Results;
    if steps != [] {
      StepKeeps(job, s, steps[0]);
      RunKeeps(job, Do(job, s, steps[0]), steps[1..]);
    }
  }

  ghost predicate Reachable(job: Job, s: State) {
    exists none, steps :: IsRun(job, Initial(none), steps) && s == After(job, Initial(none), steps)
  }

  lemma ReachableInv(job: Job, s: State)
    requires job.Ok() && Reachable(job, s)
    ensures Inv(job, s)
  {
    hide Inv, IsRun, After, Job.Ok, Initial;
    var none, steps :| IsRun(job, Initial(none), steps) && s == After(job, Initial(none), steps);
    InitialInv(job, none);
    RunKeeps(job, Initial(none), steps);
  }

  /** Between read and write the slot is the client's alone: it is neither being filled nor being saved. */
  lemma HeldSlotIsExclusive(job: Job, s: State)
    requires job.Ok() && Reachable(job, s) && s.client in {Hold, SignalWrite}
    ensures s.bg == Fill ==> s.i != s.k
    ensures s.bg == Save ==> Previous(s.i) != s.k
  {
    ReachableInv(job, s);
    SlotFacts(s.n);
    SlotFacts(s.n + 1);
    hide Slot, Previous, Following, Reachable, Results;
  }

  /** Outside that window it is not: exactly when the client has returned its slot and the next
      one is already announced, the background thread may be filling the slot last returned. */
  lemma ReturnedSlotIsRefilled(job: Job, s: State)
    requires job.Ok() && Reachable(job, s) && s.bg == Fill
    ensures s.i == s.k <==> s.client == Advance || (s.client == WaitRead && s.readDone)
  {
    ReachableInv(job, s);
    SlotFacts(s.n);
    if s.n > 0 { SlotFacts(s.n - 1); }
    hide Slot, Previous, Following, Reachable, Results;
  }

  /** With fewer than two blocks that never happens to a slot that was handed over. */
  lemma RefillNeedsTwo(job: Job, s: State)
    requires job.Ok() && Reachable(job, s) && s.bg == Fill && s.i == s.k && s.written != []
    ensures |job.blocks| >= 2
  {
    ReachableInv(job, s);
    ReturnedSlotIsRefilled(job, s);
    hide Slot, Previous, Following, Reachable;
  }

  /** And it happens for every input of two blocks or more. */
  lemma RefillHappens(job: Job, none: Output, result: Output) returns (s: State)
    requires job.Ok() && |job.blocks| >= 2
    ensures Reachable(job, s) && s.bg == Fill && s.client == WaitRead && s.i == s.k && s.written == [result]
  {
    hide Reachable;
    s := FirstBlockReturned(job, none, result);
    s := Onward(job, s, BgWaitWrite);
    s := Onward(job, s, BgSignalRead);
    if !job.noWrites { s := Onward(job, s, BgSave); }
    s := Onward(job, s, BgNext);
  }

  lemma FirstBlockReturned(job: Job, none: Output, result: Output) returns (s: State)
    requires job.Ok() && |job.blocks| >= 2
    ensures Reachable(job, s) && Shape(s) && s.bg == WaitWrite && s.writeReady && s.n == 1 && s.i == 0 && s.buf[0] != []
    ensures s.client == WaitRead && s.k == 1 && s.written == [result]
  {
    hide Reachable;
    s := FirstBlockAnnounced(job, none);
    s := Onward(job, s, ClWaitRead);
    s := Onward(job, s, ClAdvance);
    s := Onward(job, s, ClFinish(result));
    s := Onward(job, s, ClSignalWrite);
  }

  lemma FirstBlockAnnounced(job: Job, none: Output) returns (s: State)
    requires job.Ok() && |job.blocks| >= 2
    ensures Reachable(job, s) && Shape(s) && s.bg == WaitWrite && s.n == 1 && s.i == 0 && s.buf[0] != [] && s.buf[1] != []
    ensures s.client == WaitRead && s.readDone && s.k == 0 && s.written == []
  {
    s := Initial(none);
    assert IsRun(job, s, []) && After(job, s, []) == s;
    assert Reachable(job, s);
    hide Reachable;
    s := Onward(job, s, BgFill);
    s := Onward(job, s, BgSignalRead);
    s := Onward(job, s, BgNext);
    s := Onward(job, s, BgFill);
  }

  lemma Onward(job: Job, s: State, step: Step) returns (t: State)
    requires Reachable(job, s) && Enabled(job, s, step)
    ensures Shape(s) && t == Do(job, s, step) && Reachable(job, t)
  {
    var none, steps :| IsRun(job, Initial(none), steps) && s == After(job, Initial(none), steps);
    t := Do(job, s, step);
    OneMore(job, Initial(none), steps, step);
  }

  lemma {:induction false} OneMore(job: Job, s: State, steps: seq<Step>, step: Step)
    requires Shape(s) && IsRun(job, s, steps) && Enabled(job, After(job, s, steps), step)
    ensures IsRun(job, s, steps + [step]) && After(job, s, steps + [step]) == Do(job, After(job, s, steps), step)
    decreases |steps|
  {
    hide Do, Enabled;
    var more := steps + [step];
    if steps == [] {
      assert more[1..] == [];
    } else {
      OneMore(job, Do(job, s, steps[0]), steps[1..], step);
      assert more[1..] == steps[1..] + [step];
    }
  }

  /** The client's slot stays as it is while the client holds it, whatever the background thread does. */
  lemma HeldUndisturbed(job: Job, s: State, step: Step)
    requires job.Ok() && Reachable(job, s) && s.client in {Hold, SignalWrite} && OfBackground(step) && Enabled(job, s, step)
    ensures var t := Do(job, s, step); t.k == s.k && t.buf[s.k] == s.buf[s.k] && t.outs[s.k] == s.outs[s.k]
  {
    ReachableInv(job, s);
    HeldSlotIsExclusive(job, s);
    hide Reachable, Counts, Results;
  }

  /** What is being saved stays as it is until it is saved, whatever the client does. */
  lemma SavedUndisturbed(job: Job, s: State, step: Step)
    requires job.Ok() && Reachable(job, s) && s.bg == Save && !OfBackground(step) && Enabled(job, s, step)
    ensures var t, j := Do(job, s, step), Previous(s.i); t.i == s.i && t.buf[j] == s.buf[j] && t.outs[j] == s.outs[j]
  {
    ReachableInv(job, s);
    if s.client in {Hold, SignalWrite} { HeldSlotIsExclusive(job, s); }
    hide Reachable, Counts, Results;
  }

  /** No event is signalled while it is still set. */
  lemma NoSignalLost(job: Job, s: State)
    requires job.Ok() && Reachable(job, s)
    ensures s.bg == SignalRead ==> !s.readDone
    ensures s.client == SignalWrite ==> !s.writeReady
    ensures s.bg == SignalFinished ==> !s.finished
  {
    ReachableInv(job, s);
    hide Reachable, Slots, Results;
  }

  // ---- results ----

  /** The results a run hands over, in order. */
  ghost function Handed(steps: seq<Step>): seq<Output> {
    if steps == [] then [] else Result(steps[0]) + Handed(steps[1..])
  }

  ghost function Result(step: Step): seq<Output> {
    if step.ClFinish? then [step.result] else []
  }

  /** What was handed over has gone to the output thread, but for a result just left in the client's slot. */
  ghost predicate Delivered(s: State, handed: seq<Output>) {
    Shape(s) && handed == s.written + if s.client == SignalWrite then [s.outs[s.k]] else []
  }

  lemma StepDelivers(job: Job, s: State, step: Step, handed: seq<Output>)
    requires Delivered(s, handed) && Enabled(job, s, step)
    ensures Delivered(Do(job, s, step), handed + Result(step))
  {
    if step.ClFinish? {
      assert handed == s.written;
    }
  }

  lemma HandedNext(steps: seq<Step>, handed: seq<Output>)
    requires steps != []
    ensures handed + Handed(steps) == handed + Result(steps[0]) + Handed(steps[1..])
  {
  }

  /** No result is lost, repeated or taken from another slot, in any run. */
  lemma {:induction false} RunDelivers(job: Job, s: State, steps: seq<Step>, handed: seq<Output>)
    requires Shape(s) && Delivered(s, handed) && IsRun(job, s, steps)
    ensures Delivered(After(job, s, steps), handed + Handed(steps))
    decreases |steps|
  {
    hide Do, Enabled, Delivered, Shape;
    hide Result;
    if steps == [] {
      assert handed + Handed(steps) == handed;
    } else {
      StepDelivers(job, s, steps[0], handed);
      RunDelivers(job, Do(job, s, steps[0]), steps[1..], handed + Result(steps[0]));
      HandedNext(steps, handed);
    }
  }

  // ---- progress ----

  predicate Works(step: Step) {
    !step.BgScribble? && !step.ClScribble?
  }

  ghost predicate Ended(s: State) {
    s.bg == BgEnd && s.client == ClientEnd
  }

  /** Until both threads have ended, one of them can go on. */
  lemma NoDeadlock(job: Job, s: State, result: Output) returns (step: Step)
    requires job.Ok() && Reachable(job, s) && !Ended(s)
    ensures Works(step) && Enabled(job, s, step)
  {
    hide Reachable, Results;
    ReachableInv(job, s);
    step := match s.bg
      case Fill => BgFill
      case SignalRead => BgSignalRead
      case Save => BgSave
      case Next => BgNext
      case SignalFinished => BgSignalFinished
      case _ =>
        if s.bg == WaitWrite && s.writeReady then BgWaitWrite
        else match s.client
          case WaitRead => ClWaitRead
          case Advance => ClAdvance
          case Hold => ClFinish(result)
          case SignalWrite => ClSignalWrite
          case _ => ClWaitFinished;
  }

  /** The work left for both threads. */
  function Work(job: Job, s: State): int {
    var bg := match s.bg
      case Fill => 6 case WaitWrite => 5 case SignalRead => 4 case Save => 3 case Next => 2 case SignalFinished => 1 case BgEnd => 0;
    var client := match s.client
      case WaitRead => 2 case Advance => 1 case Hold => 4 case SignalWrite => 3 case WaitFinished => 1 case ClientEnd => 0;
    6 * (|job.blocks| - s.n) + bg + 4 * (|job.blocks| + 1 - |s.seen|) + client
  }

  lemma WorkShrinks(job: Job, s: State, step: Step)
    requires Shape(s) && Enabled(job, s, step)
    ensures Work(job, Do(job, s, step)) + (if Works(step) then 1 else 0) <= Work(job, s)
  {
  }

  ghost function WorkingSteps(steps: seq<Step>): nat {
    if steps == [] then 0 else (if Works(steps[0]) then 1 else 0) + WorkingSteps(steps[1..])
  }

  lemma {:induction false} RunIsBounded(job: Job, s: State, steps: seq<Step>)
    requires Shape(s) && IsRun(job, s, steps)
    ensures Work(job, After(job, s, steps)) <= Work(job, s) - WorkingSteps(steps)
    decreases |steps|
  {
    hide Do, Enabled, Work;
    if steps != [] {
      WorkShrinks(job, s, steps[0]);
      RunIsBounded(job, Do(job, s, steps[0]), steps[1..]);
    }
  }

  lemma WorkIsNat(job: Job, s: State)
    requires Inv(job, s)
    ensures Work(job, s) >= 0
  {
    hide Counts, Results;
  }

  /** Whatever the interleaving, a run makes at most this many steps besides partial work; when
      no thread can go on, both have ended, the client has seen every block in order, and every
      block has been saved exactly once, in order, with the result the client gave for it. */
  lemma EveryRunEnds(job: Job, none: Output, steps: seq<Step>)
    requires job.Ok() && IsRun(job, Initial(none), steps)
    ensures WorkingSteps(steps) <= 10 * |job.blocks| + 12
    ensures var s := After(job, Initial(none), steps);
            (forall step :: Works(step) ==> !Enabled(job, s, step)) ==>
              && Ended(s)
              && |s.seen| == |job.blocks| + 1 && (forall b :: 0 <= b < |s.seen| ==> s.seen[b] == job.Input(b))
              && |Handed(steps)| == |job.blocks|
              && s.saved == if job.noWrites then [] else Paired(job, Handed(steps), |job.blocks|)
  {
    var s := After(job, Initial(none), steps);
    InitialInv(job, none);
    RunIsBounded(job, Initial(none), steps);
    assert Delivered(Initial(none), []);
    RunDelivers(job, Initial(none), steps, []);
    assert [] + Handed(steps) == Handed(steps);
    RunKeeps(job, Initial(none), steps);
    WorkIsNat(job, s);
    assert Work(job, Initial(none)) == 10 * |job.blocks| + 12;
    assert Reachable(job, s);
    hide IsRun, After, Work, Reachable, Handed;
    if !Ended(s) {
      var step := NoDeadlock(job, s, none);
    } else {
      EndedFacts(job, s);
    }
  }

  lemma EndedFacts(job: Job, s: State)
    requires Inv(job, s) && Ended(s)
    ensures |s.seen| == |job.blocks| + 1 && (forall b :: 0 <= b < |s.seen| ==> s.seen[b] == job.Input(b))
    ensures |s.written| == |job.blocks|
    ensures s.saved == if job.noWrites then [] else Paired(job, s.written, |job.blocks|)
  {
  }
}
