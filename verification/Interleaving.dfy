/** The validating store under concurrent Adds. The lock is not held across a
    validation, so an Add is a series of atomic steps that may interleave with any
    others: look the verdict up, fetch the predecessor, read its verdict, resolve
    references, store, record, and then take and readmit what was waiting. What
    resolution answers is left open, which covers every way the store may grow while
    it runs. */
module Interleaving {
  import opened Blocks
  import opened Options
  import opened Search
  import opened Validation
  import opened StoreModel

  datatype Phase =
    | Idle
    | Offered(block: Block)
    | Looked(block: Block)
    | Fetched(block: Block)
    | Linked(block: Block)
    | Judged(block: Block, outcome: Outcome)
    | Stored(block: Block, outcome: Outcome)

  /** One goroutine: where its current validation stands, and, while it settles, the
      blocks taken for readmission and the worklist. */
  datatype Thread = Thread(phase: Phase, settling: bool, batch: seq<Digest>, queue: seq<Digest>)

  datatype State = State(blocks: Blocks, verdicts: map<Digest, Entry>, waiting: Waiting, threads: map<nat, Thread>)

  datatype Action =
    | Begin(block: Block)
    | Lookup
    | FetchPrev
    | ReadVerdict
    | Resolve(outcome: Outcome)
    | StoreBlock
    | RecordVerdict
    | TakeFiled
    | NextHeld
    | Finish

  datatype Step = Step(thread: nat, action: Action)

  const Start: State := State(map[], map[], map[], map[])

  const Rest: Thread := Thread(Idle, false, [], [])

  predicate IsValid(st: State, d: Digest) { d in st.verdicts && st.verdicts[d].Valid? }

  function ThreadOf(st: State, i: nat): Thread { if i in st.threads then st.threads[i] else Rest }

  /** An admission has ended: the top-level one starts settling unless it was refused
      or a duplicate, a readmission queues the block if it is accepted. */
  function Ended(t: Thread, b: Block, accepted: bool, settles: bool): Thread {
    var d := BlockHash(b);
    if t.settling then t.(phase := Idle, queue := if accepted then t.queue + [d] else t.queue)
    else if settles then Thread(Idle, true, [], [d])
    else Rest
  }

  /** Rule 3 on the blocks themselves, once the predecessor is held and accepted. */
  predicate MayFollow(p: Block, b: Block) { p.pub == b.pub && !p.content.Rotation? }

  /** Where a step takes its thread; one that is not due leaves it where it is. */
  function NextThread(st: State, t: Thread, action: Action): Thread {
    match action
    case Begin(b) => if t.phase.Idle? && !t.settling then t.(phase := Offered(b)) else t
    case Lookup =>
      if !t.phase.Offered? then t
      else if IsValid(st, BlockHash(t.phase.block)) then Ended(t, t.phase.block, true, false)
      else t.(phase := Looked(t.phase.block))
    case FetchPrev =>
      if !t.phase.Looked? then t
      else if t.phase.block.prev.None? then t.(phase := Linked(t.phase.block))
      else if t.phase.block.prev.value in st.blocks then t.(phase := Fetched(t.phase.block))
      else t.(phase := Judged(t.phase.block, Awaiting(t.phase.block.prev.value)))
    case ReadVerdict =>
      if !t.phase.Fetched? || t.phase.block.prev.None? || t.phase.block.prev.value !in st.blocks then t
      else if !IsValid(st, t.phase.block.prev.value) then t.(phase := Judged(t.phase.block, Awaiting(t.phase.block.prev.value)))
      else if MayFollow(st.blocks[t.phase.block.prev.value], t.phase.block) then t.(phase := Linked(t.phase.block))
      else t.(phase := Judged(t.phase.block, Rejected(3)))
    case Resolve(o) => if t.phase.Linked? then t.(phase := Judged(t.phase.block, o)) else t
    case StoreBlock =>
      if !t.phase.Judged? then t
      else if !t.phase.outcome.Accepted? && !t.phase.outcome.Undecided() then Ended(t, t.phase.block, false, false)
      else t.(phase := Stored(t.phase.block, t.phase.outcome))
    case RecordVerdict => if t.phase.Stored? then Ended(t, t.phase.block, t.phase.outcome.Accepted?, true) else t
    case TakeFiled => if Taking(t) then t.(batch := Take(st.waiting, t.queue[0]), queue := t.queue[1..]) else t
    case NextHeld =>
      if !t.phase.Idle? || !t.settling || t.batch == [] then t
      else if t.batch[0] !in st.blocks then t.(batch := t.batch[1..])
      else t.(batch := t.batch[1..], phase := Offered(st.blocks[t.batch[0]]))
    case Finish => if t.phase.Idle? && t.batch == [] && t.queue == [] then Rest else t
  }

  predicate Taking(t: Thread) { t.phase.Idle? && t.settling && t.batch == [] && t.queue != [] }

  /** A judged block is stored unless it is invalid. */
  predicate Storing(p: Phase, action: Action) {
    action.StoreBlock? && p.Judged? && (p.outcome.Accepted? || p.outcome.Undecided())
  }

  function NextBlocks(st: State, p: Phase, action: Action): Blocks {
    if Storing(p, action) then st.blocks[BlockHash(p.block) := p.block] else st.blocks
  }

  /** A verdict is recorded over anything but an acceptance. */
  predicate Recording(st: State, p: Phase, action: Action) {
    action.RecordVerdict? && p.Stored? && !IsValid(st, BlockHash(p.block))
  }

  function NextVerdicts(st: State, p: Phase, action: Action): map<Digest, Entry> {
    if Recording(st, p, action) then st.verdicts[BlockHash(p.block) := if p.outcome.Accepted? then Valid else Pending(p.outcome)]
    else st.verdicts
  }

  function NextWaiting(st: State, t: Thread, action: Action): Waiting {
    if Recording(st, t.phase, action) && t.phase.outcome.Awaiting? then File(st.waiting, t.phase.outcome.block, BlockHash(t.phase.block))
    else if action.TakeFiled? && Taking(t) then st.waiting - {t.queue[0]}
    else st.waiting
  }

  /** One atomic step of one thread. */
  function Apply(st: State, step: Step): State {
    var t := ThreadOf(st, step.thread);
    State(NextBlocks(st, t.phase, step.action), NextVerdicts(st, t.phase, step.action),
          NextWaiting(st, t, step.action), st.threads[step.thread := NextThread(st, t, step.action)])
  }

  /** Any interleaving is some sequence of steps. */
  function Run(st: State, steps: seq<Step>): State {
    if steps == [] then st else Apply(Run(st, steps[..|steps| - 1]), steps[|steps| - 1])
  }

  // ---- safety ------------------------------------------------------------------

  /** b's predecessor, if it has one, is held, accepted, and one b may follow. */
  ghost predicate Follows(st: State, b: Block) {
    b.prev.Some? ==>
      && b.prev.value in st.blocks && IsValid(st, b.prev.value)
      && MayFollow(st.blocks[b.prev.value], b)
  }

  /** What a thread has established so far; it stays true whatever others do. */
  ghost predicate PhaseSafe(st: State, p: Phase) {
    match p
    case Linked(b) => Follows(st, b)
    case Judged(b, o) => o.Accepted? ==> Follows(st, b)
    case Stored(b, o) => BlockHash(b) in st.blocks && (o.Accepted? ==> Follows(st, b))
    case _ => true
  }

  ghost predicate Safe(st: State) {
    && Sound(st.blocks)
    && (forall d :: d in st.verdicts ==> d in st.blocks)
    && (forall d :: IsValid(st, d) ==> d in st.blocks && Follows(st, st.blocks[d]))
    && (forall i :: i in st.threads ==> PhaseSafe(st, st.threads[i].phase))
  }

  /** Nothing held is lost and nothing accepted is taken back. */
  ghost predicate Grows(st: State, next: State) {
    Extends(st.blocks, next.blocks) && forall d :: IsValid(st, d) ==> IsValid(next, d)
  }

  lemma FollowsGrows(st: State, next: State, b: Block)
    requires Grows(st, next) && Follows(st, b)
    ensures Follows(next, b)
  {
  }

  // ---- what one step changes --------------------------------------------------------

  /** How far one step takes a validation. */
  predicate Moves(st: State, next: State, p: Phase, q: Phase) {
    || q == p || q.Idle? || q.Offered? || q.Looked? || q.Fetched?
    || (q.Judged? && (!q.outcome.Accepted? || p == Linked(q.block)))
    || (q.Linked? && Ready(st, q.block))
    || (q.Stored? && p == Judged(q.block, q.outcome) && BlockHash(q.block) in next.blocks)
  }

  predicate Ready(st: State, b: Block) {
    b.prev.Some? ==> b.prev.value in st.blocks && IsValid(st, b.prev.value) && MayFollow(st.blocks[b.prev.value], b)
  }

  lemma OwnThreadMoves(st: State, step: Step)
    ensures var next := Apply(st, step);
      Moves(st, next, ThreadOf(st, step.thread).phase, ThreadOf(next, step.thread).phase)
  {
    hide IsValid, Take, MayFollow, NextVerdicts, NextWaiting;
  }

  lemma StepGrows(st: State, step: Step)
    requires Safe(st)
    ensures Grows(st, Apply(st, step))
  {
    hide NextThread, NextWaiting, PhaseSafe, Follows;
  }

  lemma StepKeepsStore(st: State, step: Step)
    requires Safe(st)
    ensures var next := Apply(st, step);
      && Sound(next.blocks) && (forall d :: d in next.verdicts ==> d in next.blocks)
      && (forall d :: IsValid(next, d) ==> d in next.blocks && Follows(next, next.blocks[d]))
  {
    StepGrows(st, step);
    hide NextThread, NextWaiting, Follows;
    var next, p := Apply(st, step), ThreadOf(st, step.thread).phase;
    assert PhaseSafe(st, p);
    forall d | IsValid(next, d) ensures d in next.blocks && Follows(next, next.blocks[d]) {
      if IsValid(st, d) {
        FollowsGrows(st, next, st.blocks[d]);
      } else {
        FollowsGrows(st, next, p.block);
      }
    }
  }

  lemma PhaseGrows(st: State, next: State, p: Phase)
    requires Grows(st, next) && PhaseSafe(st, p)
    ensures PhaseSafe(next, p)
  {
    hide Follows;
    if (p.Linked? || p.Judged? || p.Stored?) && Follows(st, p.block) { FollowsGrows(st, next, p.block); }
  }

  lemma MoveIsSafe(st: State, next: State, p: Phase, q: Phase)
    requires Grows(st, next) && PhaseSafe(st, p) && Moves(st, next, p, q)
    ensures PhaseSafe(next, q)
  {
    PhaseGrows(st, next, p);
  }

  lemma StepKeepsThreads(st: State, step: Step)
    requires Safe(st)
    ensures var next := Apply(st, step); forall i :: i in next.threads ==> PhaseSafe(next, next.threads[i].phase)
  {
    StepGrows(st, step);
    OwnThreadMoves(st, step);
    var next, t := Apply(st, step), ThreadOf(st, step.thread);
    assert PhaseSafe(st, t.phase);
    hide NextThread, NextBlocks, NextVerdicts, NextWaiting, PhaseSafe, Moves, Grows;
    forall i | i in next.threads ensures PhaseSafe(next, next.threads[i].phase) {
      if i == step.thread {
        MoveIsSafe(st, next, t.phase, next.threads[i].phase);
      } else {
        PhaseGrows(st, next, st.threads[i].phase);
      }
    }
  }

  lemma {:induction false} EveryInterleavingIsSafe(steps: seq<Step>)
    ensures Safe(Run(Start, steps))
    decreases |steps|
  {
    hide Apply, Safe;
    if steps == [] {
      StartIsSafe();
    } else {
      var st := Run(Start, steps[..|steps| - 1]);
      EveryInterleavingIsSafe(steps[..|steps| - 1]);
      SafeStep(st, steps[|steps| - 1]);
    }
  }

  lemma StartIsSafe()
    ensures Safe(Start)
  {
  }

  lemma SafeStep(st: State, step: Step)
    requires Safe(st)
    ensures Safe(Apply(st, step))
  {
    hide Apply, Follows, Sound, PhaseSafe;
    StepKeepsStore(st, step);
    StepKeepsThreads(st, step);
  }

  /** A chain as rule 3 wants it: by one author down to a genesis block, with no
      rotation before its last block. */
  ghost predicate GoodChain(st: State, d: Digest)
    requires Sound(st.blocks) && d in st.blocks
  {
    var chain := Ancestors(st.blocks, Some(d));
    && AncestorGap(st.blocks, Some(d)).None?
    && (forall x :: x in chain ==> x in st.blocks && IsValid(st, x) && st.blocks[x].pub == st.blocks[d].pub)
    && (forall x :: x in chain[1..] ==> x in st.blocks && !st.blocks[x].content.Rotation?)
  }

  lemma {:induction false} SafeChain(st: State, d: Digest)
    requires Safe(st) && IsValid(st, d)
    ensures GoodChain(st, d)
    decreases d
  {
    var b := st.blocks[d];
    assert d == BlockHash(b) && Follows(st, b);
    var chain := Ancestors(st.blocks, Some(d));
    if b.prev.Some? {
      SafeChain(st, b.prev.value);
      var rest := Ancestors(st.blocks, b.prev);
      assert chain == [d] + rest && rest[0] == b.prev.value;
      assert forall x :: x in rest ==> x == rest[0] || x in rest[1..];
    }
  }

  /** In every interleaving of concurrent Adds, an accepted block is held on an
      unbroken accepted chain of one author, with no rotation before the last block;
      and it stays accepted in every continuation. */
  lemma AcceptedBlocksAreSafe(steps: seq<Step>, more: seq<Step>, d: Digest)
    requires IsValid(Run(Start, steps), d)
    ensures Sound(Run(Start, steps).blocks) && d in Run(Start, steps).blocks && GoodChain(Run(Start, steps), d)
    ensures IsValid(Run(Start, steps + more), d)
    decreases |more|
  {
    hide Apply, Safe, Sound, GoodChain;
    var st := Run(Start, steps);
    EveryInterleavingIsSafe(steps);
    assert Sound(st.blocks) && d in st.blocks by { SafeHolds(st, d); }
    SafeChain(st, d);
    if more == [] {
      assert steps + more == steps;
    } else {
      var before := more[..|more| - 1];
      AcceptedBlocksAreSafe(steps, before, d);
      assert (steps + more)[..|steps + more| - 1] == steps + before;
      EveryInterleavingIsSafe(steps + before);
      StepGrows(Run(Start, steps + before), more[|more| - 1]);
    }
  }

  lemma SafeHolds(st: State, d: Digest)
    requires Safe(st) && IsValid(st, d)
    ensures Sound(st.blocks) && d in st.blocks
  {
  }

  // ---- what interleaving costs -------------------------------------------------

  /** The waiting index is exact only one Add at a time. A block judged while its
      predecessor was absent may be recorded after the predecessor arrived and was
      settled: it stays filed under a block that is already accepted, with every
      thread at rest, and no later arrival of that block revisits it. */
  lemma WakeupCanBeLost()
    ensures exists steps: seq<Step>, p: Digest, d: Digest ::
      var st := Run(Start, steps);
      && (forall i :: i in st.threads ==> st.threads[i] == Rest)
      && IsValid(st, p) && d in st.blocks && st.blocks[d].prev == Some(p)
      && d in st.verdicts && st.verdicts[d] == Pending(Awaiting(p)) && Filed(st.waiting, p, d)
  {
    var steps := JudgeSteps + ValidateSteps + AcceptSteps + RecordSteps + SettleSteps;
    LostRun();
    var p, d, st := BlockHash(FirstBlock), BlockHash(SecondBlock), Run(Start, steps);
    hide Run, Apply;
    assert st.blocks[d].prev == Some(p) && Filed(st.waiting, p, d);
  }

  lemma LostRun()
    ensures Run(Start, JudgeSteps + ValidateSteps + AcceptSteps + RecordSteps + SettleSteps) == Late(Rest)
  {
    SecondJudgedEarly(Start);
    FirstValidated(Run(Start, JudgeSteps));
    FirstAccepted(Run(Run(Start, JudgeSteps), ValidateSteps));
    SecondRecordedLate(Run(Run(Run(Start, JudgeSteps), ValidateSteps), AcceptSteps));
    SecondSettled(Run(Run(Run(Run(Start, JudgeSteps), ValidateSteps), AcceptSteps), RecordSteps));
    hide Run, Apply, JudgeSteps, ValidateSteps, AcceptSteps, RecordSteps, SettleSteps;
    RunConcat(Start, JudgeSteps, ValidateSteps);
    RunConcat(Start, JudgeSteps + ValidateSteps, AcceptSteps);
    RunConcat(Start, JudgeSteps + ValidateSteps + AcceptSteps, RecordSteps);
    RunConcat(Start, JudgeSteps + ValidateSteps + AcceptSteps + RecordSteps, SettleSteps);
  }

  const FirstBlock: Block := Block(0, None, Private(Payload([], []), 0))
  const SecondBlock: Block := Block(0, Some(BlockHash(FirstBlock)), Private(Payload([], []), 0))

  /** One thread judges the second block before the first is held ... */
  const JudgeSteps: seq<Step> := [Step(1, Begin(SecondBlock)), Step(1, Lookup), Step(1, FetchPrev)]

  /** ... another validates the first, and accepts and settles it ... */
  const ValidateSteps: seq<Step> :=
    [Step(2, Begin(FirstBlock)), Step(2, Lookup), Step(2, FetchPrev), Step(2, Resolve(Accepted))]

  const AcceptSteps: seq<Step> := [Step(2, StoreBlock), Step(2, RecordVerdict), Step(2, TakeFiled), Step(2, Finish)]

  /** ... and only then is the early judgement recorded. */
  const RecordSteps: seq<Step> := [Step(1, StoreBlock), Step(1, RecordVerdict)]

  const SettleSteps: seq<Step> := [Step(1, TakeFiled), Step(1, Finish)]

  function EarlyJudgement(): Thread { Thread(Judged(SecondBlock, Awaiting(BlockHash(FirstBlock))), false, [], []) }

  lemma SecondJudgedEarly(s0: State)
    requires s0 == Start
    ensures Run(s0, JudgeSteps) == State(map[], map[], map[], map[1 := EarlyJudgement()])
  {
    var s1 := Apply(s0, JudgeSteps[0]);
    var s2 := Apply(s1, JudgeSteps[1]);
    var s3 := Apply(s2, JudgeSteps[2]);
    assert s3.threads == map[1 := EarlyJudgement()];
    RunSteps(JudgeSteps, [s0, s1, s2, s3]);
  }

  function Validated(): Thread { Thread(Judged(FirstBlock, Accepted), false, [], []) }

  lemma FirstValidated(s0: State)
    requires s0 == State(map[], map[], map[], map[1 := EarlyJudgement()])
    ensures Run(s0, ValidateSteps) == State(map[], map[], map[], map[1 := EarlyJudgement(), 2 := Validated()])
  {
    var s1 := Apply(s0, ValidateSteps[0]);
    var s2 := Apply(s1, ValidateSteps[1]);
    var s3 := Apply(s2, ValidateSteps[2]);
    var s4 := Apply(s3, ValidateSteps[3]);
    assert s4.threads == map[1 := EarlyJudgement(), 2 := Validated()];
    RunSteps(ValidateSteps, [s0, s1, s2, s3, s4]);
  }

  lemma FirstAccepted(s0: State)
    requires s0 == State(map[], map[], map[], map[1 := EarlyJudgement(), 2 := Validated()])
    ensures var p := BlockHash(FirstBlock);
      Run(s0, AcceptSteps) == State(map[p := FirstBlock], map[p := Valid], map[], map[1 := EarlyJudgement(), 2 := Rest])
  {
    var p := BlockHash(FirstBlock);
    var s1 := Apply(s0, AcceptSteps[0]);
    var s2 := Apply(s1, AcceptSteps[1]);
    assert s2 == State(map[p := FirstBlock], map[p := Valid], map[],
                       map[1 := EarlyJudgement(), 2 := Thread(Idle, true, [], [p])]);
    var s3 := Apply(s2, AcceptSteps[2]);
    assert s3.waiting == map[];
    var s4 := Apply(s3, AcceptSteps[3]);
    assert s4.threads == map[1 := EarlyJudgement(), 2 := Rest];
    RunSteps(AcceptSteps, [s0, s1, s2, s3, s4]);
  }

  /** The second block on record, and its thread about to settle or at rest. */
  function Late(t: Thread): State {
    var p, d := BlockHash(FirstBlock), BlockHash(SecondBlock);
    State(map[p := FirstBlock, d := SecondBlock], map[p := Valid, d := Pending(Awaiting(p))], map[p := [d]], map[1 := t, 2 := Rest])
  }

  lemma SecondRecordedLate(s0: State)
    requires var p := BlockHash(FirstBlock);
      s0 == State(map[p := FirstBlock], map[p := Valid], map[], map[1 := EarlyJudgement(), 2 := Rest])
    ensures Run(s0, RecordSteps) == Late(Thread(Idle, true, [], [BlockHash(SecondBlock)]))
  {
    var s1 := Apply(s0, RecordSteps[0]);
    var s2 := Apply(s1, RecordSteps[1]);
    assert [] + [BlockHash(SecondBlock)] == [BlockHash(SecondBlock)];
    RunSteps(RecordSteps, [s0, s1, s2]);
  }

  lemma SecondSettled(s0: State)
    requires s0 == Late(Thread(Idle, true, [], [BlockHash(SecondBlock)]))
    ensures Run(s0, SettleSteps) == Late(Rest)
  {
    var s1 := Apply(s0, SettleSteps[0]);
    assert s1.waiting == s0.waiting;
    var s2 := Apply(s1, SettleSteps[1]);
    assert s2.threads == map[1 := Rest, 2 := Rest];
    RunSteps(SettleSteps, [s0, s1, s2]);
  }

  lemma {:induction false} RunConcat(st: State, a: seq<Step>, b: seq<Step>)
    ensures Run(st, a + b) == Run(Run(st, a), b)
    decreases |b|
  {
    if b == [] {
      assert a + b == a;
    } else {
      assert (a + b)[..|a + b| - 1] == a + b[..|b| - 1];
      RunConcat(st, a, b[..|b| - 1]);
    }
  }

  lemma {:induction false} RunSteps(steps: seq<Step>, states: seq<State>)
    requires |states| == |steps| + 1
    requires forall k :: 0 <= k < |steps| ==> states[k + 1] == Apply(states[k], steps[k])
    ensures Run(states[0], steps) == states[|steps|]
    decreases |steps|
  {
    hide Apply;
    if steps != [] {
      RunSteps(steps[..|steps| - 1], states[..|steps|]);
    }
  }
}
