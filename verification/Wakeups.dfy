/** When the waiting index misses an arrival under concurrent Adds, and when it does not.
    An entry is filed late if what it is filed under is accepted by then and no thread
    has it queued to be settled. Runs that file nothing late miss nothing; what is filed
    late stays filed for good. */
module Wakeups {
  import opened Blocks
  import opened Validation
  import opened StoreModel
  import opened Interleaving

  /** Some thread will still take what waits for x. */
  ghost predicate Queued(st: State, x: Digest) { exists i :: i in st.threads && x in st.threads[i].queue }

  /** The step files a block under x. */
  predicate Files(st: State, step: Step, x: Digest) {
    var p := ThreadOf(st, step.thread).phase;
    Recording(st, p, step.action) && p.outcome == Awaiting(x)
  }

  /** The step files nothing under a block that is accepted and no longer queued. */
  ghost predicate Timely(st: State, step: Step) {
    forall x :: Files(st, step, x) ==> !IsValid(st, x) || Queued(st, x)
  }

  ghost predicate TimelyRun(steps: seq<Step>) {
    forall k :: 0 <= k < |steps| ==> Timely(Run(Start, steps[..k]), steps[k])
  }

  /** A thread that is not settling has nothing to settle. */
  ghost predicate Tidy(st: State) {
    forall i :: i in st.threads && !st.threads[i].settling ==> st.threads[i].queue == [] && st.threads[i].batch == []
  }

  /** What waits for an accepted block is about to be taken. */
  ghost predicate NothingMissed(st: State) {
    forall x :: x in st.waiting && IsValid(st, x) ==> Queued(st, x)
  }

  predicate AtRest(st: State) { forall i :: i in st.threads ==> st.threads[i] == Rest }

  lemma TidyStep(st: State, step: Step)
    requires Tidy(st)
    ensures Tidy(Apply(st, step))
  {
    hide IsValid, Take, MayFollow, NextVerdicts, NextWaiting, NextBlocks;
  }

  /** Only a take shortens a worklist, by the block whose entries it takes. */
  lemma QueueStep(t: Thread, st: State, step: Step, x: Digest)
    requires t == ThreadOf(st, step.thread) && (!t.settling ==> t.queue == [])
    requires x in t.queue && !(step.action.TakeFiled? && Taking(t) && t.queue[0] == x)
    ensures x in NextThread(st, t, step.action).queue
  {
    hide IsValid, Take, MayFollow;
  }

  lemma StaysQueued(st: State, step: Step, x: Digest)
    requires Tidy(st) && Queued(st, x)
    ensures Queued(Apply(st, step), x) || x !in Apply(st, step).waiting
  {
    hide NextThread, NextVerdicts, NextBlocks, IsValid;
    var t, next := ThreadOf(st, step.thread), Apply(st, step);
    var i :| i in st.threads && x in st.threads[i].queue;
    if i != step.thread {
      assert next.threads[i] == st.threads[i];
    } else if !(step.action.TakeFiled? && Taking(t) && t.queue[0] == x) {
      QueueStep(t, st, step, x);
      assert x in next.threads[i].queue;
    }
  }

  /** A block that is accepted by a step is queued by it. */
  lemma AcceptedIsQueued(st: State, step: Step, x: Digest)
    requires !IsValid(st, x) && IsValid(Apply(st, step), x)
    ensures Queued(Apply(st, step), x)
  {
    hide NextWaiting, NextBlocks;
    var next := Apply(st, step);
    assert x in next.threads[step.thread].queue;
  }

  lemma TimelyStep(st: State, step: Step)
    requires Tidy(st) && NothingMissed(st) && Timely(st, step)
    ensures NothingMissed(Apply(st, step))
  {
    var next := Apply(st, step);
    forall x | x in next.waiting && IsValid(next, x) ensures Queued(next, x) {
      if !IsValid(st, x) {
        AcceptedIsQueued(st, step, x);
      } else {
        assert x in st.waiting || Files(st, step, x) by { hide NextThread, NextVerdicts, NextBlocks; }
        hide Apply, IsValid;
        StaysQueued(st, step, x);
      }
    }
  }

  lemma LateStep(st: State, step: Step)
    requires Tidy(st) && !Timely(st, step)
    ensures !NothingMissed(Apply(st, step))
  {
    var t, next := ThreadOf(st, step.thread), Apply(st, step);
    var x :| Files(st, step, x) && IsValid(st, x) && !Queued(st, x);
    var d := BlockHash(t.phase.block);
    assert d != x && IsValid(next, x) && x in next.waiting;
    assert x !in next.threads[step.thread].queue by {
      assert next.threads[step.thread].queue == if t.settling then t.queue else [d];
    }
    hide NextThread, NextVerdicts, NextWaiting, NextBlocks, IsValid;
    forall i | i in next.threads ensures x !in next.threads[i].queue {
      if i != step.thread { assert next.threads[i] == st.threads[i]; }
    }
  }

  /** Nothing is missed in the first n steps: each of their states has whatever waits for
      an accepted block about to be taken. */
  ghost predicate MissesNothing(steps: seq<Step>) {
    forall k :: 0 <= k <= |steps| ==> NothingMissed(Run(Start, steps[..k]))
  }

  lemma {:induction false} AlwaysTidy(steps: seq<Step>)
    ensures Tidy(Run(Start, steps))
    decreases |steps|
  {
    hide Apply;
    if steps != [] {
      AlwaysTidy(steps[..|steps| - 1]);
      TidyStep(Run(Start, steps[..|steps| - 1]), steps[|steps| - 1]);
    }
  }

  lemma {:induction false} TimelySoFar(steps: seq<Step>)
    requires TimelyRun(steps)
    ensures NothingMissed(Run(Start, steps))
    decreases |steps|
  {
    hide Apply, Timely;
    if steps != [] {
      var most := steps[..|steps| - 1];
      forall k | 0 <= k < |most| ensures Timely(Run(Start, most[..k]), most[k]) {
        assert most[..k] == steps[..k];
      }
      TimelySoFar(most);
      AlwaysTidy(most);
      TimelyStep(Run(Start, most), steps[|steps| - 1]);
    }
  }

  lemma TimelyUpto(steps: seq<Step>, k: nat)
    requires TimelyRun(steps) && k <= |steps|
    ensures TimelyRun(steps[..k])
  {
    hide Run, Timely;
    var few := steps[..k];
    forall i | 0 <= i < k ensures Timely(Run(Start, few[..i]), few[i]) {
      assert few[..i] == steps[..i];
    }
  }

  lemma RunNext(steps: seq<Step>, k: nat)
    requires k < |steps|
    ensures Run(Start, steps[..k + 1]) == Apply(Run(Start, steps[..k]), steps[k])
  {
    hide Apply;
    var few := steps[..k + 1];
    assert few[..|few| - 1] == steps[..k];
  }

  /** Exactly the runs that file nothing late miss nothing in any of their states. When
      such a run ends with every thread at rest, nothing waits for an accepted block. */
  lemma TimelyIsMissingNothing(steps: seq<Step>)
    ensures TimelyRun(steps) <==> MissesNothing(steps)
    ensures TimelyRun(steps) && AtRest(Run(Start, steps)) ==>
              forall x :: x in Run(Start, steps).waiting ==> !IsValid(Run(Start, steps), x)
  {
    hide Run, Apply, Timely, Tidy;
    if TimelyRun(steps) {
      forall k | 0 <= k <= |steps| ensures NothingMissed(Run(Start, steps[..k])) {
        TimelyUpto(steps, k);
        TimelySoFar(steps[..k]);
      }
      assert steps[..|steps|] == steps;
      assert NothingMissed(Run(Start, steps[..|steps|]));
    } else {
      var k :| 0 <= k < |steps| && !Timely(Run(Start, steps[..k]), steps[k]);
      AlwaysTidy(steps[..k]);
      LateStep(Run(Start, steps[..k]), steps[k]);
      RunNext(steps, k);
      assert !NothingMissed(Run(Start, steps[..k + 1]));
    }
  }

  // ---- the converse: what is filed late stays filed ------------------------------------

  /** The thread can still come to queue x: it has x on its lists, or is validating x
      and has looked its verdict up before it was accepted, or is readmitting it. */
  predicate Carries(t: Thread, x: Digest) {
    || x in t.queue || x in t.batch
    || (!t.phase.Idle? && BlockHash(t.phase.block) == x && (t.settling || !t.phase.Offered?))
  }

  /** x is accepted, and nothing can bring it to be settled again. */
  ghost predicate Stranded(st: State, x: Digest) {
    && IsValid(st, x)
    && (forall i :: i in st.threads ==> !Carries(st.threads[i], x))
    && (forall y :: !Filed(st.waiting, y, x))
  }

  lemma CarriesStep(st: State, step: Step, x: Digest)
    requires Sound(st.blocks) && Tidy(st) && Stranded(st, x)
    ensures !Carries(NextThread(st, ThreadOf(st, step.thread), step.action), x)
  {
    var t := ThreadOf(st, step.thread);
    assert !Carries(t, x) && (!t.settling ==> t.queue == [] && t.batch == []);
    if step.action.TakeFiled? && Taking(t) {
      assert x !in Take(st.waiting, t.queue[0]) by { assert !Filed(st.waiting, t.queue[0], x); }
    }
    assert IsValid(st, x);
    hide Take, MayFollow, Stranded;
  }

  lemma StrandedStep(st: State, step: Step, x: Digest)
    requires Safe(st) && Tidy(st) && Stranded(st, x)
    ensures var next := Apply(st, step);
      Stranded(next, x) && forall d :: Filed(st.waiting, x, d) ==> Filed(next.waiting, x, d)
  {
    CarriesStep(st, step, x);
    StepGrows(st, step);
    IndexStep(st, step, x);
    hide NextThread, NextVerdicts, NextBlocks, NextWaiting, Safe, Carries;
    var next := Apply(st, step);
    forall i | i in next.threads ensures !Carries(next.threads[i], x) {
      if i != step.thread { assert next.threads[i] == st.threads[i]; }
    }
  }

  lemma IndexStep(st: State, step: Step, x: Digest)
    requires Stranded(st, x)
    ensures var w := NextWaiting(st, ThreadOf(st, step.thread), step.action);
      (forall y :: !Filed(w, y, x)) && forall d :: Filed(st.waiting, x, d) ==> Filed(w, x, d)
  {
    var t := ThreadOf(st, step.thread);
    assert !Carries(t, x) && IsValid(st, x);
    var w := NextWaiting(st, t, step.action);
    forall y ensures !Filed(w, y, x) {
      assert !Filed(st.waiting, y, x);
    }
  }

  lemma {:induction false} StrandedStays(st: State, more: seq<Step>, x: Digest)
    requires Safe(st) && Tidy(st) && Stranded(st, x)
    ensures var end := Run(st, more);
      Safe(end) && Tidy(end) && Stranded(end, x) && forall d :: Filed(st.waiting, x, d) ==> Filed(end.waiting, x, d)
    decreases |more|
  {
    hide Apply, Safe, Tidy, Stranded;
    if more != [] {
      var most := more[..|more| - 1];
      StrandedStays(st, most, x);
      SafeStep(Run(st, most), more[|more| - 1]);
      TidyStep(Run(st, most), more[|more| - 1]);
      StrandedStep(Run(st, most), more[|more| - 1], x);
    }
  }

  /** A block filed late, under one that nothing can bring to be settled again, stays
      filed there in every continuation. */
  lemma FiledLateStaysFiled(steps: seq<Step>, step: Step, x: Digest, more: seq<Step>)
    requires Files(Run(Start, steps), step, x) && Stranded(Run(Start, steps), x)
    ensures var d, end := BlockHash(ThreadOf(Run(Start, steps), step.thread).phase.block), Run(Start, steps + [step] + more);
      Filed(end.waiting, x, d) && IsValid(end, x)
  {
    var st := Run(Start, steps);
    var next, d := Apply(st, step), BlockHash(ThreadOf(st, step.thread).phase.block);
    EveryInterleavingIsSafe(steps);
    AlwaysTidy(steps);
    assert Filed(next.waiting, x, d) by { hide NextThread, NextVerdicts, NextBlocks; }
    StrandedStep(st, step, x);
    SafeStep(st, step);
    TidyStep(st, step);
    hide Apply, Safe, Tidy;
    assert (steps + [step])[..|steps + [step]| - 1] == steps;
    StrandedStays(next, more, x);
    RunConcat(Start, steps + [step], more);
  }

  // ---- Adds that do not overlap --------------------------------------------------------

  /** No other Add is under way. */
  ghost predicate Alone(st: State, step: Step) {
    forall i :: i in st.threads && i != step.thread ==> st.threads[i] == Rest
  }

  /** A resolution waits only for a block that is not held. */
  predicate Answering(st: State, step: Step) {
    step.action.Resolve? && step.action.outcome.Awaiting? ==> step.action.outcome.block !in st.blocks
  }

  ghost predicate SerialRun(steps: seq<Step>) {
    forall k :: 0 <= k < |steps| ==> Alone(Run(Start, steps[..k]), steps[k]) && Answering(Run(Start, steps[..k]), steps[k])
  }

  predicate WaitsWell(st: State, p: Phase) {
    (p.Judged? || p.Stored?) && p.outcome.Awaiting? ==> !IsValid(st, p.outcome.block)
  }

  /** Whatever a thread is about to wait for is not accepted. */
  ghost predicate WaitsAreOpen(st: State) {
    forall i :: i in st.threads ==> WaitsWell(st, st.threads[i].phase)
  }

  lemma SerialStep(st: State, step: Step)
    requires Safe(st) && WaitsAreOpen(st) && Alone(st, step) && Answering(st, step)
    ensures Timely(st, step) && WaitsAreOpen(Apply(st, step))
  {
    var t, next := ThreadOf(st, step.thread), Apply(st, step);
    assert WaitsWell(st, t.phase);
    assert forall x :: x !in st.blocks ==> !IsValid(st, x);
    OwnWaitsWell(st, step);
    hide Safe, NextThread, NextVerdicts, NextWaiting, NextBlocks, IsValid;
    forall i | i in next.threads ensures WaitsWell(next, next.threads[i].phase) {
      if i != step.thread { assert next.threads[i] == Rest; }
    }
  }

  lemma OwnWaitsWell(st: State, step: Step)
    requires (forall x :: x !in st.blocks ==> !IsValid(st, x)) && Answering(st, step)
    requires WaitsWell(st, ThreadOf(st, step.thread).phase)
    ensures WaitsWell(Apply(st, step), NextThread(st, ThreadOf(st, step.thread), step.action).phase)
  {
    hide Take, MayFollow, NextWaiting, NextBlocks;
  }

  lemma {:induction false} SerialRunsAreTimely(steps: seq<Step>)
    requires SerialRun(steps)
    ensures TimelyRun(steps) && WaitsAreOpen(Run(Start, steps))
    decreases |steps|
  {
    hide Apply, Timely;
    if steps != [] {
      var most := steps[..|steps| - 1];
      forall k | 0 <= k < |most| ensures Alone(Run(Start, most[..k]), most[k]) && Answering(Run(Start, most[..k]), most[k]) {
        assert most[..k] == steps[..k];
      }
      SerialRunsAreTimely(most);
      EveryInterleavingIsSafe(most);
      SerialStep(Run(Start, most), steps[|steps| - 1]);
      forall k | 0 <= k < |steps| ensures Timely(Run(Start, steps[..k]), steps[k]) {
        if k < |most| { assert most[..k] == steps[..k]; }
      }
    }
  }

  /** Adds that do not overlap miss nothing: between them nothing waits for an accepted
      block. */
  lemma AddsInTurnMissNothing(steps: seq<Step>)
    requires SerialRun(steps)
    ensures NothingMissed(Run(Start, steps))
    ensures AtRest(Run(Start, steps)) ==> forall x :: x in Run(Start, steps).waiting ==> !IsValid(Run(Start, steps), x)
  {
    SerialRunsAreTimely(steps);
    TimelyIsMissingNothing(steps);
    TimelySoFar(steps);
  }
}
