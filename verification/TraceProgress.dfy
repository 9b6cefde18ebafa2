/** The parties around the double buffer of DBKKernel/ultimap2.c come to rest: nobody waits for ever for somebody who
    waits too, and every thread that asked for a flush returns. */
module TraceProgress {
  import opened TraceBuffers

  /** No thread flushes, no DPC is queued or runs, and nothing is being saved. */
  predicate AtRest(s: State) {
    && (forall f | 0 <= f < |s.flushers| :: s.flushers[f].at == Resting)
    && !s.queued && s.dpc == Idle && !Saving(s)
  }

  /** A step of a party that is already at work: nothing is recorded, and nobody begins. */
  predicate AtWork(step: Step) { step.DpcStep? || step.WriterStep? || step.FlusherStep? }

  // ----- Nobody is stuck -----

  /** A thread's own step changes the state unless it is at rest, waits for the buffer, or waits for the DPC. */
  lemma FlusherMovesExactly(s: State, f: nat)
    requires f < |s.flushers|
    ensures FlusherNext(s, f) == s <==>
            || s.flushers[f].at == Resting
            || (s.flushers[f].at == Waiting && !s.info.ready)
            || (s.flushers[f].at == Flushing && (s.queued || s.dpc != Idle))
  {
    var t := FlusherNext(s, f);
    match s.flushers[f].at {
      case Resting =>
      case Waiting => if s.info.ready { assert t.flushers[f].at != s.flushers[f].at; }
      case Passed => assert t.flushers[f].at != s.flushers[f].at;
      case Flushing => if !s.queued && s.dpc == Idle { assert t.flushers[f].at != s.flushers[f].at; }
      case Clearing => assert t.flushers[f].at != s.flushers[f].at;
    }
  }

  lemma DpcMovesExactly(s: State)
    ensures DpcNext(s) == s <==> s.dpc == Idle && !s.queued
  {
    hide TableOffset;
    match s.dpc
    case Idle => case Check => case Disable => case ClearReady => case SwapBuffers => case SwapHeaders =>
        case SwapTables =>
    case Capture => case Initiate => case Reset => case Enable =>
  }

  lemma WriterMovesExactly(s: State)
    requires Shaped(s)
    ensures WriterNext(s) == s <==> !Saving(s)
  {
    match s.writer { case Sleeping => case Sizing => case Copying(_, _, _) => case Finishing => }
  }

  /** The wait ends: a buffer that is not ready is being saved, or handed over by a DPC under way. */
  lemma ReadyAgain(s: State)
    requires Inv(s) && s.dpc == Idle && !Saving(s)
    ensures s.info.ready
  {
  }

  /** As long as somebody is at work, some party can make a step, and so that swaps stay apart. */
  lemma SomebodyMoves(s: State) returns (step: Step)
    requires Inv(s) && OneSwapDue(s) && !AtRest(s)
    ensures AtWork(step) && Apply(s, step) != s && OneSwapDue(Apply(s, step))
  {
    InvShaped(s);
    if s.dpc != Idle || s.queued {
      step := DpcStep;
      DpcMovesExactly(s);
      NoPassStays(s, step);
    } else if Saving(s) {
      step := WriterStep;
      WriterMovesExactly(s);
      NoPassStays(s, step);
    } else {
      ReadyAgain(s);
      var f :| 0 <= f < |s.flushers| && s.flushers[f].at != Resting;
      if Passing(s) {
        f :| 0 <= f < |s.flushers| && s.flushers[f].at == Passed;
      }
      step := FlusherStep(f);
      FlusherMovesExactly(s, f);
      if Passes(s, step) {
        PassesAlone(s, f);
      } else {
        NoPassStays(s, step);
      }
    }
  }

  lemma PassesAlone(s: State, f: nat)
    requires !Passing(s) && !s.queued && s.dpc == Idle && f < |s.flushers| && s.flushers[f].at == Waiting
    ensures OneSwapDue(FlusherNext(s, f))
  {
    var t := FlusherNext(s, f);
    forall g | 0 <= g < |t.flushers| && g != f ensures t.flushers[g].at != Passed {
      assert t.flushers[g] == s.flushers[g];
    }
  }

  // ----- Work runs out -----

  /** What a queued DPC and the save it may start cost at most. */
  function PassCost(capacity: nat): nat { capacity + 20 }

  function Times(k: nat, n: nat): nat { if k == 0 then 0 else n + Times(k - 1, n) }

  function FlusherWork(f: Flusher, capacity: nat): nat {
    match f.at
    case Resting => 0
    case Clearing => 1
    case Flushing => 2 + Times(f.passesLeft, PassCost(capacity) + 3)
    case Passed => 3 + PassCost(capacity) + Times(f.passesLeft, PassCost(capacity) + 3)
    case Waiting => 4 + PassCost(capacity) + Times(f.passesLeft, PassCost(capacity) + 3)
  }

  function FlushersWork(fs: seq<Flusher>, capacity: nat): nat {
    if fs == [] then 0 else FlusherWork(fs[0], capacity) + FlushersWork(fs[1..], capacity)
  }

  function DpcWork(d: Dpc, capacity: nat): nat {
    if d == Idle then 0 else 11 - Point(d) + if Early(d) then capacity + 6 else 0
  }

  function WriterWork(w: Writer, capacity: nat): nat {
    match w
    case Sleeping => 0
    case Sizing => capacity + 3
    case Copying(_, size, done) => if done < size then size - done + 2 else 2
    case Finishing => 1
  }

  /** An upper bound for the steps still to be made by those at work. */
  function Work(s: State): nat {
    var capacity := |s.bytes.first|;
    FlushersWork(s.flushers, capacity) + (if s.queued then PassCost(capacity) else 0) + DpcWork(s.dpc, capacity)
    + WriterWork(s.writer, capacity) + if s.info.initiate then capacity + 4 else 0
  }

  lemma {:induction false} OneFlusherLess(fs: seq<Flusher>, f: nat, g: Flusher, capacity: nat)
    requires f < |fs|
    ensures FlushersWork(fs[f := g], capacity)
         == FlushersWork(fs, capacity) - FlusherWork(fs[f], capacity) + FlusherWork(g, capacity)
  {
    if f == 0 {
      assert fs[f := g][1..] == fs[1..];
    } else {
      assert fs[f := g][1..] == fs[1..][f - 1 := g];
      OneFlusherLess(fs[1..], f - 1, g, capacity);
    }
  }

  function QueueWork(queued: bool, capacity: nat): nat { if queued then PassCost(capacity) else 0 }

  /** What a thread's step takes from its own work is more than what it adds to the queue. */
  lemma OwnWorkLowers(s: State, f: nat, capacity: nat)
    requires f < |s.flushers| && FlusherNext(s, f) != s
    ensures |FlusherNext(s, f).flushers| == |s.flushers|
    ensures FlusherWork(FlusherNext(s, f).flushers[f], capacity) + QueueWork(FlusherNext(s, f).queued, capacity)
          < FlusherWork(s.flushers[f], capacity) + QueueWork(s.queued, capacity)
  {
    FlusherMovesExactly(s, f);
    match s.flushers[f].at { case Waiting => case Passed => case Flushing => case Clearing => }
  }

  lemma FlusherLowers(s: State, f: nat)
    requires f < |s.flushers| && FlusherNext(s, f) != s
    ensures Work(FlusherNext(s, f)) < Work(s)
  {
    var t, capacity := FlusherNext(s, f), |s.bytes.first|;
    OwnWorkLowers(s, f, capacity);
    OneFlusherLess(s.flushers, f, t.flushers[f], capacity);
    assert t.flushers == s.flushers[f := t.flushers[f]];
    assert t.bytes == s.bytes && t.dpc == s.dpc && t.writer == s.writer && t.info == s.info;
    hide FlushersWork, FlusherWork, DpcWork, WriterWork, FlusherNext, PassCost;
  }

  lemma DpcLowers(s: State)
    requires Shaped(s) && DpcNext(s) != s
    ensures Work(DpcNext(s)) < Work(s)
  {
    DpcShaped(s);
    hide FlushersWork, WriterWork, TableOffset, Shaped;
    match s.dpc
    case Idle => case Check => case Disable => case ClearReady => case SwapBuffers => case SwapHeaders =>
        case SwapTables =>
    case Capture => case Initiate => case Reset => case Enable =>
  }

  lemma WriterLowers(s: State)
    requires Shaped(s) && WriterNext(s) != s
    ensures Work(WriterNext(s)) < Work(s)
  {
    hide FlushersWork, DpcWork;
    match s.writer { case Sleeping => case Sizing => case Copying(_, _, _) => case Finishing => }
  }

  /** Every step of a party at work lowers the bound, whether or not swaps are kept apart. */
  lemma WorkLowers(s: State, step: Step)
    requires Shaped(s) && AtWork(step) && Apply(s, step) != s
    ensures Work(Apply(s, step)) < Work(s)
  {
    hide Work;
    match step
    case DpcStep => DpcLowers(s);
    case WriterStep => WriterLowers(s);
    case FlusherStep(f) => FlusherLowers(s, f);
  }

  /** A run of parties at work in which every step changes something. */
  predicate Busy(s: State, steps: seq<Step>)
    requires Shaped(s)
    decreases |steps|
  {
    steps == [] ||
    (AtWork(steps[0]) && Apply(s, steps[0]) != s
     && (StaysShaped(s, steps[0]); Busy(Apply(s, steps[0]), steps[1..])))
  }

  /** Whoever moves, and in whatever order, the work is done after a bounded number of steps. */
  lemma {:induction false} BusyEnds(s: State, steps: seq<Step>)
    requires Shaped(s) && Busy(s, steps)
    ensures |steps| <= Work(s)
    decreases |steps|
  {
    hide Work, Apply, Shaped;
    if steps == [] {
    } else {
      StaysShaped(s, steps[0]);
      WorkLowers(s, steps[0]);
      BusyEnds(Apply(s, steps[0]), steps[1..]);
    }
  }

  /** From every state the parties can come to rest, with swaps kept apart: all calls return, and what was recorded is
      saved except for what the hardware's buffer still holds. */
  lemma {:induction false} ComesToRest(s: State) returns (steps: seq<Step>)
    requires Inv(s) && OneSwapDue(s)
    ensures Shaped(s) && SwapsApart(s, steps) && Busy(s, steps) && AtRest(From(s, steps))
    ensures var t := From(s, steps); t.info.ready && t.bytes.saved + Active(t) == t.bytes.recorded
    decreases Work(s)
  {
    InvShaped(s);
    hide OneSwapDue, Apply, Work;
    if AtRest(s) {
      steps := [];
      RestIsSaved(s);
    } else {
      var step := SomebodyMoves(s);
      StepKeeps(s, step) by { DueApart(s); }
      StaysShaped(s, step);
      hide Inv, AtRest;
      WorkLowers(s, step);
      var rest := ComesToRest(Apply(s, step));
      steps := [step] + rest;
      assert steps[1..] == rest;
    }
  }

  lemma RestIsSaved(s: State)
    requires Inv(s) && AtRest(s)
    ensures s.info.ready && s.bytes.saved + Active(s) == s.bytes.recorded
  {
    assert Pending(s) == [];
  }

  /** The same for every run: nobody can be left waiting for ever. */
  lemma RunsComeToRest(n: nat, capacity: nat, before: seq<Step>) returns (steps: seq<Step>)
    requires SwapsApart(Init(n, capacity), before)
    ensures var s := Run(n, capacity, before);
            && SwapsApart(s, steps) && Busy(s, steps) && AtRest(From(s, steps)) && From(s, steps).info.ready
            && From(s, steps).bytes.saved + Active(From(s, steps)) == From(s, steps).bytes.recorded
  {
    InitInv(n, capacity);
    RunKeeps(Init(n, capacity), before);
    steps := ComesToRest(Run(n, capacity, before));
  }
}
