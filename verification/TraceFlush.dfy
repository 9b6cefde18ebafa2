/** What a call of ultimap2_flushBuffers (DBKKernel/ultimap2.c) promises: when it returns, everything recorded before
    it has been saved. It holds exactly when the call cannot be overtaken by one that clears flushallbuffers. */
module TraceFlush {
  import opened TraceBuffers

  /** Flusher g is in a call that makes no further pass, and nothing holds it up before it clears flushallbuffers. */
  predicate Ending(s: State, g: nat) {
    && g < |s.flushers|
    && (s.flushers[g].at == Clearing ||
        (s.flushers[g].at == Flushing && s.flushers[g].all && s.flushers[g].passesLeft == 0
         && !s.queued && !Early(s.dpc)))
  }

  /** The next DPC swaps the buffers whatever flushallbuffers says, however much is recorded until then. */
  predicate Forced(s: State) {
    s.info.interrupted || forall p | s.hw.pos <= p <= |s.bytes.first| :: TableOffset(p, |s.bytes.first|) >= 2
  }

  /** There is something to flush that only flushallbuffers gets flushed, and another call is about to clear it. */
  predicate Overtaken(s: State) {
    && (s.dpc == Idle || s.dpc == Check) && s.hw.pos > 0 && !Forced(s)
    && exists g | 0 <= g < |s.flushers| :: Ending(s, g)
  }

  /** The first `mark` bytes recorded are saved or with the writer. */
  predicate Handed(s: State, mark: nat)
    requires Shaped(s)
  {
    mark <= |s.bytes.saved| + |Pending(s)|
  }

  /** The bytes not handed over yet will be by the next DPC to come to a decision. */
  predicate WillSwap(s: State) {
    || 2 <= Point(s.dpc) <= 8 || Forced(s)
    || (s.flushAll && forall g | 0 <= g < |s.flushers| :: !Ending(s, g))
  }

  /** Flusher f's call, which began when `mark` bytes had been recorded: they are handed over by the end of its first
      pass at the latest, and saved when its second one begins. */
  predicate InCall(s: State, f: nat, mark: nat)
    requires Shaped(s)
  {
    && f < |s.flushers| && mark <= |s.bytes.recorded|
    && var me := s.flushers[f];
       && me.at != Resting && me.all && (me.at == Clearing ==> me.passesLeft == 0)
       && (me.passesLeft == 0 ==> Handed(s, mark))
       && (me.passesLeft == 0 && me.at != Waiting ==> mark <= |s.bytes.saved|)
       && (!Handed(s, mark) ==> WillSwap(s) && !(me.at == Flushing && !s.queued && !Early(s.dpc)))
  }

  /** What was handed over stays so, and everything is once the DPC has reset the hardware. */
  lemma StaysHanded(s: State, step: Step, mark: nat)
    requires Inv(s) && OneSwapDue(s) && mark <= |s.bytes.recorded|
    ensures Shaped(Apply(s, step)) && |s.bytes.saved| <= |Apply(s, step).bytes.saved|
    ensures s.bytes.recorded <= Apply(s, step).bytes.recorded
    ensures Handed(s, mark) || (s.dpc == Initiate && step == DpcStep) ==> Handed(Apply(s, step), mark)
    ensures s.dpc == Reset || s.dpc == Enable || s.hw.pos == 0 ==> Handed(s, mark)
  {
    StaysShaped(s, step);
    if s.dpc == Reset || s.dpc == Enable || s.hw.pos == 0 {
      AllHanded(s);
    }
    hide Passing, Phases, Pointers, Active, OneSwapDue, TableOffset, Shaped;
    hide DpcNext, WriterNext, FlusherNext, Beginning;
    match step
    case Record(b) => RecordingKeeps(s, b);
    case Interrupt => FlushersOnly(s, Apply(s, step)) by { PhasesSame(s); }
    case DpcStep =>
      DpcHandsOver(s);
      var t := DpcNext(s);
      assert s.dpc == Initiate ==> |t.bytes.saved + Pending(t)| == |t.bytes.recorded|;
    case WriterStep =>
      WriterMoves(s);
      var t := WriterNext(s);
      assert |t.bytes.saved + Pending(t)| == |s.bytes.saved + Pending(s)|;
    case Begin(f, all) =>
      if f < |s.flushers| {
        BeginningKeeps(s, f, all);
        FlusherFrame(s, step);
      }
    case FlusherStep(f) =>
      if f < |s.flushers| {
        DueApart(s);
        FlusherKeeps(s, f);
        FlusherFrame(s, step);
      }
  }

  lemma PhasesSame(s: State)
    requires Phases(s)
    ensures Phases(s.(info := s.info.(interrupted := true)))
  {
    assert Passing(s.(info := s.info.(interrupted := true))) == Passing(s);
  }

  lemma AllHanded(s: State)
    requires Inv(s) && (s.dpc == Reset || s.dpc == Enable || s.hw.pos == 0)
    ensures |s.bytes.saved| + |Pending(s)| == |s.bytes.recorded|
  {
    assert Active(s) == [];
    assert |s.bytes.saved + Pending(s) + Active(s)| == |s.bytes.recorded|;
  }

  /** As long as bytes are not handed over, the next swap stays certain. */
  lemma StaysWillSwap(s: State, step: Step, mark: nat)
    requires Inv(s) && OneSwapDue(s) && mark <= |s.bytes.recorded| && WillSwap(s)
    requires !Handed(s, mark) && Shaped(Apply(s, step)) && !Handed(Apply(s, step), mark)
    ensures WillSwap(Apply(s, step))
    ensures Early(s.dpc) ==> Early(Apply(s, step).dpc)
    ensures s.queued ==> Apply(s, step).queued || Early(Apply(s, step).dpc)
  {
    StaysHanded(s, step, mark);
    hide Handed, Inv, Shaped, OneSwapDue;
    if step == DpcStep {
      DpcWillSwap(s);
    } else if OfFlusher(step) && step.f < |s.flushers| {
      FlusherWillSwap(s, step);
    } else {
      OthersWillSwap(s, step);
    }
  }

  lemma DpcWillSwap(s: State)
    requires WillSwap(s) && s.hw.pos <= |s.bytes.first| && s.dpc != Initiate && s.dpc != Reset && s.dpc != Enable
    ensures WillSwap(DpcNext(s)) && (Early(s.dpc) ==> Early(DpcNext(s).dpc))
    ensures s.queued ==> DpcNext(s).queued || Early(DpcNext(s).dpc)
  {
    var t := DpcNext(s);
    assert Forced(s) ==> s.info.interrupted || TableOffset(s.hw.pos, |s.bytes.first|) >= 2;
    assert s.dpc == Idle ==> t.hw == s.hw && t.bytes == s.bytes && t.info == s.info;
    hide TableOffset;
    match s.dpc {
      case Idle =>
        assert Forced(s) ==> Forced(t);
        forall g | 0 <= g < |t.flushers| && !Ending(s, g) ensures !Ending(t, g) {
        }
      case Check => case Disable => case ClearReady => case SwapBuffers => case SwapHeaders =>
      case SwapTables => case Capture =>
    }
  }

  lemma OthersWillSwap(s: State, step: Step)
    requires Shaped(s) && WillSwap(s) && step != DpcStep && (OfFlusher(step) ==> step.f >= |s.flushers|)
    ensures WillSwap(Apply(s, step)) && Apply(s, step).dpc == s.dpc && Apply(s, step).queued == s.queued
  {
    var t := Apply(s, step);
    OthersFrame(s, step);
    assert t.dpc == s.dpc && t.queued == s.queued && t.flushers == s.flushers && t.flushAll == s.flushAll;
    assert t.hw.pos >= s.hw.pos && |t.bytes.first| == |s.bytes.first| && (s.info.interrupted ==> t.info.interrupted);
    hide TableOffset, Apply;
    assert Forced(s) ==> Forced(t);
    forall g | 0 <= g < |t.flushers| && !Ending(s, g) ensures !Ending(t, g) {
    }
  }

  lemma FlusherWillSwap(s: State, step: Step)
    requires Shaped(s) && WillSwap(s) && OfFlusher(step) && step.f < |s.flushers|
    ensures var t := Apply(s, step); WillSwap(t) && t.dpc == s.dpc && (s.queued ==> t.queued)
  {
    var t := Apply(s, step);
    FlusherFrame(s, step);
    hide TableOffset;
    assert Forced(s) ==> Forced(t);
    forall g | 0 <= g < |t.flushers| && !Ending(s, g) && (s.flushers[g] == t.flushers[g] || g == step.f)
      ensures !Ending(t, g)
    {
      if g == step.f {
        match s.flushers[g].at { case Resting => case Waiting => case Passed => case Flushing => case Clearing => }
      }
    }
    assert (forall g | 0 <= g < |s.flushers| :: !Ending(s, g)) ==> forall g | 0 <= g < |t.flushers| :: !Ending(t, g);
    assert !Ending(s, step.f) && s.flushAll ==> t.flushAll;
  }

  /** Flusher f's own step in its call. */
  lemma OwnCallStays(s: State, f: nat, mark: nat)
    requires Inv(s) && OneSwapDue(s) && InCall(s, f, mark)
    ensures var t := FlusherNext(s, f);
            && Shaped(t) && |t.flushers| == |s.flushers|
            && (if t.flushers[f].at == Resting then mark <= |t.bytes.saved| else InCall(t, f, mark))
  {
    var t := FlusherNext(s, f);
    assert t == Apply(s, FlusherStep(f));
    StaysHanded(s, FlusherStep(f), mark);
    if !Handed(s, mark) && !Handed(t, mark) {
      StaysWillSwap(s, FlusherStep(f), mark);
    }
    assert t.bytes == s.bytes && t.dpc == s.dpc;
    assert s.info.ready ==> Pending(s) == [];
    hide Pending, Active, Conserved, Pointers, WillSwap, Passing;
    match s.flushers[f].at { case Resting => case Waiting => case Passed => case Flushing => case Clearing => }
  }

  lemma CallStays(s: State, step: Step, f: nat, mark: nat)
    requires Inv(s) && OneSwapDue(s) && InCall(s, f, mark)
    ensures var t := Apply(s, step);
            && Shaped(t) && |t.flushers| == |s.flushers|
            && (if t.flushers[f].at == Resting then mark <= |t.bytes.saved| else InCall(t, f, mark))
  {
    if step == FlusherStep(f) {
      OwnCallStays(s, f, mark);
    } else {
      StaysHanded(s, step, mark);
      StaysShaped(s, step);
      var t := Apply(s, step);
      if OfFlusher(step) && step.f < |s.flushers| {
        FlusherFrame(s, step);
        assert t.flushers[f] == s.flushers[f];
      } else {
        OthersFrame(s, step);
      }
      if !Handed(s, mark) && !Handed(t, mark) {
        StaysWillSwap(s, step, mark);
      }
      hide Handed, WillSwap, Inv, OneSwapDue, Apply, Shaped, Early;
    }
  }

  /** The run ends with the step with which flusher f's call returns. */
  predicate Returns(s: State, f: nat, during: seq<Step>)
    requires Shaped(s)
    decreases |during|
  {
    && f < |s.flushers|
    && (if during == [] then s.flushers[f].at == Resting
        else
          s.flushers[f].at != Resting
          && (StaysShaped(s, during[0]); Returns(Apply(s, during[0]), f, during[1..])))
  }

  lemma {:induction false} RecordedGrows(s: State, steps: seq<Step>)
    requires Inv(s) && SwapsApart(s, steps)
    ensures s.bytes.recorded <= From(s, steps).bytes.recorded
    decreases |steps|
  {
    hide Inv, Passing, OneSwapDue, Apply;
    if steps == [] {
    } else {
      InvShaped(s);
      StepKeeps(s, steps[0]) by { DueApart(s); }
      StaysHanded(s, steps[0], 0);
      RecordedGrows(Apply(s, steps[0]), steps[1..]);
    }
  }

  lemma {:induction false} CallSaves(s: State, f: nat, mark: nat, during: seq<Step>)
    requires Inv(s) && SwapsApart(s, during) && Returns(s, f, during)
    requires if during == [] then mark <= |s.bytes.saved| else InCall(s, f, mark)
    ensures mark <= |From(s, during).bytes.saved|
    decreases |during|
  {
    hide Inv, Passing, OneSwapDue, Apply, InCall;
    if during == [] {
    } else {
      InvShaped(s);
      StepKeeps(s, during[0]) by { DueApart(s); }
      CallStays(s, during[0], f, mark);
      CallSaves(Apply(s, during[0]), f, mark, during[1..]);
    }
  }

  /** A call that nobody is about to overtake begins with its bytes as good as handed over. */
  lemma CallBegins(s: State, f: nat)
    requires Inv(s) && OneSwapDue(s) && f < |s.flushers| && s.flushers[f].at == Resting && !Overtaken(s)
    ensures var t := Apply(s, Begin(f, true));
            Inv(t) && InCall(t, f, |s.bytes.recorded|)
  {
    var t := Apply(s, Begin(f, true));
    BeginningKeeps(s, f, true);
    assert t == s.(flushAll := true, flushers := s.flushers[f := Flusher(Waiting, true, 1)]);
    assert t.flushers[f] == Flusher(Waiting, true, 1);
    if !Handed(t, |s.bytes.recorded|) {
      StaysHanded(s, Interrupt, |s.bytes.recorded|);
      assert !(s.dpc == Reset || s.dpc == Enable || s.hw.pos == 0);
      hide Handed, Inv, TableOffset;
      assert WillSwap(t) by {
        if !(2 <= Point(s.dpc) <= 8) && !Forced(s) {
          forall g | 0 <= g < |t.flushers| ensures !Ending(t, g) {
            assert g != f ==> t.flushers[g] == s.flushers[g];
            assert !Ending(s, g);
          }
        } else {
          assert Forced(s) ==> Forced(t);
        }
      }
    }
  }

  /** A run in which swaps stay apart ends with the return of flusher f's call, and `saved` bytes in the file. */
  predicate Misses(s: State, f: nat, during: seq<Step>, saved: nat)
    requires Shaped(s)
  {
    SwapsApart(s, during) && Returns(s, f, during) && |From(s, during).bytes.saved| == saved
  }

  lemma Earlier(s: State, step: Step, f: nat, rest: seq<Step>, saved: nat) returns (during: seq<Step>)
    requires Shaped(s) && OneSwapDue(s) && f < |s.flushers| && s.flushers[f].at != Resting
    requires Shaped(Apply(s, step)) && Misses(Apply(s, step), f, rest, saved)
    ensures Misses(s, f, during, saved)
  {
    during := [step] + rest;
    assert during[1..] == rest;
  }

  /** The DPC declines to swap. */
  predicate Lazy(s: State) {
    !s.flushAll && !s.info.interrupted && TableOffset(s.hw.pos, |s.bytes.first|) < 2
  }

  /** Nothing is queued, saving or past the wait. */
  predicate Calm(s: State) {
    s.dpc == Idle && !s.queued && s.info.ready && !Passing(s)
  }

  /** A queued DPC runs and declines. */
  lemma Declines(s: State, f: nat, rest: seq<Step>, saved: nat) returns (during: seq<Step>)
    requires Shaped(s) && Lazy(s) && s.queued && s.dpc == Idle && !Passing(s)
    requires f < |s.flushers| && s.flushers[f].at != Resting
    requires Misses(s.(queued := false), f, rest, saved)
    ensures Misses(s, f, during, saved)
  {
    var t := s.(queued := false, dpc := Check);
    assert Passing(t) == Passing(s);
    assert OneSwapDue(s) && OneSwapDue(t) by {
      OneDueIfNone(s);
      OneDueIfNone(t);
    }
    hide TableOffset, OneSwapDue, Passing, Misses, Shaped;
    during := Earlier(t, DpcStep, f, rest, saved);
    during := Earlier(s, DpcStep, f, during, saved);
  }

  lemma OneDueIfNone(s: State)
    requires !Passing(s)
    ensures OneSwapDue(s)
  {
  }

  lemma NobodyElse(s: State, h: nat, t: State)
    requires OneSwapDue(s) && h < |s.flushers| && s.flushers[h].at == Passed
    requires t.flushers == s.flushers[h := s.flushers[h].(at := Flushing)]
    ensures !Passing(t)
  {
    forall g | 0 <= g < |t.flushers| ensures t.flushers[g].at != Passed {
      assert g != h ==> t.flushers[g] == s.flushers[g];
    }
  }

  /** Thread h, past the wait, queues the DPC, which declines. */
  lemma QueuesInVain(s: State, h: nat, f: nat, rest: seq<Step>, saved: nat) returns (during: seq<Step>)
    requires Shaped(s) && Lazy(s) && OneSwapDue(s) && s.dpc == Idle && !s.queued
    requires h < |s.flushers| && s.flushers[h].at == Passed && f < |s.flushers| && s.flushers[f].at != Resting
    requires Misses(s.(flushers := s.flushers[h := s.flushers[h].(at := Flushing)]), f, rest, saved)
    ensures Misses(s, f, during, saved)
  {
    var t := s.(queued := true, flushers := s.flushers[h := s.flushers[h].(at := Flushing)]);
    NobodyElse(s, h, t);
    assert t.(queued := false) == s.(flushers := t.flushers);
    hide TableOffset, OneSwapDue, Passing, Misses;
    during := Declines(t, f, rest, saved);
    during := Earlier(s, FlusherStep(h), f, during, saved);
  }

  /** A whole pass of flusher f in vain. */
  lemma PassesInVain(s: State, f: nat, rest: seq<Step>, saved: nat) returns (during: seq<Step>)
    requires Shaped(s) && Lazy(s) && Calm(s) && f < |s.flushers| && s.flushers[f].at == Waiting
    requires Misses(s.(flushers := s.flushers[f := s.flushers[f].(at := Flushing)]), f, rest, saved)
    ensures Misses(s, f, during, saved)
  {
    var t := s.(flushers := s.flushers[f := s.flushers[f].(at := Passed)]);
    assert OneSwapDue(t) by {
      forall g | 0 <= g < |t.flushers| && t.flushers[g].at == Passed ensures g == f || s.flushers[g].at == Passed {
      }
    }
    OneDueIfNone(s);
    assert t.flushers[f := t.flushers[f].(at := Flushing)] == s.flushers[f := s.flushers[f].(at := Flushing)];
    hide TableOffset, OneSwapDue, Passing, Misses, Lazy;
    during := QueuesInVain(t, f, f, rest, saved) by { LazyAlike(s, t); }
    during := Earlier(s, FlusherStep(f), f, during, saved);
  }

  lemma LazyAlike(s: State, t: State)
    requires Lazy(s) && t.flushAll == s.flushAll && t.info == s.info && t.hw == s.hw && t.bytes == s.bytes
    ensures Lazy(t)
  {
  }

  lemma Moved(s: State, f: nat, me: Flusher) returns (t: State)
    requires Shaped(s) && Lazy(s) && Calm(s) && f < |s.flushers| && me.at != Passed
    ensures t == s.(flushers := s.flushers[f := me]) && Shaped(t) && Lazy(t) && Calm(t) && OneSwapDue(t)
  {
    t := s.(flushers := s.flushers[f := me]);
    forall g | 0 <= g < |t.flushers| ensures t.flushers[g].at != Passed {
      assert g != f ==> s.flushers[g].at != Passed;
    }
  }

  /** The second pass of a call, and its return. */
  lemma LastPassInVain(s: State, f: nat) returns (during: seq<Step>)
    requires Shaped(s) && Lazy(s) && Calm(s) && f < |s.flushers| && s.flushers[f] == Flusher(Waiting, true, 0)
    ensures Misses(s, f, during, |s.bytes.saved|)
  {
    var k := |s.bytes.saved|;
    var t3 := Moved(s, f, Flusher(Flushing, true, 0));
    var t4 := Moved(s, f, Flusher(Clearing, true, 0));
    var t5 := Moved(s, f, Flusher(Resting, true, 0));
    assert t5 == Apply(t4, FlusherStep(f)) && t4 == Apply(t3, FlusherStep(f));
    assert Misses(t5, f, [], k);
    hide TableOffset, OneSwapDue, Passing, Misses, Lazy, Shaped, Apply;
    during := Earlier(t4, FlusherStep(f), f, [], k);
    during := Earlier(t3, FlusherStep(f), f, during, k);
    during := PassesInVain(s, f, during, k);
  }

  /** With nobody in its way, a call whose two DPCs decline returns without anything saved. */
  lemma TwoPassesInVain(s: State, f: nat) returns (during: seq<Step>)
    requires Shaped(s) && Lazy(s) && Calm(s) && f < |s.flushers| && s.flushers[f] == Flusher(Waiting, true, 1)
    ensures Misses(s, f, during, |s.bytes.saved|)
  {
    var t1 := Moved(s, f, Flusher(Flushing, true, 1));
    var t2 := Moved(s, f, Flusher(Waiting, true, 0));
    assert t2 == Apply(t1, FlusherStep(f));
    hide TableOffset, OneSwapDue, Passing, Misses, Lazy, Shaped, Apply;
    during := LastPassInVain(t2, f);
    during := Earlier(t1, FlusherStep(f), f, during, |s.bytes.saved|);
    during := PassesInVain(s, f, during, |s.bytes.saved|);
  }

  /** A thread that is past the wait, or has queued the DPC, goes first; the DPC declines. */
  lemma OthersInVain(s: State, f: nat) returns (during: seq<Step>)
    requires Inv(s) && Lazy(s) && OneSwapDue(s) && s.dpc == Idle && s.info.ready
    requires f < |s.flushers| && s.flushers[f] == Flusher(Waiting, true, 1)
    ensures Misses(s, f, during, |s.bytes.saved|)
  {
    assert Shaped(s);
    hide TableOffset, Misses, Inv, Shaped;
    if s.queued {
      var t := s.(queued := false);
      assert Passing(t) == Passing(s);
      assert Shaped(t) by { ShapedAlike(s, t); }
      during := TwoPassesInVain(t, f);
      during := Declines(s, f, during, |s.bytes.saved|);
    } else if Passing(s) {
      var h :| 0 <= h < |s.flushers| && s.flushers[h].at == Passed;
      var t := s.(flushers := s.flushers[h := s.flushers[h].(at := Flushing)]);
      NobodyElse(s, h, t);
      assert Shaped(t) by { ShapedAlike(s, t); }
      during := TwoPassesInVain(t, f);
      during := QueuesInVain(s, h, f, during, |s.bytes.saved|);
    } else {
      during := TwoPassesInVain(s, f);
    }
  }

  lemma ShapedAlike(s: State, t: State)
    requires Shaped(s) && t.bytes == s.bytes && t.hw == s.hw && t.info == s.info && t.writer == s.writer
    ensures Shaped(t)
  {
  }

  /** How many steps the writer has before it sleeps. */
  function WriterRank(s: State): nat {
    match s.writer
    case Sleeping => if s.info.initiate then s.info.saveCount + 4 else 0
    case Sizing => s.info.saveCount + 3
    case Copying(_, size, done) => if done < size then size - done + 2 else 2
    case Finishing => 1
  }

  lemma WriterAdvances(s: State)
    requires Inv(s) && Saving(s)
    ensures Shaped(WriterNext(s)) && WriterRank(WriterNext(s)) < WriterRank(s)
    ensures |WriterNext(s).bytes.saved| + |Pending(WriterNext(s))| == |s.bytes.saved| + |Pending(s)|
    ensures WriterNext(s).hw == s.hw && WriterNext(s).dpc == s.dpc && WriterNext(s).flushAll == s.flushAll
    ensures WriterNext(s).flushers == s.flushers && WriterNext(s).info.interrupted == s.info.interrupted
    ensures |WriterNext(s).bytes.first| == |s.bytes.first|
  {
    WriterMoves(s);
    assert |WriterNext(s).bytes.saved + Pending(WriterNext(s))| == |s.bytes.saved + Pending(s)|;
    hide Pending, Active, Conserved, Passing, Pointers;
    match s.writer { case Sleeping => case Sizing => case Copying(_, _, _) => case Finishing => }
  }

  /** The writer finishes what was handed over before. */
  lemma {:induction false} WriterFinishes(s: State, f: nat) returns (during: seq<Step>)
    requires Inv(s) && Lazy(s) && OneSwapDue(s) && s.dpc == Idle
    requires f < |s.flushers| && s.flushers[f] == Flusher(Waiting, true, 1)
    ensures Misses(s, f, during, |s.bytes.saved| + |Pending(s)|)
    decreases WriterRank(s)
  {
    hide Misses, TableOffset, WriterNext, Conserved, Pointers, Shaped, Passing;
    if s.info.ready {
      assert Pending(s) == [];
      during := OthersInVain(s, f);
    } else {
      var t := Apply(s, WriterStep);
      WriterAdvances(s);
      StepKeeps(s, WriterStep);
      NoPassStays(s, WriterStep);
      hide Inv, Phases, Pending, WriterRank, OneSwapDue, Apply;
      during := WriterFinishes(t, f);
      InvShaped(s);
      InvShaped(t);
      during := Earlier(s, WriterStep, f, during, |t.bytes.saved| + |Pending(t)|);
    }
  }

  /** A DPC that has not come to its decision declines. */
  lemma CheckInVain(s: State, f: nat) returns (during: seq<Step>)
    requires Inv(s) && Lazy(s) && OneSwapDue(s) && (s.dpc == Idle || s.dpc == Check)
    requires f < |s.flushers| && s.flushers[f] == Flusher(Waiting, true, 1)
    ensures Misses(s, f, during, |s.bytes.saved| + |Pending(s)|)
  {
    hide Misses;
    if s.dpc == Idle {
      during := WriterFinishes(s, f);
    } else {
      var t := s.(dpc := Idle);
      assert Apply(s, DpcStep) == t;
      StepKeeps(s, DpcStep);
      DpcHandsOver(s);
      NoPassStays(s, DpcStep);
      hide Inv, Phases, OneSwapDue, TableOffset, Pending, Passing;
      during := WriterFinishes(t, f) by { LazyAlike(s, t); }
      InvShaped(s);
      InvShaped(t);
      during := Earlier(s, DpcStep, f, during, |s.bytes.saved| + |Pending(s)|);
    }
  }

  lemma OneMore(s: State)
    requires Inv(s) && OneSwapDue(s) && s.hw.enabled && s.hw.pos < |s.bytes.first|
    ensures var t := Recording(s, 0);
            && Apply(s, Record(0)) == t && Inv(t) && OneSwapDue(t) && Shaped(t) && Pending(t) == Pending(s)
            && t == s.(hw := s.hw.(pos := s.hw.pos + 1), bytes := t.bytes)
            && |t.bytes.first| == |s.bytes.first| && t.bytes.saved == s.bytes.saved
  {
    RecordingKeeps(s, 0);
    hide Pending, Active, Conserved, Passing, Pointers;
    NoPassStays(s, Record(0));
    InvShaped(Recording(s, 0));
    hide OneSwapDue;
  }

  /** So much is recorded that the DPC declines. */
  lemma {:induction false} RecordsMore(s: State, f: nat, p: nat) returns (during: seq<Step>)
    requires Inv(s) && OneSwapDue(s) && (s.dpc == Idle || s.dpc == Check) && s.hw.enabled
    requires !s.flushAll && !s.info.interrupted
    requires s.hw.pos <= p <= |s.bytes.first| && TableOffset(p, |s.bytes.first|) < 2
    requires f < |s.flushers| && s.flushers[f] == Flusher(Waiting, true, 1)
    ensures Misses(s, f, during, |s.bytes.saved| + |Pending(s)|)
    decreases p - s.hw.pos
  {
    hide Inv, Misses, TableOffset, OneSwapDue, Pending;
    InvShaped(s);
    if s.hw.pos == p {
      during := CheckInVain(s, f);
    } else {
      var t := Recording(s, 0);
      OneMore(s);
      hide Recording, Shaped;
      during := RecordsMore(t, f, p);
      during := Earlier(s, Record(0), f, during, |s.bytes.saved| + |Pending(s)|);
    }
  }

  /** What the steps of a call that is about to end change. */
  lemma EndingStep(s: State, f: nat, g: nat)
    requires Inv(s) && OneSwapDue(s) && (s.dpc == Idle || s.dpc == Check)
    requires f < |s.flushers| && s.flushers[f].at == Waiting && Ending(s, g)
    ensures var t := FlusherNext(s, g);
            && Inv(t) && OneSwapDue(t) && Pending(t) == Pending(s) && t.bytes == s.bytes && t.hw == s.hw
            && s.hw.enabled && t.dpc == s.dpc && t.info == s.info
            && |t.flushers| == |s.flushers| && t.flushers[f] == s.flushers[f]
            && (if s.flushers[g].at == Clearing then !t.flushAll else t.flushers[g].at == Clearing)
  {
    DueApart(s);
    FlusherKeeps(s, g);
    hide Pending, Conserved, Pointers, Passing;
    NoPassStays(s, FlusherStep(g));
    FlusherFrame(s, FlusherStep(g));
    hide OneSwapDue, Inv;
  }

  /** The call that is about to end clears flushallbuffers. */
  lemma ClearsFirst(s: State, f: nat, g: nat, p: nat) returns (during: seq<Step>)
    requires Inv(s) && OneSwapDue(s) && (s.dpc == Idle || s.dpc == Check) && !s.info.interrupted
    requires s.hw.pos <= p <= |s.bytes.first| && TableOffset(p, |s.bytes.first|) < 2
    requires f < |s.flushers| && s.flushers[f] == Flusher(Waiting, true, 1) && Ending(s, g)
    ensures Misses(s, f, during, |s.bytes.saved| + |Pending(s)|)
    decreases s.flushers[g].at == Flushing
  {
    var t := FlusherNext(s, g);
    EndingStep(s, f, g);
    InvShaped(s);
    InvShaped(t);
    assert Ending(t, g) || s.flushers[g].at == Clearing;
    assert Apply(s, FlusherStep(g)) == t;
    hide Inv, Shaped, Pending, OneSwapDue, Misses, TableOffset, FlusherNext, Apply;
    if s.flushers[g].at == Clearing {
      during := RecordsMore(t, f, p);
    } else {
      during := ClearsFirst(t, f, g, p);
    }
    during := Earlier(s, FlusherStep(g), f, during, |s.bytes.saved| + |Pending(s)|);
  }

  /** A call that can be overtaken can return with something recorded before it missing from the file. */
  lemma OvertakenMisses(s: State, f: nat) returns (during: seq<Step>)
    requires Inv(s) && OneSwapDue(s) && f < |s.flushers| && s.flushers[f].at == Resting && Overtaken(s)
    ensures var t := Apply(s, Begin(f, true));
            Shaped(t) && SwapsApart(t, during) && Returns(t, f, during)
            && |From(t, during).bytes.saved| < |s.bytes.recorded|
  {
    var t := Apply(s, Begin(f, true));
    BeginningKeeps(s, f, true);
    NoPassStays(s, Begin(f, true));
    var p :| s.hw.pos <= p <= |s.bytes.first| && TableOffset(p, |s.bytes.first|) < 2;
    var g :| 0 <= g < |s.flushers| && Ending(s, g);
    assert t.flushers[g] == s.flushers[g] && Ending(t, g);
    assert |Active(s)| > 0 && |s.bytes.saved + Pending(s) + Active(s)| == |s.bytes.recorded|;
    hide Inv, OneSwapDue, TableOffset, Pending, Ending;
    during := ClearsFirst(t, f, g, p);
  }

  /** ultimap2_flushBuffers keeps its promise exactly when it cannot be overtaken: called after a run, it returns only
      when all that was recorded before is saved, whatever the other threads do as long as swaps stay apart, if and
      only if no other call is about to clear flushallbuffers with something left that depends on it. */
  lemma FlushSavesExactly(n: nat, capacity: nat, before: seq<Step>, f: nat)
    requires SwapsApart(Init(n, capacity), before)
    requires f < n && Run(n, capacity, before).flushers[f].at == Resting
    ensures var s := Run(n, capacity, before);
            var t := Apply(s, Begin(f, true));
            Shaped(t) &&
            ((forall during | SwapsApart(t, during) && Returns(t, f, during) ::
                s.bytes.recorded <= From(t, during).bytes.saved)
             <==> !Overtaken(s))
  {
    var s := Run(n, capacity, before);
    InitInv(n, capacity);
    RunKeeps(Init(n, capacity), before);
    StaysShaped(s, Begin(f, true));
    var t := Apply(s, Begin(f, true));
    hide Inv, OneSwapDue, SwapsApart, Returns, Run, Overtaken;
    if Overtaken(s) {
      var during := OvertakenMisses(s, f);
      assert SwapsApart(t, during) && Returns(t, f, during);
    } else {
      forall during | SwapsApart(t, during) && Returns(t, f, during)
        ensures s.bytes.recorded <= From(t, during).bytes.saved
      {
        CallIsKept(s, f, during);
      }
    }
  }

  lemma CallIsKept(s: State, f: nat, during: seq<Step>)
    requires Inv(s) && OneSwapDue(s) && f < |s.flushers| && s.flushers[f].at == Resting && !Overtaken(s)
    requires var t := Apply(s, Begin(f, true)); Shaped(t) && SwapsApart(t, during) && Returns(t, f, during)
    ensures s.bytes.recorded <= From(Apply(s, Begin(f, true)), during).bytes.saved
  {
    var t := Apply(s, Begin(f, true));
    assert t.bytes == s.bytes && t.flushers[f].at == Waiting;
    CallBegins(s, f);
    assert during != [];
    hide Inv, OneSwapDue, SwapsApart, Returns, Overtaken, InCall, Apply;
    CallSaves(t, f, |s.bytes.recorded|, during);
    RunKeeps(t, during);
    RecordedGrows(t, during);
    InvIntact(From(t, during));
  }

  // ----- How many passes a call makes -----

  /** How often thread f gets past the wait. */
  function PassesMade(s: State, f: nat, steps: seq<Step>): nat
    requires Shaped(s)
    decreases |steps|
  {
    if steps == [] then 0
    else
      StaysShaped(s, steps[0]);
      (if steps[0] == FlusherStep(f) && Passes(s, steps[0]) then 1 else 0)
      + PassesMade(Apply(s, steps[0]), f, steps[1..])
  }

  function PassesToMake(f: Flusher): nat {
    match f.at
    case Resting => 0
    case Clearing => 0
    case Waiting => f.passesLeft + 1
    case Passed => f.passesLeft
    case Flushing => f.passesLeft
  }

  lemma OneStepPasses(s: State, f: nat, step: Step)
    requires Shaped(s) && f < |s.flushers| && s.flushers[f].at != Resting
    ensures var t := Apply(s, step);
            && |t.flushers| == |s.flushers|
            && PassesToMake(s.flushers[f])
               == PassesToMake(t.flushers[f]) + if step == FlusherStep(f) && Passes(s, step) then 1 else 0
  {
    if OfFlusher(step) && step.f < |s.flushers| {
      FlusherFrame(s, step);
      if step.f == f {
        match s.flushers[f].at { case Waiting => case Passed => case Flushing => case Clearing => }
      }
    } else {
      OthersFrame(s, step);
    }
  }

  lemma {:induction false} CallPasses(s: State, f: nat, during: seq<Step>)
    requires Shaped(s) && Returns(s, f, during)
    ensures PassesMade(s, f, during) == PassesToMake(s.flushers[f])
    decreases |during|
  {
    hide Apply, Shaped, Passes;
    if during == [] {
    } else {
      StaysShaped(s, during[0]);
      OneStepPasses(s, f, during[0]);
      CallPasses(Apply(s, during[0]), f, during[1..]);
    }
  }

  /** bufferWriterThread makes one pass at a time, ultimap2_flushBuffers two, before it returns. */
  lemma OneOrTwoPasses(s: State, f: nat, all: bool, during: seq<Step>)
    requires Shaped(s) && f < |s.flushers| && s.flushers[f].at == Resting
    requires Shaped(Apply(s, Begin(f, all))) && Returns(Apply(s, Begin(f, all)), f, during)
    ensures PassesMade(Apply(s, Begin(f, all)), f, during) == if all then 2 else 1
  {
    CallPasses(Apply(s, Begin(f, all)), f, during);
  }

  // ----- A call that is overtaken -----

  lemma ApartStep(n: nat, capacity: nat, steps: seq<Step>, step: Step)
    requires SwapsApart(Init(n, capacity), steps) && OneSwapDue(Apply(Run(n, capacity, steps), step))
    ensures SwapsApart(Init(n, capacity), steps + [step])
    ensures Run(n, capacity, steps + [step]) == Apply(Run(n, capacity, steps), step)
  {
    hide Apply, OneSwapDue, Inv;
    RunStep(n, capacity, steps, step);
    InitInv(n, capacity);
    RunKeeps(Init(n, capacity), steps);
    ApartOne(Run(n, capacity, steps), step);
    FromThen(Init(n, capacity), steps, [step]);
  }

  lemma ApartOne(s: State, step: Step)
    requires Inv(s) && OneSwapDue(s) && OneSwapDue(Apply(s, step))
    ensures SwapsApart(s, [step])
  {
    StaysShaped(s, step);
    hide Apply, Inv, OneSwapDue, Shaped;
    assert [step][1..] == [];
  }

  lemma ApartDpc(n: nat, capacity: nat, steps: seq<Step>) returns (after: seq<Step>)
    requires SwapsApart(Init(n, capacity), steps)
    ensures SwapsApart(Init(n, capacity), after)
    ensures Run(n, capacity, after) == DpcEnd(Run(n, capacity, steps))
  {
    InitInv(n, capacity);
    RunKeeps(Init(n, capacity), steps);
    hide Inv, OneSwapDue, SwapsApart, DpcEnd;
    var s := Run(n, capacity, steps);
    var dpc := DpcRuns(s);
    NoPassesApart(s, dpc);
    FromThen(Init(n, capacity), steps, dpc);
    after := steps + dpc;
  }

  /** A pass with flushallbuffers set, nobody else being in one, swaps the buffers. */
  lemma PassSwaps(n: nat, capacity: nat, steps: seq<Step>, f: nat) returns (after: seq<Step>)
    requires SwapsApart(Init(n, capacity), steps) && f < n
    requires var s := Run(n, capacity, steps); Calm(s) && s.flushAll && s.flushers[f].at == Waiting
    ensures SwapsApart(Init(n, capacity), after)
    ensures var s := Run(n, capacity, steps);
            Run(n, capacity, after) == Swapped(s).(flushers := s.flushers[f := s.flushers[f].(at := Flushing)])
  {
    hide Run, SwapsApart, DpcEnd, Init;
    var s := Run(n, capacity, steps);
    var t1 := s.(flushers := s.flushers[f := s.flushers[f].(at := Passed)]);
    var t2 := s.(queued := true, flushers := s.flushers[f := s.flushers[f].(at := Flushing)]);
    assert OneSwapDue(t1) by {
      forall g | 0 <= g < |t1.flushers| && t1.flushers[g].at == Passed ensures g == f || s.flushers[g].at == Passed {
      }
    }
    NobodyElse(t1, f, t2);
    ApartStep(n, capacity, steps, FlusherStep(f));
    ApartStep(n, capacity, steps + [FlusherStep(f)], FlusherStep(f));
    after := steps + [FlusherStep(f)] + [FlusherStep(f)];
    assert Run(n, capacity, after) == t2;
    var t3 := t2.(queued := false, dpc := Check);
    NobodyElse(t1, f, t3);
    ApartStep(n, capacity, after, DpcStep);
    EndsSwapped(t3);
    after := ApartDpc(n, capacity, after + [DpcStep]);
  }

  /** Nothing was recorded: the writer has nothing to save. */
  lemma EmptySave(n: nat, capacity: nat, steps: seq<Step>) returns (after: seq<Step>)
    requires SwapsApart(Init(n, capacity), steps)
    requires var s := Run(n, capacity, steps);
             s.writer == Sleeping && s.info.initiate && s.info.saveCount == 0 && !Passing(s)
    ensures SwapsApart(Init(n, capacity), after)
    ensures var s := Run(n, capacity, steps);
            Run(n, capacity, after) == s.(info := s.info.(initiate := false, ready := true))
  {
    hide Run, SwapsApart, Init;
    var s := Run(n, capacity, steps);
    var t1 := s.(info := s.info.(initiate := false), writer := Sizing);
    var t2 := t1.(writer := Finishing);
    var t3 := s.(info := s.info.(initiate := false, ready := true));
    assert Passing(t1) == Passing(t2) == Passing(t3) == Passing(s);
    ApartStep(n, capacity, steps, WriterStep);
    ApartStep(n, capacity, steps + [WriterStep], WriterStep);
    ApartStep(n, capacity, steps + [WriterStep] + [WriterStep], WriterStep);
    after := steps + [WriterStep] + [WriterStep] + [WriterStep];
  }

  lemma NonePassing(s: State)
    requires forall g | 0 <= g < |s.flushers| :: s.flushers[g].at != Passed
    ensures !Passing(s) && OneSwapDue(s)
  {
  }

  /** A run in which passes never overlap, after which the call of flusher 0 is about to clear flushallbuffers. */
  lemma FirstCall(n: nat, capacity: nat) returns (before: seq<Step>)
    requires n >= 2 && capacity >= 1
    ensures SwapsApart(Init(n, capacity), before)
    ensures Overtaken(Run(n, capacity, before)) && Run(n, capacity, before).flushers[1].at == Resting
  {
    hide Run, SwapsApart;
    RunNothing(n, capacity);
    var s0 := Init(n, capacity);
    assert SwapsApart(s0, []) by {
      InitInv(n, capacity);
      ApartNow(s0);
    }
    var t1 := Apply(s0, Begin(0, true));
    NonePassing(t1);
    ApartStep(n, capacity, [], Begin(0, true));
    before := PassSwaps(n, capacity, [] + [Begin(0, true)], 0);
    NonePassing(Run(n, capacity, before));
    before := EmptySave(n, capacity, before);
    var t2 := Run(n, capacity, before);
    var t3 := Apply(t2, FlusherStep(0));
    NonePassing(t3);
    ApartStep(n, capacity, before, FlusherStep(0));
    before := PassSwaps(n, capacity, before + [FlusherStep(0)], 0);
    var t4 := Run(n, capacity, before);
    var t5 := Apply(t4, Record(7));
    NonePassing(t5);
    ApartStep(n, capacity, before, Record(7));
    before := before + [Record(7)];
    assert Ending(t5, 0) && t5.hw.pos == 1 && TableOffset(1, |t5.bytes.first|) == 0;
  }

  lemma ApartNow(s: State)
    requires Shaped(s) && OneSwapDue(s)
    ensures SwapsApart(s, [])
  {
  }

  /** Two calls one after the other: the second begins before the first clears flushallbuffers, and returns although
      the byte recorded in between has not been saved. */
  lemma FlushMissesAByte(n: nat, capacity: nat) returns (before: seq<Step>, during: seq<Step>)
    requires n >= 2 && capacity >= 1
    ensures SwapsApart(Init(n, capacity), before) && Run(n, capacity, before).flushers[1].at == Resting
    ensures var s := Run(n, capacity, before);
            var t := Apply(s, Begin(1, true));
            Shaped(t) && SwapsApart(t, during) && Returns(t, 1, during)
            && !(s.bytes.recorded <= From(t, during).bytes.saved)
  {
    before := FirstCall(n, capacity);
    InitInv(n, capacity);
    RunKeeps(Init(n, capacity), before);
    hide Inv, OneSwapDue, SwapsApart, Overtaken, Run, Returns, Apply;
    during := OvertakenMisses(Run(n, capacity, before), 1);
  }
}
