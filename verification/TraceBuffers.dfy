/** The double buffer of DBKKernel/ultimap2.c on one CPU: the tracing hardware, the DPC that swaps the
    buffers, the writer thread, and the threads that ask for a flush, interleaved step by step. */
module TraceBuffers {
  import TopaLayout

  /** The two buffers, numbered false and true; what the hardware stored, and what was written out. */
  datatype Bytes = Bytes(first: seq<int>, second: seq<int>, recorded: seq<int>, saved: seq<int>) {
    function Of(buffer: bool): seq<int> { if buffer then second else first }
    function Put(buffer: bool, pos: nat, b: int): Bytes
      requires pos < |Of(buffer)|
    {
      if buffer then this.(second := second[pos := b]) else this.(first := first[pos := b])
    }
  }

  /** The output registers, reduced to the buffer they lead to and the bytes in it, and IA32_RTIT_CTL. */
  datatype Hardware = Hardware(base: bool, pos: nat, enabled: bool)

  /** Of each pair in ProcessorInfo, the member without a 2 in its name belongs to buffer `buffer`, `header`,
      `table`. */
  datatype ProcessorInfo = ProcessorInfo(buffer: bool, header: bool, table: bool, saveBase: bool, saveCount: nat,
                                         ready: bool, initiate: bool, interrupted: bool)

  /** SwitchToPABuffer, one point per access to something another party sees. */
  datatype Dpc = Idle | Check | Disable | ClearReady | SwapBuffers | SwapHeaders | SwapTables | Capture | Initiate
      | Reset | Enable

  /** WriteThreadForSpecificCPU: waiting, sizing, writing out `size` bytes of buffer src, and signalling. */
  datatype Writer = Sleeping | Sizing | Copying(src: bool, size: nat, done: nat) | Finishing

  /** WaitForWriteToFinishAndSwapWriteBuffers, called once, or twice with flushallbuffers set and cleared around it. */
  datatype Place = Resting | Waiting | Passed | Flushing | Clearing
  datatype Flusher = Flusher(at: Place, all: bool, passesLeft: nat)

  datatype State = State(bytes: Bytes, hw: Hardware, info: ProcessorInfo, flushAll: bool, queued: bool,
                         dpc: Dpc, writer: Writer, flushers: seq<Flusher>)

  datatype Step =
    | Record(b: int)
    | Interrupt
    | DpcStep
    | WriterStep
    | Begin(f: nat, all: bool)
    | FlusherStep(f: nat)

  function Init(n: nat, capacity: nat): State {
    State(Bytes(seq(capacity, i => 0), seq(capacity, i => 0), [], []), Hardware(false, 0, true),
          ProcessorInfo(false, false, false, false, 0, true, false, false), false, false,
          Idle, Sleeping, seq(n, i => Flusher(Resting, false, 0)))
  }

  predicate Shaped(s: State) {
    && |s.bytes.first| == |s.bytes.second|
    && s.hw.pos <= |s.bytes.first| && s.info.saveCount <= |s.bytes.first|
    && (s.writer.Copying? ==> s.writer.done <= s.writer.size <= |s.bytes.first|)
  }

  /** Table offset the hardware reports after pos bytes of a buffer of `capacity`: 511 pages to a table, and hardware
      that has filled its last page stays there. */
  function TableOffset(pos: nat, capacity: nat): nat {
    (if 0 < pos == capacity then pos - 1 else pos) / 4096 % 511
  }

  function DpcNext(s: State): State {
    match s.dpc
    case Idle => if s.queued then s.(queued := false, dpc := Check) else s
    case Check =>
      s.(dpc := if !s.info.interrupted && !s.flushAll && TableOffset(s.hw.pos, |s.bytes.first|) < 2 then Idle
                else Disable)
    case Disable => s.(hw := s.hw.(enabled := false), dpc := ClearReady)
    case ClearReady => s.(info := s.info.(ready := false), dpc := SwapBuffers)
    case SwapBuffers => s.(info := s.info.(buffer := !s.info.buffer), dpc := SwapHeaders)
    case SwapHeaders => s.(info := s.info.(header := !s.info.header), dpc := SwapTables)
    case SwapTables => s.(info := s.info.(table := !s.info.table), dpc := Capture)
    case Capture => s.(info := s.info.(saveBase := s.hw.base, saveCount := s.hw.pos), dpc := Initiate)
    case Initiate => s.(info := s.info.(initiate := true), dpc := Reset)
    case Reset => s.(info := s.info.(interrupted := false), hw := s.hw.(base := s.info.header, pos := 0), dpc := Enable)
    case Enable => s.(hw := s.hw.(enabled := true), dpc := Idle)
  }

  /** The save base is looked up in the second table; the size follows from the captured pointers. */
  function WriterNext(s: State): State
    requires Shaped(s)
  {
    match s.writer
    case Sleeping => if s.info.initiate then s.(info := s.info.(initiate := false), writer := Sizing) else s
    case Sizing =>
      if s.info.saveBase == !s.info.table && s.info.saveCount > 0 then
        s.(writer := Copying(!s.info.buffer, s.info.saveCount, 0))
      else s.(writer := Finishing)
    case Copying(src, size, done) =>
      if done < size then
        s.(bytes := s.bytes.(saved := s.bytes.saved + [s.bytes.Of(src)[done]]), writer := Copying(src, size, done + 1))
      else s.(writer := Finishing)
    case Finishing => s.(info := s.info.(ready := true), writer := Sleeping)
  }

  /** A stopped hardware, whose last region is full, stores nothing. */
  function Recording(s: State, b: int): State
    requires Shaped(s)
  {
    if s.hw.enabled && s.hw.pos < |s.bytes.first| then
      s.(bytes := s.bytes.Put(s.hw.base, s.hw.pos, b).(recorded := s.bytes.recorded + [b]),
          hw := s.hw.(pos := s.hw.pos + 1))
    else s
  }

  /** bufferWriterThread asks for one pass, ultimap2_flushBuffers and ultimap2_pause for two with everything flushed. */
  function Beginning(s: State, f: nat, all: bool): State
    requires f < |s.flushers|
  {
    if s.flushers[f].at != Resting then s
    else s.(flushAll := s.flushAll || all,
            flushers := s.flushers[f := Flusher(Waiting, all, if all then 1 else 0)])
  }

  function FlusherNext(s: State, f: nat): State
    requires f < |s.flushers|
  {
    var me := s.flushers[f];
    match me.at
    case Resting => s
    case Waiting => if s.info.ready then s.(flushers := s.flushers[f := me.(at := Passed)]) else s
    case Passed => s.(queued := true, flushers := s.flushers[f := me.(at := Flushing)])
    case Flushing =>
      if s.queued || s.dpc != Idle then s
      else if me.passesLeft > 0 then
        s.(flushers := s.flushers[f := me.(at := Waiting, passesLeft := me.passesLeft - 1)])
      else s.(flushers := s.flushers[f := me.(at := if me.all then Clearing else Resting)])
    case Clearing => s.(flushAll := false, flushers := s.flushers[f := me.(at := Resting)])
  }

  /** One step of one party; a party that cannot move leaves the state alone. */
  function Apply(s: State, step: Step): State
    requires Shaped(s)
  {
    match step
    case Record(b) => Recording(s, b)
    case Interrupt => s.(info := s.info.(interrupted := true))
    case DpcStep => DpcNext(s)
    case WriterStep => WriterNext(s)
    case Begin(f, all) => if f < |s.flushers| then Beginning(s, f, all) else s
    case FlusherStep(f) => if f < |s.flushers| then FlusherNext(s, f) else s
  }

  /** A well-shaped state with as many threads and as much room as the other. */
  predicate Alike(s: State, t: State) {
    Shaped(t) && |t.flushers| == |s.flushers| && |t.bytes.first| == |s.bytes.first|
  }

  lemma RecordingShaped(s: State, b: int)
    requires Shaped(s)
    ensures Alike(s, Recording(s, b))
  {
  }

  lemma DpcShaped(s: State)
    requires Shaped(s)
    ensures Alike(s, DpcNext(s)) && DpcNext(s).bytes == s.bytes
  {
    match s.dpc
    case Idle => case Check => case Disable => case ClearReady => case SwapBuffers => case SwapHeaders =>
        case SwapTables =>
    case Capture => case Initiate => case Reset => case Enable =>
  }

  lemma WriterShaped(s: State)
    requires Shaped(s)
    ensures Alike(s, WriterNext(s))
  {
  }

  lemma FlusherShaped(s: State, f: nat, all: bool)
    requires Shaped(s) && f < |s.flushers|
    ensures Alike(s, FlusherNext(s, f)) && Alike(s, Beginning(s, f, all))
  {
  }

  lemma StaysShaped(s: State, step: Step)
    requires Shaped(s)
    ensures Alike(s, Apply(s, step))
  {
    hide DpcNext, WriterNext, FlusherNext, Beginning, Recording;
    match step
    case Record(b) => RecordingShaped(s, b);
    case Interrupt =>
    case DpcStep => DpcShaped(s);
    case WriterStep => WriterShaped(s);
    case Begin(f, all) => if f < |s.flushers| { FlusherShaped(s, f, all); }
    case FlusherStep(f) => if f < |s.flushers| { FlusherShaped(s, f, true); }
  }
  /** The state after some steps, in any interleaving. */
  function From(s: State, steps: seq<Step>): (t: State)
    requires Shaped(s)
    ensures Alike(s, t)
    decreases |steps|
  {
    if steps == [] then s
    else
      StaysShaped(s, steps[0]);
      From(Apply(s, steps[0]), steps[1..])
  }

  /** The state after a run of n flushing threads over buffers of `capacity` bytes. */
  function Run(n: nat, capacity: nat, steps: seq<Step>): (s: State)
    ensures Shaped(s) && |s.flushers| == n && |s.bytes.first| == capacity
  {
    From(Init(n, capacity), steps)
  }

  // ----- Safety -----

  /** The hardware is not writing the buffer that is being saved. */
  predicate Apart(s: State) {
    s.hw.enabled && s.writer.Copying? ==> s.hw.base != s.writer.src
  }

  /** Bytes handed to the writer and not saved yet. */
  function Pending(s: State): seq<int>
    requires Shaped(s)
  {
    if s.info.initiate || s.writer == Sizing then s.bytes.Of(s.info.saveBase)[..s.info.saveCount]
    else if s.writer.Copying? then s.bytes.Of(s.writer.src)[s.writer.done..s.writer.size]
    else []
  }

  /** Bytes of the hardware's buffer that have not been handed over. */
  function Active(s: State): seq<int>
    requires Shaped(s)
  {
    if s.dpc == Reset then [] else s.bytes.Of(s.hw.base)[..s.hw.pos]
  }

  /** Bytes saved, then pending, then in the active buffer: everything recorded, in order. */
  predicate Conserved(s: State)
    requires Shaped(s)
  {
    s.bytes.saved + Pending(s) + Active(s) == s.bytes.recorded
  }

  /** Nothing is overwritten before it is saved, and nothing lost, repeated or reordered on its way to the file. */
  predicate Intact(s: State)
    requires Shaped(s)
  {
    Apart(s) && Conserved(s) && s.bytes.saved <= s.bytes.recorded
  }

  predicate Saving(s: State) { s.info.initiate || s.writer != Sleeping }

  /** Where the DPC is, in the order of its steps. */
  function Point(d: Dpc): nat {
    match d
    case Idle => 0 case Check => 1 case Disable => 2 case ClearReady => 3 case SwapBuffers => 4 case SwapHeaders => 5
    case SwapTables => 6 case Capture => 7 case Initiate => 8 case Reset => 9 case Enable => 10
  }

  /** The DPC runs and has not handed the buffer over. */
  predicate Early(d: Dpc) { 1 <= Point(d) <= 8 }

  /** A thread is past the wait and has not queued its DPC. */
  predicate Passing(s: State) {
    exists f | 0 <= f < |s.flushers| :: s.flushers[f].at == Passed
  }

  /** A thread past the wait has it for itself: no other is, and no DPC is on its way to handing the buffer over. */
  predicate OneSwapDue(s: State) {
    && (forall f, g | 0 <= f < |s.flushers| && 0 <= g < |s.flushers| && s.flushers[f].at == Passed
                      && s.flushers[g].at == Passed :: f == g)
    && (Passing(s) ==> !s.queued && !Early(s.dpc))
  }

  /** What the DPC, the writer and the threads know of each other. */
  predicate Phases(s: State) {
    && (s.queued || Early(s.dpc) || Passing(s) ==> !Saving(s))
    && (s.queued ==> !Early(s.dpc))
    && (s.info.ready <==> !Saving(s) && !(4 <= Point(s.dpc) <= 8))
    && !(s.info.initiate && s.writer != Sleeping)
  }

  /** Which of each pair the pointers name while the DPC swaps them. */
  predicate Pointers(s: State) {
    && s.hw.enabled == (Point(s.dpc) <= 2)
    && s.info.buffer == (if 5 <= Point(s.dpc) <= 9 then !s.hw.base else s.hw.base)
    && s.info.header == (if Point(s.dpc) == 5 then s.hw.base else s.info.buffer)
    && s.info.table == (if 5 <= Point(s.dpc) <= 6 then s.hw.base else s.info.buffer)
    && (s.dpc == Initiate ==> s.info.saveBase == s.hw.base && s.info.saveCount == s.hw.pos)
    && (s.dpc == Enable ==> s.hw.pos == 0)
    && (s.info.initiate || s.writer == Sizing ==> s.info.saveBase == !s.info.buffer)
    && (s.writer.Copying? ==> s.writer.src == !s.info.buffer)
  }

  predicate Inv(s: State) {
    Shaped(s) && Phases(s) && Pointers(s) && Conserved(s)
  }

  lemma DpcKeeps(s: State)
    requires Phases(s) && Pointers(s) && !(Early(s.dpc) && Passing(s))
    ensures Phases(DpcNext(s)) && Pointers(DpcNext(s))
  {
    assert DpcNext(s).flushers == s.flushers;
    assert Passing(DpcNext(s)) == Passing(s);
    hide Passing, TableOffset;
    match s.dpc
    case Idle => case Check => case Disable => case ClearReady => case SwapBuffers => case SwapHeaders =>
        case SwapTables =>
    case Capture => case Initiate => case Reset => case Enable =>
  }

  /** Handing the buffer over makes everything recorded saved or pending; no other DPC step touches either. */
  lemma DpcHandsOver(s: State)
    requires Inv(s)
    ensures var t := DpcNext(s);
            && Shaped(t) && Conserved(t) && t.bytes == s.bytes && t.flushers == s.flushers
            && (if s.dpc == Initiate then t.bytes.saved + Pending(t) == t.bytes.recorded else Pending(t) == Pending(s))
  {
    hide Passing, TableOffset;
    DpcShaped(s);
    var t := DpcNext(s);
    if s.dpc == Initiate {
      assert Pending(s) == [] && Pending(t) == Active(s) && Active(t) == [];
    } else {
      assert Pending(t) == Pending(s) && Active(t) == Active(s);
    }
  }

  lemma WriterKeeps(s: State)
    requires Shaped(s) && Phases(s) && Pointers(s)
    ensures Phases(WriterNext(s)) && Pointers(WriterNext(s))
  {
    assert WriterNext(s).flushers == s.flushers && Passing(WriterNext(s)) == Passing(s);
    hide Passing;
    match s.writer
    case Sleeping => case Sizing => case Copying(_, _, _) => case Finishing =>
  }

  lemma FirstAndRest(saved: seq<int>, d: seq<int>, i: nat, j: nat)
    requires i < j <= |d|
    ensures (saved + [d[i]]) + d[i + 1..j] == saved + d[i..j]
  {
  }

  /** Saving moves bytes from pending to saved; no other writer step touches either. */
  lemma WriterMoves(s: State)
    requires Shaped(s) && Phases(s) && Pointers(s)
    ensures var t := WriterNext(s);
            && Shaped(t) && t.bytes.saved + Pending(t) == s.bytes.saved + Pending(s) && Active(t) == Active(s)
            && t.bytes.recorded == s.bytes.recorded && |s.bytes.saved| <= |t.bytes.saved|
  {
    hide Passing;
    var t := WriterNext(s);
    match s.writer
    case Sleeping => assert Pending(t) == Pending(s);
    case Sizing => assert Pending(t) == Pending(s);
    case Copying(src, size, done) =>
      if done < size {
        FirstAndRest(s.bytes.saved, s.bytes.Of(src), done, size);
        assert Pending(s) == s.bytes.Of(src)[done..size] && Pending(t) == s.bytes.Of(src)[done + 1..size];
        assert Active(t) == Active(s);
      } else {
        assert Pending(t) == Pending(s);
      }
    case Finishing => assert Pending(t) == Pending(s);
  }

  lemma RecordingKeeps(s: State, b: int)
    requires Inv(s)
    ensures Inv(Recording(s, b)) && Pending(Recording(s, b)) == Pending(s)
  {
    var t := Recording(s, b);
    assert t.flushers == s.flushers && Passing(t) == Passing(s);
    hide Passing;
    if t != s {
      assert Active(t) == Active(s) + [b];
      assert Pending(t) == Pending(s);
      assert t.bytes.saved + Pending(t) + Active(t) == s.bytes.saved + Pending(s) + Active(s) + [b];
    }
  }

  /** Neither bytes nor pointers depend on the flushers. */
  lemma FlushersOnly(s: State, t: State)
    requires Inv(s) && Phases(t)
    requires t == s.(flushers := t.flushers, queued := t.queued, flushAll := t.flushAll,
                     info := s.info.(interrupted := t.info.interrupted))
    ensures Inv(t) && Pending(t) == Pending(s) && Active(t) == Active(s)
  {
    hide Phases;
    assert Pending(t) == Pending(s) && Active(t) == Active(s);
  }

  /** Only a thread that finds the buffer ready gets past the wait. */
  lemma NewlyPassing(s: State, f: nat)
    requires f < |s.flushers| && Passing(FlusherNext(s, f))
    ensures Passing(s) || s.info.ready
  {
    var t := FlusherNext(s, f);
    var h :| 0 <= h < |t.flushers| && t.flushers[h].at == Passed;
    assert h == f || s.flushers[h].at == Passed;
  }

  lemma FlusherPhases(s: State, f: nat)
    requires Phases(s) && !(Early(s.dpc) && Passing(s)) && f < |s.flushers|
    ensures Phases(FlusherNext(s, f))
  {
    if Passing(FlusherNext(s, f)) {
      NewlyPassing(s, f);
    }
    assert s.flushers[f].at == Passed ==> Passing(s);
    hide Passing;
    match s.flushers[f].at { case Resting => case Waiting => case Passed => case Flushing => case Clearing => }
  }

  lemma FlusherKeeps(s: State, f: nat)
    requires Inv(s) && !(Early(s.dpc) && Passing(s)) && f < |s.flushers|
    ensures Inv(FlusherNext(s, f)) && Pending(FlusherNext(s, f)) == Pending(s)
  {
    var t := FlusherNext(s, f);
    FlusherPhases(s, f);
    assert t == s.(flushers := t.flushers, queued := t.queued, flushAll := t.flushAll);
    hide Phases, Passing, Early, FlusherNext, Shaped, Pointers, Conserved, Pending;
    FlushersOnly(s, t);
  }

  lemma BeginningKeeps(s: State, f: nat, all: bool)
    requires Inv(s) && f < |s.flushers|
    ensures Inv(Beginning(s, f, all)) && Pending(Beginning(s, f, all)) == Pending(s)
  {
    var t := Beginning(s, f, all);
    if Passing(t) {
      var h :| 0 <= h < |t.flushers| && t.flushers[h].at == Passed;
      assert s.flushers[h].at == Passed;
    }
    FlushersOnly(s, t);
  }

  /** Every step keeps the invariant, unless the DPC is handing the buffer over beside a thread past the wait. */
  lemma StepKeeps(s: State, step: Step)
    requires Inv(s) && !(Early(s.dpc) && Passing(s))
    ensures Inv(Apply(s, step))
  {
    if step == Interrupt {
      assert Passing(Apply(s, step)) == Passing(s);
    }
    hide DpcNext, WriterNext, FlusherNext, Beginning, Recording, Passing;
    match step
    case Record(b) => RecordingKeeps(s, b);
    case Interrupt => FlushersOnly(s, Apply(s, Interrupt));
    case DpcStep =>
      DpcKeeps(s);
      DpcHandsOver(s);
    case WriterStep =>
      WriterKeeps(s);
      WriterMoves(s);
    case Begin(f, all) =>
      if f < |s.flushers| {
        BeginningKeeps(s, f, all);
      }
    case FlusherStep(f) =>
      if f < |s.flushers| {
        FlusherKeeps(s, f);
      }
  }

  lemma DueApart(s: State)
    requires OneSwapDue(s)
    ensures !(Early(s.dpc) && Passing(s))
  {
  }

  lemma InitInv(n: nat, capacity: nat)
    ensures Inv(Init(n, capacity)) && OneSwapDue(Init(n, capacity))
  {
    var s := Init(n, capacity);
    assert s.bytes.saved + Pending(s) + Active(s) == s.bytes.recorded;
  }

  /** After every prefix of the run at most one swap is due. */
  predicate SwapsApart(s: State, steps: seq<Step>)
    requires Shaped(s)
    decreases |steps|
  {
    && OneSwapDue(s)
    && (steps == [] ||
        (StaysShaped(s, steps[0]); SwapsApart(Apply(s, steps[0]), steps[1..])))
  }

  lemma InvShaped(s: State)
    requires Inv(s)
    ensures Shaped(s)
  {
  }

  lemma {:induction false} RunKeeps(s: State, steps: seq<Step>)
    requires Inv(s) && SwapsApart(s, steps)
    ensures Inv(From(s, steps)) && OneSwapDue(From(s, steps))
    decreases |steps|
  {
    hide Inv, Apply, Passing;
    if steps == [] {
    } else {
      InvShaped(s);
      StepKeeps(s, steps[0]);
      RunKeeps(Apply(s, steps[0]), steps[1..]);
    }
  }

  lemma InvIntact(s: State)
    requires Inv(s)
    ensures Intact(s)
  {
    assert s.bytes.recorded == s.bytes.saved + (Pending(s) + Active(s));
  }

  /** For any number of threads, in every run in which at most one swap is due at a time, the hardware and the writer
      use different buffers and the file gets what was recorded, in order. */
  lemma SafeWhileSwapsApart(n: nat, capacity: nat, steps: seq<Step>)
    requires SwapsApart(Init(n, capacity), steps)
    ensures Intact(Run(n, capacity, steps))
  {
    hide Inv, Intact;
    InitInv(n, capacity);
    RunKeeps(Init(n, capacity), steps);
    InvIntact(Run(n, capacity, steps));
  }

  // ----- Passes that do not overlap -----

  /** A pass lasts from the end of the wait to the end of KeFlushQueuedDpcs. */
  predicate InPass(p: Place) { p == Passed || p == Flushing }

  predicate OnePass(s: State) {
    forall f, g | 0 <= f < |s.flushers| && 0 <= g < |s.flushers| && InPass(s.flushers[f].at)
                  && InPass(s.flushers[g].at) :: f == g
  }

  predicate PassesApart(s: State, steps: seq<Step>)
    requires Shaped(s)
    decreases |steps|
  {
    && OnePass(s)
    && (steps == [] ||
        (StaysShaped(s, steps[0]); PassesApart(Apply(s, steps[0]), steps[1..])))
  }

  /** Whoever queued the DPC waits for it. */
  predicate Awaited(s: State) {
    s.queued || s.dpc != Idle ==> exists f | 0 <= f < |s.flushers| :: s.flushers[f].at == Flushing
  }

  lemma AwaitedKeeps(s: State, step: Step)
    requires Shaped(s) && Awaited(s)
    ensures Awaited(Apply(s, step))
  {
    var t := Apply(s, step);
    if OfFlusher(step) && step.f < |s.flushers| {
      FlusherFrame(s, step);
      if s.queued || s.dpc != Idle {
        var f :| 0 <= f < |s.flushers| && s.flushers[f].at == Flushing;
        assert t.flushers[f].at == Flushing;
      } else if t.queued || t.dpc != Idle {
        assert t.flushers[step.f].at == Flushing;
      }
    } else {
      OthersFrame(s, step);
      assert t.queued || t.dpc != Idle ==> s.queued || s.dpc != Idle by { QueueDrives(s, step); }
      if s.queued || s.dpc != Idle {
        var f :| 0 <= f < |s.flushers| && s.flushers[f].at == Flushing;
        assert t.flushers[f].at == Flushing;
      }
    }
  }

  predicate OfFlusher(step: Step) { step.Begin? || step.FlusherStep? }

  /** What a flusher's step leaves alone, and when it moves on. */
  lemma FlusherFrame(s: State, step: Step)
    requires Shaped(s) && OfFlusher(step) && step.f < |s.flushers|
    ensures var t := Apply(s, step);
            && |t.flushers| == |s.flushers| && t.dpc == s.dpc && t.bytes == s.bytes && t.hw == s.hw && t.info == s.info
            && (forall g | 0 <= g < |s.flushers| && g != step.f :: t.flushers[g] == s.flushers[g])
            && (t.queued == (s.queued || (step.FlusherStep? && s.flushers[step.f].at == Passed)))
            && (s.flushers[step.f].at == Passed && step.FlusherStep? ==> t.flushers[step.f].at == Flushing)
            && (s.flushers[step.f].at == Flushing && (s.queued || s.dpc != Idle) ==> t.flushers[step.f].at == Flushing)
  {
    match s.flushers[step.f].at { case Resting => case Waiting => case Passed => case Flushing => case Clearing => }
  }

  lemma OthersFrame(s: State, step: Step)
    requires Shaped(s) && (OfFlusher(step) ==> step.f >= |s.flushers|)
    ensures Apply(s, step).flushers == s.flushers && Apply(s, step).flushAll == s.flushAll
  {
    if step == DpcStep {
      DpcShaped(s);
    }
  }

  /** The DPC only runs when it was queued. */
  lemma QueueDrives(s: State, step: Step)
    requires Shaped(s) && (OfFlusher(step) ==> step.f >= |s.flushers|)
    ensures var t := Apply(s, step); t.queued || t.dpc != Idle ==> s.queued || s.dpc != Idle
  {
    hide TableOffset;
    if step == DpcStep {
      match s.dpc
      case Idle => case Check => case Disable => case ClearReady => case SwapBuffers => case SwapHeaders =>
          case SwapTables =>
      case Capture => case Initiate => case Reset => case Enable =>
    }
  }

  lemma OnePassOneSwap(s: State)
    requires OnePass(s) && Awaited(s)
    ensures OneSwapDue(s)
  {
    if Passing(s) && (s.queued || Early(s.dpc)) {
      var f :| 0 <= f < |s.flushers| && s.flushers[f].at == Passed;
      var g :| 0 <= g < |s.flushers| && s.flushers[g].at == Flushing;
      assert InPass(s.flushers[f].at) && InPass(s.flushers[g].at);
      assert false;
    }
    forall f, g | 0 <= f < |s.flushers| && 0 <= g < |s.flushers| && s.flushers[f].at == Passed
                  && s.flushers[g].at == Passed
      ensures f == g
    {
      assert InPass(s.flushers[f].at) && InPass(s.flushers[g].at);
    }
  }

  /** Passes that do not overlap keep swaps apart: no two threads are between the wait and the end of the DPC. */
  lemma {:induction false} OnePassSuffices(s: State, steps: seq<Step>)
    requires Shaped(s) && Awaited(s) && PassesApart(s, steps)
    ensures SwapsApart(s, steps)
    decreases |steps|
  {
    hide Apply, OnePass, Awaited, OneSwapDue;
    OnePassOneSwap(s);
    if steps == [] {
    } else {
      StaysShaped(s, steps[0]);
      AwaitedKeeps(s, steps[0]);
      OnePassSuffices(Apply(s, steps[0]), steps[1..]);
    }
  }

  /** For any number of threads, in every run in which passes do not overlap, the same holds. */
  lemma SafeWhilePassesApart(n: nat, capacity: nat, steps: seq<Step>)
    requires PassesApart(Init(n, capacity), steps)
    ensures Intact(Run(n, capacity, steps))
  {
    hide PassesApart, SwapsApart, Intact, Run;
    OnePassSuffices(Init(n, capacity), steps);
    SafeWhileSwapsApart(n, capacity, steps);
  }

  // ----- Swaps that are not kept apart -----

  /** The step takes a thread past the wait. */
  predicate Passes(s: State, step: Step) {
    step.FlusherStep? && step.f < |s.flushers| && s.flushers[step.f].at == Waiting && s.info.ready
  }

  predicate NoPasses(s: State, steps: seq<Step>)
    requires Shaped(s)
    decreases |steps|
  {
    steps == [] ||
    (!Passes(s, steps[0]) && (StaysShaped(s, steps[0]); NoPasses(Apply(s, steps[0]), steps[1..])))
  }

  lemma {:induction false} FromThen(s: State, a: seq<Step>, b: seq<Step>)
    requires Shaped(s)
    ensures From(s, a + b) == From(From(s, a), b)
    ensures NoPasses(s, a) && NoPasses(From(s, a), b) ==> NoPasses(s, a + b)
    ensures SwapsApart(s, a) && SwapsApart(From(s, a), b) ==> SwapsApart(s, a + b)
    decreases |a|
  {
    if a == [] {
      assert a + b == b;
    } else {
      StaysShaped(s, a[0]);
      hide Apply, Shaped, OneSwapDue, Passes;
      assert (a + b)[1..] == a[1..] + b;
      FromThen(Apply(s, a[0]), a[1..], b);
    }
  }

  /** As long as no further thread gets past the wait, at most one swap stays due. */
  lemma NoPassStays(s: State, step: Step)
    requires Shaped(s) && OneSwapDue(s) && Phases(s) && !Passes(s, step)
    ensures OneSwapDue(Apply(s, step))
  {
    var t := Apply(s, step);
    if OfFlusher(step) && step.f < |s.flushers| {
      FlusherFrame(s, step);
      FlusherPlaces(s, step);
      hide Apply, Early, Phases;
      if t != s && Passing(t) {
        var h :| 0 <= h < |t.flushers| && t.flushers[h].at == Passed;
        assert s.flushers[h].at == Passed && h != step.f;
      }
    } else {
      OthersFrame(s, step);
      assert Passing(t) == Passing(s);
      if !s.queued && !Early(s.dpc) {
        NotEarlyStays(s, step);
      }
    }
  }

  lemma FlusherPlaces(s: State, step: Step)
    requires Shaped(s) && OfFlusher(step) && step.f < |s.flushers| && !Passes(s, step)
    ensures |Apply(s, step).flushers| == |s.flushers|
    ensures Apply(s, step).flushers[step.f].at == Passed ==> step.Begin? && s.flushers[step.f].at == Passed
    ensures step.Begin? && s.flushers[step.f].at == Passed ==> Apply(s, step) == s
  {
    match s.flushers[step.f].at { case Resting => case Waiting => case Passed => case Flushing => case Clearing => }
  }

  lemma NotEarlyStays(s: State, step: Step)
    requires Shaped(s) && !s.queued && !Early(s.dpc) && (OfFlusher(step) ==> step.f >= |s.flushers|)
    ensures !Apply(s, step).queued && !Early(Apply(s, step).dpc)
  {
    match s.dpc
    case Idle => case Check => case Disable => case ClearReady => case SwapBuffers => case SwapHeaders =>
        case SwapTables =>
    case Capture => case Initiate => case Reset => case Enable =>
  }

  lemma {:induction false} NoPassesApart(s: State, steps: seq<Step>)
    requires Inv(s) && OneSwapDue(s) && NoPasses(s, steps)
    ensures SwapsApart(s, steps)
    decreases |steps|
  {
    if steps == [] {
    } else {
      NoPassStays(s, steps[0]);
      StepKeeps(s, steps[0]);
      hide Inv, Apply, Passing, Passes, OneSwapDue;
      NoPassesApart(Apply(s, steps[0]), steps[1..]);
    }
  }

  /** Without a further thread past the wait the run gets to where the file is not what was recorded. */
  predicate Spoils(s: State, more: seq<Step>)
    requires Shaped(s)
  {
    NoPasses(s, more) && !(From(s, more).bytes.saved <= From(s, more).bytes.recorded)
  }

  lemma AndThen(s: State, step: Step, rest: seq<Step>) returns (more: seq<Step>)
    requires Shaped(s) && !Passes(s, step)
    requires Shaped(Apply(s, step)) && Spoils(Apply(s, step), rest)
    ensures Spoils(s, more)
  {
    more := [step] + rest;
    assert more[1..] == rest;
  }

  /** The state in which a running DPC ends, if nobody else moves. */
  function DpcEnd(s: State): State
    decreases if s.dpc == Idle then 0 else 11 - Point(s.dpc)
  {
    if s.dpc == Idle then s else DpcEnd(DpcNext(s))
  }

  lemma {:induction false} DpcRuns(s: State) returns (dpc: seq<Step>)
    requires Shaped(s)
    ensures From(s, dpc) == DpcEnd(s) && NoPasses(s, dpc)
    decreases if s.dpc == Idle then 0 else 11 - Point(s.dpc)
  {
    if s.dpc == Idle {
      dpc := [];
    } else {
      DpcShaped(s);
      var rest := DpcRuns(DpcNext(s));
      dpc := [DpcStep] + rest;
      hide DpcNext, Shaped;
      assert dpc[1..] == rest && Apply(s, DpcStep) == DpcNext(s);
    }
  }

  lemma AfterDpc(s: State, rest: seq<Step>) returns (more: seq<Step>)
    requires Shaped(s) && Shaped(DpcEnd(s)) && Spoils(DpcEnd(s), rest)
    ensures Spoils(s, more)
  {
    hide DpcEnd, Shaped;
    var dpc := DpcRuns(s);
    more := dpc + rest;
    FromThen(s, dpc, rest);
  }

  /** What a DPC that does not decline has done when it ends. */
  function Swapped(s: State): State {
    s.(hw := Hardware(!s.info.header, 0, true), dpc := Idle,
       info := ProcessorInfo(!s.info.buffer, !s.info.header, !s.info.table, s.hw.base, s.hw.pos, false, true, false))
  }

  lemma EndsSwapped(s: State)
    requires 1 <= Point(s.dpc) <= 3 && (s.dpc == Check ==> s.info.interrupted || s.flushAll)
    ensures DpcEnd(s) == Swapped(s)
    decreases 4 - Point(s.dpc)
  {
    hide TableOffset;
    if s.dpc == ClearReady {
      var i4 := s.(info := s.info.(ready := false), dpc := SwapBuffers);
      var i5 := i4.(info := i4.info.(buffer := !i4.info.buffer), dpc := SwapHeaders);
      var i6 := i5.(info := i5.info.(header := !i5.info.header), dpc := SwapTables);
      EndsFrom(s, i4);
      EndsFrom(i4, i5);
      EndsFrom(i5, i6);
      CaptureEnds(i6);
    } else {
      EndsSwapped(DpcNext(s));
    }
  }

  lemma EndsFrom(s: State, t: State)
    requires s.dpc != Idle && DpcNext(s) == t
    ensures DpcEnd(s) == DpcEnd(t)
  {
  }

  lemma CaptureEnds(s: State)
    requires s.dpc == SwapTables
    ensures DpcEnd(s) == s.(hw := Hardware(s.info.header, 0, true), dpc := Idle,
                            info := ProcessorInfo(s.info.buffer, s.info.header, !s.info.table, s.hw.base, s.hw.pos,
                                                  s.info.ready, true, false))
  {
    hide DpcEnd, TableOffset;
    var i7 := s.(info := s.info.(table := !s.info.table), dpc := Capture);
    var i8 := i7.(info := i7.info.(saveBase := i7.hw.base, saveCount := i7.hw.pos), dpc := Initiate);
    EndsFrom(s, i7);
    EndsFrom(i7, i8);
    InitiateEnds(i8);
  }

  lemma InitiateEnds(s: State)
    requires s.dpc == Initiate
    ensures DpcEnd(s) == s.(hw := Hardware(s.info.header, 0, true), dpc := Idle,
                            info := s.info.(initiate := true, interrupted := false))
  {
    hide DpcEnd, TableOffset;
    var i9 := s.(info := s.info.(initiate := true), dpc := Reset);
    var i10 := i9.(info := i9.info.(interrupted := false), hw := i9.hw.(base := i9.info.header, pos := 0),
                   dpc := Enable);
    var i11 := i10.(hw := i10.hw.(enabled := true), dpc := Idle);
    EndsFrom(s, i9);
    EndsFrom(i9, i10);
    EndsFrom(i10, i11);
    IdleEnds(i11);
  }

  lemma IdleEnds(s: State)
    requires s.dpc == Idle
    ensures DpcEnd(s) == s
  {
  }

  // ----- When the DPC swaps -----

  /** The table offset is the one hardware reports that has stored as many bytes through the tables of setupToPA. */
  lemma TableOffsetIs(r: seq<TopaLayout.Entry>, m: TopaLayout.Memory, table: map<nat, nat>, last: nat, noPMI: bool,
                      n: nat)
    requires TopaLayout.Layout(r, m, table, last, noPMI) && TopaLayout.Distinct(m.headers) && n <= 4096 * |m.buffer|
    ensures |m.headers| > 0
    ensures TopaLayout.AfterBytes(r, m.headers, n).index == TableOffset(n, 4096 * |m.buffer|)
  {
    hide TopaLayout.Layout, TopaLayout.Distinct, TopaLayout.AfterBytes, TopaLayout.Followed, TopaLayout.Stored;
    if n < 4096 * |m.buffer| {
      TopaLayout.HardwareAt(r, m, table, last, noPMI, n / 4096 / 511, n / 4096 % 511, n % 4096);
    } else {
      TopaLayout.StoppedAt(r, m, table, last, noPMI);
    }
  }

  /** A DPC that has been queued swaps the buffers exactly when there was an interrupt, everything is to be flushed,
      or the table offset in the processor's IA32_RTIT_OUTPUT_MASK_PTRS is at least 2; otherwise it does nothing. */
  lemma SwapsExactly(r: seq<TopaLayout.Entry>, m: TopaLayout.Memory, table: map<nat, nat>, last: nat, noPMI: bool,
                     s: State)
    requires TopaLayout.Layout(r, m, table, last, noPMI) && TopaLayout.Distinct(m.headers) && |m.headers| > 0
    requires Shaped(s) && s.dpc == Check && |s.bytes.first| == 4096 * |m.buffer|
    ensures var mask := TopaLayout.MaskPointers(TopaLayout.AfterBytes(r, m.headers, s.hw.pos));
            && (DpcEnd(s) == Swapped(s) <==>
                  s.info.interrupted || s.flushAll || mask % 0x1_0000_0000 / 128 >= 2)
            && (DpcEnd(s) == Swapped(s) || DpcEnd(s) == s.(dpc := Idle))
  {
    hide TopaLayout.Layout, TopaLayout.Distinct, TopaLayout.AfterBytes, TopaLayout.MaskPointers, TableOffset;
    var p := TopaLayout.AfterBytes(r, m.headers, s.hw.pos);
    TableOffsetIs(r, m, table, last, noPMI, s.hw.pos);
    OffsetSmall(s.hw.pos, |s.bytes.first|);
    TopaLayout.MaskFields(p);
    if s.info.interrupted || s.flushAll || p.index >= 2 {
      EndsFrom(s, s.(dpc := Disable));
      EndsSwapped(s.(dpc := Disable));
    } else {
      EndsFrom(s, s.(dpc := Idle));
      IdleEnds(s.(dpc := Idle));
      assert Swapped(s).info.buffer != s.info.buffer;
    }
  }

  lemma OffsetSmall(pos: nat, capacity: nat)
    ensures TableOffset(pos, capacity) < 511
  {
  }

  /** The writer is about to size up a save whose event is set again: it saves the byte twice. */
  lemma SavesTwice(s: State) returns (more: seq<Step>)
    requires Shaped(s) && s.writer == Sizing && s.info.initiate && s.info.saveCount == 1 && |s.bytes.first| > 0
    requires s.info.saveBase == !s.info.table && s.info.table == s.info.buffer
    requires var b := s.bytes.Of(!s.info.buffer)[0]; !(s.bytes.saved + [b] + [b] <= s.bytes.recorded)
    ensures Spoils(s, more)
  {
    var src := !s.info.buffer;
    var t1 := s.(writer := Copying(src, 1, 0));
    var t2 := t1.(bytes := s.bytes.(saved := s.bytes.saved + [s.bytes.Of(src)[0]]), writer := Copying(src, 1, 1));
    var t3 := t2.(writer := Finishing);
    var t4 := t3.(info := s.info.(ready := true), writer := Sleeping);
    var t5 := t4.(info := t4.info.(initiate := false), writer := Sizing);
    var t6 := t5.(writer := Copying(src, 1, 0));
    more := LastByte(t6);
    hide Spoils;
    more := AndThen(t5, WriterStep, more);
    more := AndThen(t4, WriterStep, more);
    more := AndThen(t3, WriterStep, more);
    more := AndThen(t2, WriterStep, more);
    more := AndThen(t1, WriterStep, more);
    more := AndThen(s, WriterStep, more);
  }

  lemma LastByte(s: State) returns (more: seq<Step>)
    requires Shaped(s) && s.writer.Copying? && s.writer.done < s.writer.size
    requires !(s.bytes.saved + [s.bytes.Of(s.writer.src)[s.writer.done]] <= s.bytes.recorded)
    ensures Spoils(s, more)
  {
    more := AndThen(s, WriterStep, []);
  }

  /** The pointers of a DPC that has ended and the buffer of the hardware agree. */
  predicate Aligned(s: State) {
    && s.dpc == Idle && s.hw.enabled
    && s.info.buffer == s.hw.base && s.info.header == s.hw.base && s.info.table == s.hw.base
  }

  /** One byte is recorded before the second swap; the writer has not looked at the first one. */
  lemma SwapsAgain(s: State, g: nat) returns (more: seq<Step>)
    requires Shaped(s) && Aligned(s) && s.writer == Sizing && s.hw.pos == 1
    requires g < |s.flushers| && s.flushers[g].at == Passed
    requires var b := s.bytes.Of(s.hw.base)[0]; !(s.bytes.saved + [b] + [b] <= s.bytes.recorded)
    ensures Spoils(s, more)
  {
    var t1 := s.(info := s.info.(interrupted := true));
    var t2 := t1.(queued := true, flushers := t1.flushers[g := t1.flushers[g].(at := Flushing)]);
    var t3 := t2.(queued := false, dpc := Check);
    more := SavesTwice(Swapped(t3));
    EndsSwapped(t3);
    hide Spoils, DpcEnd, TableOffset;
    more := AfterDpc(t3, more);
    more := AndThen(t2, DpcStep, more);
    more := AndThen(t1, FlusherStep(g), more);
    more := AndThen(s, Interrupt, more);
  }

  /** After the first swap: the writer wakes, and byte b is recorded. */
  lemma RecordsOne(s: State, g: nat, b: int) returns (more: seq<Step>)
    requires Shaped(s) && Aligned(s) && s.writer == Sleeping && s.info.initiate && s.hw.pos == 0 && |s.bytes.first| > 0
    requires g < |s.flushers| && s.flushers[g].at == Passed
    requires !(s.bytes.saved + [b] + [b] <= s.bytes.recorded + [b])
    ensures Spoils(s, more)
  {
    var t1 := s.(info := s.info.(initiate := false), writer := Sizing);
    var t2 := Recording(t1, b);
    more := SwapsAgain(t2, g);
    hide Spoils, Aligned;
    more := AndThen(t1, Record(b), more);
    more := AndThen(s, WriterStep, more);
  }

  /** A thread is past the wait while the DPC is about to swap: it then has the buffers swapped again before the
      writer has looked at the first one. */
  lemma SwapsTwice(s: State, g: nat) returns (more: seq<Step>)
    requires Inv(s) && s.info.ready && 1 <= Point(s.dpc) <= 3 && s.info.interrupted && |s.bytes.first| > 0
    requires g < |s.flushers| && s.flushers[g].at == Passed
    ensures Spoils(s, more)
  {
    var b := s.bytes.Of(s.hw.base)[0] + 1;
    TwiceIsWrong(s, b);
    EndsSwapped(s);
    hide Spoils, Pending, Active, Conserved, Passing, DpcEnd, TableOffset;
    more := RecordsOne(Swapped(s), g, b);
    more := AfterDpc(s, more);
  }

  lemma TwiceIsWrong(s: State, b: int)
    requires Inv(s) && !Saving(s) && s.dpc != Reset && |s.bytes.first| > 0 && b != s.bytes.Of(s.hw.base)[0]
    ensures !(s.bytes.saved + [b] + [b] <= s.bytes.recorded + [b])
  {
    var (saved, recorded) := (s.bytes.saved, s.bytes.recorded);
    assert recorded == saved + Active(s);
    var twice := saved + [b] + [b];
    if s.hw.pos == 0 {
      assert |twice| > |recorded + [b]|;
    } else {
      assert twice[|saved|] == b && (recorded + [b])[|saved|] == s.bytes.Of(s.hw.base)[0];
    }
  }

  /** The DPC is queued and a thread is past the wait. */
  lemma QueuedBeside(s: State, g: nat) returns (more: seq<Step>)
    requires Inv(s) && s.info.ready && s.queued && |s.bytes.first| > 0
    requires g < |s.flushers| && s.flushers[g].at == Passed
    ensures Spoils(s, more)
    decreases if s.dpc == Idle then 0 else 11 - Point(s.dpc)
  {
    hide Spoils, Passing;
    if s.dpc == Idle {
      var t := s.(queued := false, dpc := Check);
      assert DpcNext(s) == t;
      StepKeeps(s, DpcStep);
      StepKeeps(s, Interrupt);
      var u := t.(info := t.info.(interrupted := true));
      assert Inv(u) by { SameApart(t, u); }
      more := SwapsTwice(u, g);
      more := AndThen(t, Interrupt, more);
      more := AndThen(s, DpcStep, more);
    } else {
      StepKeeps(s, DpcStep);
      more := QueuedBeside(DpcNext(s), g);
      more := AndThen(s, DpcStep, more);
    }
  }

  lemma SameApart(s: State, t: State)
    requires Inv(s) && t == s.(info := s.info.(interrupted := true))
    ensures Inv(t)
  {
    assert Passing(t) == Passing(s);
    FlushersOnly(s, t);
  }

  /** Two threads are past the wait. */
  lemma BothPassing(s: State, f: nat, g: nat) returns (more: seq<Step>)
    requires Inv(s) && s.info.ready && !Early(s.dpc) && |s.bytes.first| > 0 && f != g
    requires f < |s.flushers| && g < |s.flushers| && s.flushers[f].at == Passed && s.flushers[g].at == Passed
    ensures Spoils(s, more)
  {
    hide Spoils, Passing;
    StepKeeps(s, FlusherStep(f));
    hide Inv, Early;
    more := QueuedBeside(FlusherNext(s, f), g);
    more := AndThen(s, FlusherStep(f), more);
  }

  /** If the last thread past the wait was not alone, some continuation without a further one spoils the file. */
  lemma OverlapSpoils(s: State) returns (more: seq<Step>)
    requires Inv(s) && s.info.ready && !OneSwapDue(s) && |s.bytes.first| > 0
    ensures Spoils(s, more)
  {
    hide Spoils, Pending, Active, Conserved, Pointers;
    var g :| 0 <= g < |s.flushers| && s.flushers[g].at == Passed;
    if s.queued {
      more := QueuedBeside(s, g);
    } else if Early(s.dpc) {
      var t := s.(info := s.info.(interrupted := true));
      SameApart(s, t);
      more := SwapsTwice(t, g);
      more := AndThen(s, Interrupt, more);
    } else {
      var f, h :| 0 <= f < |s.flushers| && 0 <= h < |s.flushers| && s.flushers[f].at == Passed
                  && s.flushers[h].at == Passed && f != h;
      more := BothPassing(s, f, h);
    }
  }

  lemma StaysIntact(s: State, more: seq<Step>)
    requires Inv(s) && OneSwapDue(s) && NoPasses(s, more)
    ensures Intact(From(s, more))
  {
    hide Inv, Intact, OneSwapDue, NoPasses, SwapsApart;
    InvShaped(s);
    NoPassesApart(s, more);
    RunKeeps(s, more);
    InvIntact(From(s, more));
  }

  /** Where the last step took a thread past the wait, the buffer is still ready. */
  lemma OverlapIsNew(s: State, step: Step)
    requires Inv(s) && OneSwapDue(s) && Shaped(Apply(s, step)) && !OneSwapDue(Apply(s, step))
    ensures Apply(s, step).info.ready
  {
    if Passes(s, step) {
      FlusherFrame(s, step);
    } else {
      NoPassStays(s, step);
    }
  }

  lemma SafeExactlyAfter(s: State, step: Step)
    requires Inv(s) && OneSwapDue(s) && |s.bytes.first| > 0
    ensures var t := Apply(s, step);
            Shaped(t) && ((forall more | NoPasses(t, more) :: Intact(From(t, more))) <==> OneSwapDue(t))
  {
    InvShaped(s);
    StaysShaped(s, step);
    DueApart(s);
    StepKeeps(s, step);
    var t := Apply(s, step);
    hide Inv, Phases, Apply, NoPasses, Intact, Passing, From;
    if OneSwapDue(t) {
      hide OneSwapDue;
      forall more | NoPasses(t, more) ensures Intact(From(t, more)) {
        StaysIntact(t, more);
      }
    } else {
      OverlapIsNew(s, step);
      hide OneSwapDue;
      var more := OverlapSpoils(t);
      SpoiltIsNotIntact(t, more);
    }
  }

  lemma SpoiltIsNotIntact(s: State, more: seq<Step>)
    requires Shaped(s) && Spoils(s, more)
    ensures NoPasses(s, more) && !Intact(From(s, more))
  {
    hide NoPasses, From, Shaped, Apart, Conserved;
  }

  /** Keeping swaps apart is exactly what it takes: after a run that did, and one more step, the file stays right in
      every continuation in which no further thread gets past the wait if and only if at most one swap is due. */
  lemma SafeExactlyWhileSwapsApart(n: nat, capacity: nat, before: seq<Step>, step: Step)
    requires capacity > 0 && SwapsApart(Init(n, capacity), before)
    ensures var s := Run(n, capacity, before);
            var t := Apply(s, step);
            Shaped(t) && ((forall more | NoPasses(t, more) :: Intact(From(t, more))) <==> OneSwapDue(t))
  {
    InitInv(n, capacity);
    RunKeeps(Init(n, capacity), before);
    hide Inv, OneSwapDue, SwapsApart, NoPasses, Intact, Apply;
    SafeExactlyAfter(Run(n, capacity, before), step);
  }

  // ----- A run in which bufferWriterThread and ultimap2_flushBuffers overlap -----

  lemma RunStep(n: nat, capacity: nat, steps: seq<Step>, step: Step)
    ensures Run(n, capacity, steps + [step]) == Apply(Run(n, capacity, steps), step)
  {
    hide Apply;
    FromThen(Init(n, capacity), steps, [step]);
    assert [step][1..] == [];
  }

  lemma RunDpc(n: nat, capacity: nat, steps: seq<Step>) returns (after: seq<Step>)
    ensures Run(n, capacity, after) == DpcEnd(Run(n, capacity, steps))
  {
    var s := Run(n, capacity, steps);
    var dpc := DpcRuns(s);
    FromThen(Init(n, capacity), steps, dpc);
    after := steps + dpc;
  }

  /** bufferWriterThread, flusher 0, and a caller of ultimap2_flushBuffers, flusher 1, both get past the wait before
      either queues the DPC. */
  lemma BothPass(n: nat, capacity: nat) returns (steps: seq<Step>, flushers: seq<Flusher>)
    requires n >= 2 && capacity >= 1
    ensures |flushers| == n && flushers[0].at == Passed && flushers[1].at == Passed
    ensures var s0 := Init(n, capacity);
            Run(n, capacity, steps) == s0.(flushers := flushers, flushAll := true, hw := Hardware(false, 1, true),
                                           bytes := Bytes(s0.bytes.first[0 := 7], s0.bytes.second, [7], []))
  {
    hide Run;
    var s0 := Init(n, capacity);
    assert Run(n, capacity, []) == s0 by { RunNothing(n, capacity); }
    RunStep(n, capacity, [], Record(7));
    RunStep(n, capacity, [] + [Record(7)], Begin(0, false));
    RunStep(n, capacity, [] + [Record(7)] + [Begin(0, false)], Begin(1, true));
    RunStep(n, capacity, [] + [Record(7)] + [Begin(0, false)] + [Begin(1, true)], FlusherStep(0));
    RunStep(n, capacity, [] + [Record(7)] + [Begin(0, false)] + [Begin(1, true)] + [FlusherStep(0)], FlusherStep(1));
    steps := [] + [Record(7)] + [Begin(0, false)] + [Begin(1, true)] + [FlusherStep(0)] + [FlusherStep(1)];
    flushers := Run(n, capacity, steps).flushers;
  }

  lemma RunNothing(n: nat, capacity: nat)
    ensures Run(n, capacity, []) == Init(n, capacity)
  {
  }

  /** A thread queues the DPC, which has to flush everything and swaps the buffers. */
  lemma QueueAndSwap(n: nat, capacity: nat, steps: seq<Step>, f: nat) returns (after: seq<Step>)
    requires f < n
    requires var s := Run(n, capacity, steps);
             s.dpc == Idle && s.flushAll && s.flushers[f].at == Passed
    ensures var s := Run(n, capacity, steps);
            Run(n, capacity, after) == Swapped(s).(queued := false,
                                                   flushers := s.flushers[f := s.flushers[f].(at := Flushing)])
  {
    hide Run, DpcEnd;
    var s := Run(n, capacity, steps);
    RunStep(n, capacity, steps, FlusherStep(f));
    RunStep(n, capacity, steps + [FlusherStep(f)], DpcStep);
    after := RunDpc(n, capacity, steps + [FlusherStep(f)] + [DpcStep]);
    EndsSwapped(Run(n, capacity, steps + [FlusherStep(f)] + [DpcStep]));
  }

  /** The second DPC gives the hardware the buffer the writer is reading, and the next byte recorded overwrites one
      that has not been saved. */
  lemma OverlapCollides(n: nat, capacity: nat) returns (steps: seq<Step>)
    requires n >= 2 && capacity >= 1
    ensures !Apart(Run(n, capacity, steps)) && !Conserved(Run(n, capacity, steps + [Record(8)]))
  {
    hide Run;
    var flushers: seq<Flusher>;
    steps, flushers := BothPass(n, capacity);
    steps := QueueAndSwap(n, capacity, steps, 0);
    RunStep(n, capacity, steps, WriterStep);
    RunStep(n, capacity, steps + [WriterStep], WriterStep);
    steps := steps + [WriterStep] + [WriterStep];
    assert Run(n, capacity, steps).writer == Copying(false, 1, 0);
    steps := QueueAndSwap(n, capacity, steps, 1);
    RunStep(n, capacity, steps, Record(8));
    var t := Run(n, capacity, steps + [Record(8)]);
    assert Pending(t) == t.bytes.second[..0] && Active(t)[0] == 8;
    assert t.bytes.recorded == [7, 8];
  }
}
