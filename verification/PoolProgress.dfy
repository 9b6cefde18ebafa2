/** The pool of DBKKernel/ultimap.c makes progress: a block that is given back is released to the next producer, nobody
    waits for ever for somebody who waits too, and every buffer can be delivered. */
module PoolProgress {
  import opened BlockPool

  /** ultimap_continue ends with the semaphore released. */
  lemma ContinueReleases(s: State, c: nat)
    requires Inv(s) && c < |s.consumers| && s.consumers[c].Returning?
    ensures Shaped(s)
    ensures var t := ConsumerNext(s, c);
            t == s.(sem := s.sem + 1, consumers := s.consumers[c := Resting])
  {
    InvShaped(s);
    ConsumerCounted(s, c);
  }

  // ----- Nobody is stuck -----

  /** A producer's step changes nothing exactly when it has no buffer, waits at the semaphore with no block left, or
      waits for the mutex while somebody holds it. */
  lemma ProducerMovesExactly(s: State, p: nat)
    requires Shaped(s) && p < |s.producers|
    ensures ProducerNext(s, p) == s <==>
            || s.producers[p].Outside? || (s.producers[p].Waiting? && s.sem == 0)
            || (s.producers[p].Past? && s.mutex != Nobody)
  {
    var t := ProducerNext(s, p);
    match s.producers[p] {
      case Outside =>
      case Waiting(_) => assert s.sem > 0 ==> t.producers[p] != s.producers[p];
      case Past(_) => assert s.mutex == Nobody ==> t.producers[p] != s.producers[p];
      case Scanning(_, _) => assert t.producers[p] != s.producers[p];
      case Picked(_, _) => assert t.producers[p] != s.producers[p];
      case Stored(_) => assert t.producers[p] != s.producers[p];
      case Leaving => assert t.producers[p] != s.producers[p];
      case Missed(_) => assert t.producers[p] != s.producers[p];
    }
  }

  /** A worker's step changes nothing exactly when it waits for a block, or for the mutex while somebody holds it. */
  lemma ConsumerMovesExactly(s: State, c: nat)
    requires Shaped(s) && c < |s.consumers|
    ensures ConsumerNext(s, c) == s <==> s.consumers[c].Resting? || (s.consumers[c].Woken? && s.mutex != Nobody)
  {
    var t := ConsumerNext(s, c);
    match s.consumers[c] {
      case Resting =>
      case Woken(_) => assert s.mutex == Nobody ==> t.consumers[c] != s.consumers[c];
      case Reading(_) => assert t.consumers[c] != s.consumers[c];
      case HasData(_) => assert t.consumers[c] != s.consumers[c];
      case Handling(_) => assert t.consumers[c] != s.consumers[c];
      case Returning => assert t.consumers[c] != s.consumers[c];
    }
  }

  /** A worker that waits is woken exactly by a block that is ready. */
  lemma WakesExactly(s: State, c: nat, b: nat)
    requires c < |s.consumers| && b < |s.blocks| == |s.history.owner|
    ensures Waking(s, c, b) == s <==> !s.consumers[c].Resting? || !s.blocks[b].ready
  {
    var t := Waking(s, c, b);
    if s.consumers[c].Resting? && s.blocks[b].ready {
      assert t.consumers[c] != s.consumers[c];
    }
  }

  /** A step of a party that has begun: no further buffer comes in. */
  predicate AtWork(step: Step) { !step.Produce? }

  /** No producer has a buffer, every worker waits, and no block is ready. */
  predicate AtRest(s: State) {
    && (forall p | 0 <= p < |s.producers| :: s.producers[p].Outside?)
    && (forall c | 0 <= c < |s.consumers| :: s.consumers[c].Resting?)
    && forall b | 0 <= b < |s.blocks| :: !s.blocks[b].ready
  }

  /** The holder of the mutex can go on. */
  lemma HolderMoves(s: State) returns (step: Step)
    requires Inv(s) && s.mutex != Nobody
    ensures Shaped(s) && AtWork(step) && Apply(s, step) != s
  {
    InvShaped(s);
    match s.mutex
    case ByProducer(p) =>
      assert Inside(s.producers[p]);
      step := ProducerStep(p);
      ProducerMovesExactly(s, p);
    case ByConsumer(c) =>
      assert InsideToo(s.consumers[c]);
      step := ConsumerStep(c);
      ConsumerMovesExactly(s, c);
  }

  /** With nobody past the semaphore, nobody at work and no block ready, every block is available and counted. */
  lemma AllFree(s: State)
    requires Inv(s)
    requires forall p | 0 <= p < |s.producers| :: s.producers[p].Outside? || s.producers[p].Waiting?
    requires forall c | 0 <= c < |s.consumers| :: s.consumers[c].Resting?
    requires forall b | 0 <= b < |s.blocks| :: !s.blocks[b].ready
    ensures s.sem == |s.blocks| && forall b | 0 <= b < |s.blocks| :: s.blocks[b].available
  {
    forall b | 0 <= b < |s.blocks| ensures s.blocks[b].available {
      assert s.history.owner[b].Free?;
    }
    AllAvailable(s.blocks, |s.blocks|);
    assert (set b: nat | b < |s.blocks| && s.blocks[b].available) == Available(s);
    assert PastSemaphore(s) == {} && NotReleased(s) == {};
  }

  /** As long as somebody is at work somebody can make a step, given a block and a worker. */
  lemma SomebodyMoves(s: State) returns (step: Step)
    requires Inv(s) && !AtRest(s) && |s.blocks| > 0 && |s.consumers| > 0
    ensures Shaped(s) && AtWork(step) && Apply(s, step) != s
  {
    InvShaped(s);
    if s.mutex != Nobody {
      step := HolderMoves(s);
    } else if p :| 0 <= p < |s.producers| && !s.producers[p].Outside? && !(s.producers[p].Waiting? && s.sem == 0) {
      step := ProducerStep(p);
      ProducerMovesExactly(s, p);
    } else if c :| 0 <= c < |s.consumers| && !s.consumers[c].Resting? {
      step := ConsumerStep(c);
      ConsumerMovesExactly(s, c);
    } else if b :| 0 <= b < |s.blocks| && s.blocks[b].ready {
      step := Wake(0, b);
      WakesExactly(s, 0, b);
    } else {
      AllFree(s);
      assert false;
    }
  }

  // ----- Work runs out -----

  function ProducerWork(pc: Producer, blocks: nat): nat {
    match pc
    case Outside => 0
    case Leaving => 1
    case Missed(_) => 1
    case Stored(_) => 10
    case Picked(_, _) => 11
    case Scanning(_, i) => 12 + if i < blocks then blocks - i else 0
    case Past(_) => 13 + blocks
    case Waiting(_) => 14 + blocks
  }

  function ConsumerWork(pc: Consumer): nat {
    match pc
    case Resting => 0
    case Returning => 1
    case Handling(_) => 2
    case HasData(_) => 3
    case Reading(_) => 4
    case Woken(_) => 5
  }

  function ProducersWork(ps: seq<Producer>, blocks: nat): nat {
    if ps == [] then 0 else ProducerWork(ps[0], blocks) + ProducersWork(ps[1..], blocks)
  }

  function ConsumersWork(cs: seq<Consumer>): nat {
    if cs == [] then 0 else ConsumerWork(cs[0]) + ConsumersWork(cs[1..])
  }

  function ReadyWork(bs: seq<Block>): nat {
    if bs == [] then 0 else (if bs[0].ready then 6 else 0) + ReadyWork(bs[1..])
  }

  /** An upper bound for the steps still to be made by those at work. */
  function Work(s: State): nat {
    ProducersWork(s.producers, |s.blocks|) + ConsumersWork(s.consumers) + ReadyWork(s.blocks)
  }

  lemma {:induction false} OneProducer(ps: seq<Producer>, p: nat, pc: Producer, blocks: nat)
    requires p < |ps|
    ensures ProducersWork(ps[p := pc], blocks)
         == ProducersWork(ps, blocks) - ProducerWork(ps[p], blocks) + ProducerWork(pc, blocks)
  {
    if p == 0 {
      assert ps[p := pc][1..] == ps[1..];
    } else {
      assert ps[p := pc][1..] == ps[1..][p - 1 := pc];
      OneProducer(ps[1..], p - 1, pc, blocks);
    }
  }

  lemma {:induction false} OneConsumer(cs: seq<Consumer>, c: nat, pc: Consumer)
    requires c < |cs|
    ensures ConsumersWork(cs[c := pc]) == ConsumersWork(cs) - ConsumerWork(cs[c]) + ConsumerWork(pc)
  {
    if c == 0 {
      assert cs[c := pc][1..] == cs[1..];
    } else {
      assert cs[c := pc][1..] == cs[1..][c - 1 := pc];
      OneConsumer(cs[1..], c - 1, pc);
    }
  }

  lemma {:induction false} OneBlock(bs: seq<Block>, b: nat, block: Block)
    requires b < |bs|
    ensures ReadyWork(bs[b := block])
         == ReadyWork(bs) - (if bs[b].ready then 6 else 0) + if block.ready then 6 else 0
  {
    if b == 0 {
      assert bs[b := block][1..] == bs[1..];
    } else {
      assert bs[b := block][1..] == bs[1..][b - 1 := block];
      OneBlock(bs[1..], b - 1, block);
    }
  }

  /** A step with a block in hand, or one that picks a block or passes it by. */
  lemma BlockStepLowers(s: State, p: nat, b: nat)
    requires Shaped(s) && p < |s.producers| && b < |s.blocks|
    requires (HasBlock(s.producers[p]) && s.producers[p].block == b)
             || (s.producers[p].Scanning? && s.producers[p].i == b)
    ensures Work(ProducerNext(s, p)) < Work(s)
  {
    var t := ProducerNext(s, p);
    OwnWorkLowers(s, p, b);
    OneProducer(s.producers, p, t.producers[p], |s.blocks|);
    OneBlock(s.blocks, b, t.blocks[b]);
    hide ProducersWork, ProducerWork, ConsumersWork, ReadyWork, Shaped, ProducerNext;
  }

  /** What such a step takes from the producer's own work is more than a block that becomes ready adds. */
  lemma OwnWorkLowers(s: State, p: nat, b: nat)
    requires Shaped(s) && p < |s.producers| && b < |s.blocks|
    requires (HasBlock(s.producers[p]) && s.producers[p].block == b)
             || (s.producers[p].Scanning? && s.producers[p].i == b)
    ensures var t := ProducerNext(s, p);
            && |t.blocks| == |s.blocks| && |t.producers| == |s.producers| && t.consumers == s.consumers
            && t.blocks == s.blocks[b := t.blocks[b]] && t.producers == s.producers[p := t.producers[p]]
            && ProducerWork(t.producers[p], |s.blocks|) + (if t.blocks[b].ready then 6 else 0)
               < ProducerWork(s.producers[p], |s.blocks|) + if s.blocks[b].ready then 6 else 0
  {
    hide Shaped;
    match s.producers[p] { case Scanning(_, _) => case Picked(_, _) => case Stored(_) => }
  }

  lemma OtherStepLowers(s: State, p: nat)
    requires Shaped(s) && p < |s.producers| && ProducerNext(s, p) != s
    requires !HasBlock(s.producers[p]) && !(s.producers[p].Scanning? && s.producers[p].i < |s.blocks|)
    ensures Work(ProducerNext(s, p)) < Work(s)
  {
    var t := ProducerNext(s, p);
    OneProducer(s.producers, p, t.producers[p], |s.blocks|);
    assert t.blocks == s.blocks && t.producers == s.producers[p := t.producers[p]] && t.consumers == s.consumers;
    hide ProducersWork, ConsumersWork, ReadyWork, Shaped;
    match s.producers[p] {
      case Outside => case Waiting(_) => case Past(_) => case Scanning(_, _) => case Leaving => case Missed(_) =>
    }
  }

  lemma ProducerLowers(s: State, p: nat)
    requires Shaped(s) && p < |s.producers| && ProducerNext(s, p) != s
    ensures Work(ProducerNext(s, p)) < Work(s)
  {
    if HasBlock(s.producers[p]) {
      BlockStepLowers(s, p, s.producers[p].block);
    } else if s.producers[p].Scanning? && s.producers[p].i < |s.blocks| {
      BlockStepLowers(s, p, s.producers[p].i);
    } else {
      OtherStepLowers(s, p);
    }
  }

  lemma ConsumerLowers(s: State, c: nat)
    requires Shaped(s) && c < |s.consumers| && ConsumerNext(s, c) != s
    ensures Work(ConsumerNext(s, c)) < Work(s)
  {
    var t := ConsumerNext(s, c);
    OneConsumer(s.consumers, c, t.consumers[c]);
    if s.consumers[c].Handling? {
      var b := s.consumers[c].block;
      OneBlock(s.blocks, b, t.blocks[b]);
      assert t.blocks == s.blocks[b := t.blocks[b]];
    }
    assert t.consumers == s.consumers[c := t.consumers[c]];
    hide ProducersWork, ConsumersWork, ReadyWork;
    match s.consumers[c] {
      case Resting => case Woken(_) => case Reading(_) => case HasData(_) => case Handling(_) => case Returning =>
    }
  }

  lemma WakingLowers(s: State, c: nat, b: nat)
    requires Shaped(s) && c < |s.consumers| && b < |s.blocks| && Waking(s, c, b) != s
    ensures Work(Waking(s, c, b)) < Work(s)
  {
    OneConsumer(s.consumers, c, Woken(b));
    OneBlock(s.blocks, b, s.blocks[b].(ready := false));
  }

  lemma WorkLowers(s: State, step: Step)
    requires Shaped(s) && AtWork(step) && Apply(s, step) != s
    ensures Work(Apply(s, step)) < Work(s)
  {
    hide Work, ProducerNext, ConsumerNext, Waking;
    match step
    case ProducerStep(p) => ProducerLowers(s, p);
    case ConsumerStep(c) => ConsumerLowers(s, c);
    case Wake(c, b) => WakingLowers(s, c, b);
  }

  /** A run of parties at work in which every step changes something. */
  ghost predicate Busy(s: State, steps: seq<Step>)
    decreases |steps|
  {
    steps == [] ||
    (Shaped(s) && AtWork(steps[0]) && Apply(s, steps[0]) != s && Busy(Apply(s, steps[0]), steps[1..]))
  }

  ghost function After(s: State, steps: seq<Step>): State
    decreases |steps|
  {
    if steps == [] || !Shaped(s) then s else After(Apply(s, steps[0]), steps[1..])
  }

  /** Whoever moves, and in whatever order, the work is done after a bounded number of steps. */
  lemma {:induction false} BusyEnds(s: State, steps: seq<Step>)
    requires Busy(s, steps)
    ensures |steps| <= Work(s)
    decreases |steps|
  {
    hide Work, Apply;
    if steps == [] {
    } else {
      WorkLowers(s, steps[0]);
      BusyEnds(Apply(s, steps[0]), steps[1..]);
    }
  }

  /** Every block is back in the pool, and every buffer has been delivered. */
  predicate Drained(s: State) {
    && AtRest(s) && s.sem == |s.blocks|
    && (forall b | 0 <= b < |s.blocks| :: s.blocks[b].available)
    && forall id | 0 <= id < |s.history.place| :: id in s.history.delivered
  }

  lemma RestIsDrained(s: State)
    requires Inv(s) && AtRest(s)
    ensures Drained(s)
  {
    AllFree(s);
    assert forall b: nat | b < |s.blocks| :: s.history.owner[b].Free? && !Fresh(s, b);
    hide Fresh, Owned;
    forall id: nat | id < |s.history.place| ensures s.history.place[id].Delivered? {
    }
  }

  lemma {:induction false} Drains(s: State) returns (steps: seq<Step>)
    requires Inv(s) && |s.blocks| > 0 && |s.consumers| > 0
    ensures Busy(s, steps) && Drained(After(s, steps))
    decreases Work(s)
  {
    InvShaped(s);
    hide Apply, Work, Drained;
    if AtRest(s) {
      steps := [];
      RestIsDrained(s);
    } else {
      var step := SomebodyMoves(s);
      StepKeeps(s, step);
      ConsumersStay(s, step);
      hide Inv, AtRest, Shaped;
      WorkLowers(s, step);
      var rest := Drains(Apply(s, step));
      steps := [step] + rest;
      assert steps[1..] == rest;
    }
  }

  lemma ConsumersStay(s: State, step: Step)
    requires Shaped(s)
    ensures |Apply(s, step).consumers| == |s.consumers|
  {
  }

  /** After every run with a block and a worker the parties can finish what they have begun: all blocks come back, the
      semaphore counts them all, and every buffer ever produced has been delivered. */
  lemma EveryBufferDelivered(blocks: nat, producers: nat, consumers: nat, before: seq<Step>) returns (steps: seq<Step>)
    requires blocks > 0 && consumers > 0
    ensures var s := Run(blocks, producers, consumers, before);
            Busy(s, steps) && Drained(After(s, steps)) && |After(s, steps).blocks| == blocks
  {
    RunKeeps(blocks, producers, consumers, before);
    RunParties(blocks, producers, consumers, before);
    steps := Drains(Run(blocks, producers, consumers, before));
    BlocksStayAfter(Run(blocks, producers, consumers, before), steps);
  }

  lemma {:induction false} BlocksStayAfter(s: State, steps: seq<Step>)
    ensures |After(s, steps).blocks| == |s.blocks|
    decreases |steps|
  {
    hide Apply, Shaped;
    if steps != [] && Shaped(s) {
      BlocksStay(s, steps[0]);
      BlocksStayAfter(Apply(s, steps[0]), steps[1..]);
    }
  }

  lemma {:induction false} RunParties(blocks: nat, producers: nat, consumers: nat, steps: seq<Step>)
    ensures |Run(blocks, producers, consumers, steps).consumers| == consumers
  {
    hide Apply, Shaped;
    if steps != [] {
      RunParties(blocks, producers, consumers, steps[..|steps| - 1]);
      var before := Run(blocks, producers, consumers, steps[..|steps| - 1]);
      if Shaped(before) {
        ConsumersStay(before, steps[|steps| - 1]);
      }
    }
  }
}
