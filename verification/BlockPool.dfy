/** The pool of data blocks in DBKKernel/ultimap.c: any number of producers (the perfmon interrupt handlers)
    and consumers (user-mode workers) around one semaphore, one mutex and an event per block, in every interleaving. */
module BlockPool {
  datatype Block = Block(available: bool, ready: bool, data: nat)

  /** A producer with buffer `temp`: before the semaphore, past it, looking at block i with the mutex held, and so on.
      `Missed` is the branch in which no block was found. */
  datatype Producer =
    | Outside
    | Waiting(temp: nat)
    | Past(temp: nat)
    | Scanning(temp: nat, i: nat)
    | Picked(temp: nat, block: nat)
    | Stored(block: nat)
    | Leaving
    | Missed(temp: nat)

  /** A worker: woken by a block's event, inside the mutex before and after it took the data, handling the data,
      and inside ultimap_continue between its two writes. */
  datatype Consumer = Resting | Woken(block: nat) | Reading(block: nat) | HasData(block: nat) | Handling(block: nat)
      | Returning

  datatype Holder = Nobody | ByProducer(p: nat) | ByConsumer(c: nat)

  /** Bookkeeping that no step looks at: who has each block, where each buffer is, and the buffers delivered so far. */
  datatype Owner = Free | Claimed(p: nat) | Queued | Held(c: nat)
  datatype Place = AtProducer(p: nat) | InBlock(b: nat) | Delivered
  datatype History = History(owner: seq<Owner>, place: seq<Place>, delivered: seq<nat>)

  datatype State = State(blocks: seq<Block>, sem: nat, mutex: Holder, producers: seq<Producer>,
                         consumers: seq<Consumer>,
                         faulted: bool, history: History)

  datatype Step = Produce(p: nat) | ProducerStep(p: nat) | Wake(c: nat, b: nat) | ConsumerStep(c: nat)

  function Init(blocks: nat, producers: nat, consumers: nat): State {
    State(seq(blocks, i => Block(true, false, 0)), blocks, Nobody, seq(producers, i => Outside),
        seq(consumers, i => Resting),
          false, History(seq(blocks, i => Free), [], []))
  }

  function SetProducer(s: State, p: nat, pc: Producer): State
    requires p < |s.producers|
  {
    s.(producers := s.producers[p := pc])
  }

  function SetConsumer(s: State, c: nat, pc: Consumer): State
    requires c < |s.consumers|
  {
    s.(consumers := s.consumers[c := pc])
  }

  function SetBlock(s: State, b: nat, block: Block, owner: Owner): State
    requires b < |s.blocks| == |s.history.owner|
  {
    s.(blocks := s.blocks[b := block], history := s.history.(owner := s.history.owner[b := owner]))
  }

  /** A handler starts with a buffer of its own. */
  function Producing(s: State, p: nat): State
    requires p < |s.producers|
  {
    if s.producers[p] != Outside then s
    else
      SetProducer(s, p, Waiting(|s.history.place|))
      .(history := s.history.(place := s.history.place + [AtProducer(p)]))
  }

  function ProducerNext(s: State, p: nat): State
    requires p < |s.producers| && Shaped(s)
  {
    match s.producers[p]
    case Outside => s
    case Waiting(t) => if s.sem > 0 then SetProducer(s, p, Past(t)).(sem := s.sem - 1) else s
    case Past(t) => if s.mutex == Nobody then SetProducer(s, p, Scanning(t, 0)).(mutex := ByProducer(p)) else s
    case Scanning(t, i) =>
      if i >= |s.blocks| then SetProducer(s, p, Missed(t))
      else if s.blocks[i].available then
        SetBlock(SetProducer(s, p, Picked(t, i)), i, s.blocks[i].(available := false), Claimed(p))
      else SetProducer(s, p, Scanning(t, i + 1))
    case Picked(t, b) =>
      var u := SetBlock(SetProducer(s, p, Stored(b)), b, s.blocks[b].(data := t), Claimed(p));
      u.(history := u.history.(place := u.history.place[t := InBlock(b)]))
    case Stored(b) => SetBlock(SetProducer(s, p, Leaving), b, s.blocks[b].(ready := true), Queued)
    case Leaving => SetProducer(s, p, Outside).(mutex := Nobody)
    case Missed(t) => SetProducer(s, p, Outside).(mutex := Nobody)
  }

  /** KeWaitForMultipleObjects returns for one set event and resets it. */
  function Waking(s: State, c: nat, b: nat): State
    requires c < |s.consumers| && b < |s.blocks| == |s.history.owner|
  {
    if s.consumers[c] != Resting || !s.blocks[b].ready then s
    else SetBlock(SetConsumer(s, c, Woken(b)), b, s.blocks[b].(ready := false), Held(c))
  }

  /** ultimap_waitForData after the wait, then ultimap_continue; a release past the limit raises an exception. */
  function ConsumerNext(s: State, c: nat): State
    requires c < |s.consumers| && Shaped(s)
  {
    match s.consumers[c]
    case Resting => s
    case Woken(b) => if s.mutex == Nobody then SetConsumer(s, c, Reading(b)).(mutex := ByConsumer(c)) else s
    case Reading(b) =>
      var id := s.blocks[b].data;
      SetConsumer(s, c, HasData(b)).(history := s.history.(
        place := if id < |s.history.place| then s.history.place[id := Delivered] else s.history.place,
        delivered := s.history.delivered + [id]))
    case HasData(b) => SetConsumer(s, c, Handling(b)).(mutex := Nobody)
    case Handling(b) => SetBlock(SetConsumer(s, c, Returning), b, s.blocks[b].(available := true), Free)
    case Returning =>
      if s.sem < |s.blocks| then SetConsumer(s, c, Resting).(sem := s.sem + 1)
      else SetConsumer(s, c, Resting).(faulted := true)
  }

  /** Block and buffer numbers are in range. */
  predicate Shaped(s: State) {
    && |s.history.owner| == |s.blocks|
    && (forall p: nat | p < |s.producers| && HasBlock(s.producers[p]) :: s.producers[p].block < |s.blocks|)
    && (forall p: nat | p < |s.producers| && s.producers[p].Picked? :: s.producers[p].temp < |s.history.place|)
    && forall c: nat | c < |s.consumers| && Holds(s.consumers[c]) :: s.consumers[c].block < |s.blocks|
  }

  /** One step of one party; a party that cannot move leaves the state alone. */
  function Apply(s: State, step: Step): State
    requires Shaped(s)
  {
    match step
    case Produce(p) => if p < |s.producers| then Producing(s, p) else s
    case ProducerStep(p) => if p < |s.producers| then ProducerNext(s, p) else s
    case Wake(c, b) => if c < |s.consumers| && b < |s.blocks| then Waking(s, c, b) else s
    case ConsumerStep(c) => if c < |s.consumers| then ConsumerNext(s, c) else s
  }

  // ----- Invariants -----

  predicate HasBlock(pc: Producer) { pc.Picked? || pc.Stored? }

  predicate Holds(pc: Consumer) { pc.Woken? || pc.Reading? || pc.HasData? || pc.Handling? }

  /** The two flags of every block follow from who has it, and whoever has a block is the only one. */
  ghost predicate Owned(s: State) {
    var owner := s.history.owner;
    && |owner| == |s.blocks|
    && (forall b: nat | b < |owner| ::
          && (s.blocks[b].available <==> owner[b].Free?)
          && (s.blocks[b].ready <==> owner[b].Queued?)
          && (owner[b].Claimed? ==>
                owner[b].p < |s.producers| && HasBlock(s.producers[owner[b].p])
                && s.producers[owner[b].p].block == b)
          && (owner[b].Held? ==>
                owner[b].c < |s.consumers| && Holds(s.consumers[owner[b].c])
                && s.consumers[owner[b].c].block == b))
    && (forall p: nat | p < |s.producers| && HasBlock(s.producers[p]) ::
          s.producers[p].block < |owner| && owner[s.producers[p].block] == Claimed(p))
    && (forall c: nat | c < |s.consumers| && Holds(s.consumers[c]) ::
          s.consumers[c].block < |owner| && owner[s.consumers[c].block] == Held(c))
  }

  predicate Inside(pc: Producer) { pc.Scanning? || pc.Picked? || pc.Stored? || pc.Leaving? || pc.Missed? }

  predicate InsideToo(pc: Consumer) { pc.Reading? || pc.HasData? }

  /** The mutex has one holder. */
  ghost predicate Mutual(s: State) {
    && (s.mutex.ByProducer? ==> s.mutex.p < |s.producers|) && (s.mutex.ByConsumer? ==> s.mutex.c < |s.consumers|)
    && (forall p: nat | p < |s.producers| :: Inside(s.producers[p]) <==> s.mutex == ByProducer(p))
    && (forall c: nat | c < |s.consumers| :: InsideToo(s.consumers[c]) <==> s.mutex == ByConsumer(c))
  }

  /** A producer that looks for a block still has one ahead of it. */
  ghost predicate Ahead(s: State, i: nat) {
    exists b :: i <= b < |s.blocks| && s.blocks[b].available
  }

  ghost predicate Finds(s: State) {
    forall p: nat | p < |s.producers| ::
      && !s.producers[p].Missed?
      && (s.producers[p].Scanning? ==> Ahead(s, s.producers[p].i))
  }

  function Available(s: State): set<nat> { set b: nat | b < |s.blocks| && s.blocks[b].available }

  predicate IsPast(pc: Producer) { pc.Past? || pc.Scanning? }

  function PastSemaphore(s: State): set<nat> {
    set p: nat | p < |s.producers| && IsPast(s.producers[p])
  }

  function NotReleased(s: State): set<nat> { set c: nat | c < |s.consumers| && s.consumers[c].Returning? }

  /** Available blocks: the semaphore's count, producers past it that have not picked, and continues not yet
      released. */
  predicate Counted(s: State) {
    && |Available(s)| == s.sem + |PastSemaphore(s)| + |NotReleased(s)|
    && !s.faulted
  }

  /** Block b holds a buffer nobody has been given yet. */
  predicate Fresh(s: State, b: nat)
    requires b < |s.blocks| == |s.history.owner|
  {
    match s.history.owner[b]
    case Free => false
    case Claimed(p) => p < |s.producers| && s.producers[p].Stored?
    case Queued => true
    case Held(c) => c < |s.consumers| && (s.consumers[c].Woken? || s.consumers[c].Reading?)
  }

  predicate HasBuffer(pc: Producer) { pc.Waiting? || pc.Past? || pc.Scanning? || pc.Picked? || pc.Missed? }

  predicate NoRepeats(ids: seq<nat>) {
    forall i, j | 0 <= i < j < |ids| :: ids[i] != ids[j]
  }

  /** Every buffer is with its producer, in one fresh block, or delivered once. */
  ghost predicate Placed(s: State)
    requires |s.history.owner| == |s.blocks|
  {
    var place := s.history.place;
    && (forall p: nat | p < |s.producers| && HasBuffer(s.producers[p]) ::
          s.producers[p].temp < |place| && place[s.producers[p].temp] == AtProducer(p))
    && (forall b: nat | b < |s.blocks| && Fresh(s, b) :: s.blocks[b].data < |place|
          && place[s.blocks[b].data] == InBlock(b))
    && (forall id: nat | id < |place| ::
          && (place[id].AtProducer? ==>
                place[id].p < |s.producers| && HasBuffer(s.producers[place[id].p])
                && s.producers[place[id].p].temp == id)
          && (place[id].InBlock? ==>
                place[id].b < |s.blocks| && Fresh(s, place[id].b)
                && s.blocks[place[id].b].data == id)
          && (place[id].Delivered? ==> id in s.history.delivered))
    && (forall id: nat | id in s.history.delivered :: id < |place| && place[id] == Delivered)
    && NoRepeats(s.history.delivered)
  }

  ghost predicate Inv(s: State) {
    Owned(s) && Mutual(s) && Finds(s) && Counted(s) && Placed(s)
  }

  lemma OwnedShaped(s: State)
    requires Owned(s) && Placed(s)
    ensures Shaped(s)
  {
    assert forall p: nat | p < |s.producers| && s.producers[p].Picked? :: HasBuffer(s.producers[p]);
  }

  // ----- Who has what -----

  /** A step that gives and takes no block. */
  lemma OtherwiseOwned(s: State, t: State)
    requires Owned(s) && t.blocks == s.blocks && t.history.owner == s.history.owner
    requires |t.producers| == |s.producers| && |t.consumers| == |s.consumers|
    requires forall p: nat | p < |s.producers| ::
               t.producers[p] == s.producers[p]
               || (!HasBlock(s.producers[p]) && !HasBlock(t.producers[p]))
    requires forall c: nat | c < |s.consumers| ::
               t.consumers[c] == s.consumers[c] || (!Holds(s.consumers[c]) && !Holds(t.consumers[c]))
               || (Holds(s.consumers[c]) && Holds(t.consumers[c]) && t.consumers[c].block == s.consumers[c].block)
    ensures Owned(t)
  {
  }

  lemma PickOwned(s: State, p: nat)
    requires Shaped(s) && Owned(s) && p < |s.producers| && s.producers[p].Scanning?
    ensures Owned(ProducerNext(s, p))
  {
    var t, i := ProducerNext(s, p), s.producers[p].i;
    if i < |s.blocks| && s.blocks[i].available {
      assert t.history.owner == s.history.owner[i := Claimed(p)] && t.blocks == s.blocks[i := t.blocks[i]];
    } else {
      OtherwiseOwned(s, t);
    }
  }

  lemma StoreOwned(s: State, p: nat)
    requires Shaped(s) && Owned(s) && p < |s.producers| && HasBlock(s.producers[p])
    ensures Owned(ProducerNext(s, p))
  {
    var t, b := ProducerNext(s, p), s.producers[p].block;
    assert t.history.owner == s.history.owner[b := t.history.owner[b]] && t.blocks == s.blocks[b := t.blocks[b]];
  }

  lemma ProducerOwned(s: State, p: nat)
    requires Shaped(s) && Owned(s) && p < |s.producers|
    ensures Owned(ProducerNext(s, p))
  {
    if s.producers[p].Scanning? {
      PickOwned(s, p);
    } else if HasBlock(s.producers[p]) {
      StoreOwned(s, p);
    } else {
      OtherwiseOwned(s, ProducerNext(s, p));
    }
  }

  lemma ProducingOwned(s: State, p: nat)
    requires Owned(s) && p < |s.producers|
    ensures Owned(Producing(s, p))
  {
  }

  lemma ContinueOwned(s: State, c: nat)
    requires Shaped(s) && Owned(s) && c < |s.consumers| && s.consumers[c].Handling?
    ensures Owned(ConsumerNext(s, c))
  {
    var t, b := ConsumerNext(s, c), s.consumers[c].block;
    assert t.history.owner == s.history.owner[b := Free] && t.blocks == s.blocks[b := t.blocks[b]];
  }

  lemma ConsumerOwned(s: State, c: nat)
    requires Shaped(s) && Owned(s) && c < |s.consumers|
    ensures Owned(ConsumerNext(s, c))
  {
    if s.consumers[c].Handling? {
      ContinueOwned(s, c);
    } else {
      OtherwiseOwned(s, ConsumerNext(s, c));
    }
  }

  lemma WakingOwned(s: State, c: nat, b: nat)
    requires Shaped(s) && Owned(s) && c < |s.consumers| && b < |s.blocks|
    ensures Owned(Waking(s, c, b))
  {
  }

  lemma ProducerMutual(s: State, p: nat)
    requires Shaped(s) && Mutual(s) && p < |s.producers|
    ensures Mutual(ProducerNext(s, p)) && Mutual(Producing(s, p))
  {
    match s.producers[p]
    case Outside => case Waiting(_) => case Past(_) => case Scanning(_, _) => case Picked(_, _) =>
    case Stored(_) => case Leaving => case Missed(_) =>
  }

  lemma ConsumerMutual(s: State, c: nat)
    requires Shaped(s) && Mutual(s) && c < |s.consumers|
    ensures Mutual(ConsumerNext(s, c))
  {
    match s.consumers[c]
    case Resting => case Woken(_) => case Reading(_) => case HasData(_) => case Handling(_) => case Returning =>
  }

  lemma WakingMutual(s: State, c: nat, b: nat)
    requires Shaped(s) && Mutual(s) && c < |s.consumers| && b < |s.blocks|
    ensures Mutual(Waking(s, c, b))
  {
  }

  // ----- Counting -----

  function One(b: bool): int { if b then 1 else 0 }

  lemma PastChanges(s: State, t: State, p: nat)
    requires p < |s.producers| == |t.producers| && t.producers == s.producers[p := t.producers[p]]
    ensures |PastSemaphore(t)| == |PastSemaphore(s)| - One(IsPast(s.producers[p])) + One(IsPast(t.producers[p]))
  {
    var rest := PastSemaphore(s) - {p};
    assert PastSemaphore(s) == if IsPast(s.producers[p]) then rest + {p} else rest;
    assert PastSemaphore(t) == if IsPast(t.producers[p]) then rest + {p} else rest;
  }

  lemma ReleasedChanges(s: State, t: State, c: nat)
    requires c < |s.consumers| == |t.consumers| && t.consumers == s.consumers[c := t.consumers[c]]
    ensures |NotReleased(t)| == |NotReleased(s)| - One(s.consumers[c].Returning?) + One(t.consumers[c].Returning?)
  {
    var rest := NotReleased(s) - {c};
    assert NotReleased(s) == if s.consumers[c].Returning? then rest + {c} else rest;
    assert NotReleased(t) == if t.consumers[c].Returning? then rest + {c} else rest;
  }

  lemma AvailableChanges(s: State, t: State, b: nat)
    requires b < |s.blocks| == |t.blocks| && t.blocks == s.blocks[b := t.blocks[b]]
    ensures |Available(t)| == |Available(s)| - One(s.blocks[b].available) + One(t.blocks[b].available)
  {
    var rest := Available(s) - {b};
    assert Available(s) == if s.blocks[b].available then rest + {b} else rest;
    assert Available(t) == if t.blocks[b].available then rest + {b} else rest;
  }

  lemma {:induction false} Bounded(s: set<nat>, n: nat)
    requires forall x | x in s :: x < n
    ensures |s| <= n
  {
    if n > 0 {
      Bounded(s - {n - 1}, n - 1);
      assert s <= (s - {n - 1}) + {n - 1};
      assert |s| <= |(s - {n - 1}) + {n - 1}|;
    } else {
      assert s == {};
    }
  }

  lemma ProducerCounted(s: State, p: nat)
    requires Shaped(s) && Owned(s) && Finds(s) && Counted(s) && p < |s.producers|
    ensures Counted(ProducerNext(s, p))
  {
    var t := ProducerNext(s, p);
    hide PastSemaphore, Available, NotReleased;
    PastChanges(s, t, p);
    assert NotReleased(t) == NotReleased(s) by { SameConsumers(s, t); }
    if s.producers[p].Scanning? && s.producers[p].i < |s.blocks| {
      AvailableChanges(s, t, s.producers[p].i);
    } else if HasBlock(s.producers[p]) {
      AvailableChanges(s, t, s.producers[p].block);
    } else {
      assert Available(t) == Available(s) by { SameBlocks(s, t); }
    }
    match s.producers[p]
    case Outside => case Waiting(_) => case Past(_) => case Scanning(_, _) => case Picked(_, _) =>
    case Stored(_) => case Leaving => case Missed(_) =>
  }

  lemma SameConsumers(s: State, t: State)
    requires t.consumers == s.consumers
    ensures NotReleased(t) == NotReleased(s)
  {
  }

  lemma SameProducers(s: State, t: State)
    requires t.producers == s.producers
    ensures PastSemaphore(t) == PastSemaphore(s)
  {
  }

  lemma SameBlocks(s: State, t: State)
    requires t.blocks == s.blocks
    ensures Available(t) == Available(s)
  {
  }

  lemma ProducingCounted(s: State, p: nat)
    requires Counted(s) && p < |s.producers|
    ensures Counted(Producing(s, p))
  {
    var t := Producing(s, p);
    PastChanges(s, t, p);
    SameConsumers(s, t);
    SameBlocks(s, t);
  }

  /** The semaphore can always be released: a continue in progress keeps its count below the number of blocks. */
  lemma ConsumerCounted(s: State, c: nat)
    requires Shaped(s) && Owned(s) && Counted(s) && c < |s.consumers|
    ensures Counted(ConsumerNext(s, c))
  {
    var t := ConsumerNext(s, c);
    Bounded(Available(s), |s.blocks|);
    hide PastSemaphore, Available, NotReleased;
    ReleasedChanges(s, t, c);
    SameProducers(s, t);
    if s.consumers[c].Handling? {
      AvailableChanges(s, t, s.consumers[c].block);
    } else {
      SameBlocks(s, t);
    }
    if s.consumers[c].Returning? {
      assert c in NotReleased(s) by { IsReturning(s, c); }
      assert |NotReleased(s)| >= 1;
    }
    match s.consumers[c]
    case Resting => case Woken(_) => case Reading(_) => case HasData(_) => case Handling(_) => case Returning =>
  }

  lemma IsReturning(s: State, c: nat)
    requires c < |s.consumers| && s.consumers[c].Returning?
    ensures c in NotReleased(s)
  {
  }

  lemma WakingCounted(s: State, c: nat, b: nat)
    requires Shaped(s) && Owned(s) && Counted(s) && c < |s.consumers| && b < |s.blocks|
    ensures Counted(Waking(s, c, b))
  {
    var t := Waking(s, c, b);
    ReleasedChanges(s, t, c);
    SameProducers(s, t);
    AvailableChanges(s, t, b);
  }

  // ----- Finding a block -----

  lemma ProducerFinds(s: State, p: nat)
    requires Shaped(s) && Owned(s) && Mutual(s) && Counted(s) && Finds(s) && p < |s.producers|
    ensures Finds(ProducerNext(s, p))
  {
    var t := ProducerNext(s, p);
    forall q: nat | q < |s.producers| && q != p && Inside(s.producers[p]) ensures !s.producers[q].Scanning? {
      assert Inside(s.producers[q]) ==> s.mutex == ByProducer(q);
    }
    if s.producers[p].Past? {
      assert p in PastSemaphore(s);
      assert |PastSemaphore(s)| >= 1;
      assert Available(s) != {};
      var b :| b in Available(s);
      assert Ahead(s, 0);
    }
    match s.producers[p]
    case Outside => case Waiting(_) => case Past(_) => 
    case Scanning(_, i) =>
      if i < |s.blocks| && !s.blocks[i].available {
        var b :| i <= b < |s.blocks| && s.blocks[b].available;
        assert Ahead(t, i + 1);
      }
    case Picked(_, _) =>
    case Stored(_) => case Leaving => case Missed(_) =>
  }

  /** Blocks only become available while somebody looks for one. */
  lemma AheadStays(s: State, t: State)
    requires Finds(s) && t.producers == s.producers && |t.blocks| == |s.blocks|
    requires forall b: nat | b < |s.blocks| && s.blocks[b].available :: t.blocks[b].available
    ensures Finds(t)
  {
    forall p: nat | p < |s.producers| && s.producers[p].Scanning? ensures Ahead(t, s.producers[p].i) {
      var b :| s.producers[p].i <= b < |s.blocks| && s.blocks[b].available;
    }
  }

  lemma ProducingFinds(s: State, p: nat)
    requires Finds(s) && p < |s.producers|
    ensures Finds(Producing(s, p))
  {
    assert forall i: nat | Ahead(s, i) :: Ahead(Producing(s, p), i);
  }

  // ----- Where every buffer is -----

  /** A step that moves no buffer. */
  lemma PlacedStays(s: State, t: State)
    requires SameContents(s, t) && Placed(s)
    requires t.history.place == s.history.place && t.history.delivered == s.history.delivered
    requires |t.producers| == |s.producers|
    requires forall p: nat | p < |s.producers| ::
               HasBuffer(t.producers[p]) == HasBuffer(s.producers[p])
               && (HasBuffer(s.producers[p]) ==> t.producers[p].temp == s.producers[p].temp)
    ensures Placed(t)
  {
  }

  /** Every block holds the same data, given to somebody or not. */
  ghost predicate SameContents(s: State, t: State) {
    && |s.history.owner| == |s.blocks| == |t.history.owner| == |t.blocks|
    && forall b: nat | b < |s.blocks| :: t.blocks[b].data == s.blocks[b].data && Fresh(t, b) == Fresh(s, b)
  }

  predicate StillToRead(pc: Consumer) { pc.Woken? || pc.Reading? }

  lemma ContentsStay(s: State, t: State)
    requires |s.history.owner| == |s.blocks| && t.blocks == s.blocks && t.history.owner == s.history.owner
    requires |t.producers| == |s.producers| && forall p: nat | p < |s.producers| ::
        t.producers[p].Stored? == s.producers[p].Stored?
    requires |t.consumers| == |s.consumers| && forall c: nat | c < |s.consumers| ::
        StillToRead(t.consumers[c]) == StillToRead(s.consumers[c])
    ensures SameContents(s, t)
  {
  }

  /** Picking a free block, and queueing a filled one. */
  lemma BlockContents(s: State, p: nat, b: nat)
    requires Shaped(s) && Owned(s) && p < |s.producers| && b < |s.blocks|
    requires (s.producers[p].Scanning? && s.producers[p].i == b && s.blocks[b].available) || s.producers[p] == Stored(b)
    ensures SameContents(s, ProducerNext(s, p))
  {
    var t := ProducerNext(s, p);
    assert t.history.owner == s.history.owner[b := t.history.owner[b]] && t.blocks == s.blocks[b := t.blocks[b]];
    assert t.producers == s.producers[p := t.producers[p]];
    assert Fresh(t, b) == Fresh(s, b);
    forall d: nat | d < |s.blocks| && d != b ensures Fresh(t, d) == Fresh(s, d) {
    }
  }

  /** A filled block is the only one whose contents change. */
  lemma StoreContents(s: State, p: nat)
    requires Shaped(s) && Owned(s) && p < |s.producers| && s.producers[p].Picked?
    ensures var (t, b) := (ProducerNext(s, p), s.producers[p].block);
            && |t.blocks| == |t.history.owner| == |s.blocks| && t.blocks[b].data == s.producers[p].temp
            && Fresh(t, b) && !Fresh(s, b)
            && forall c: nat | c < |s.blocks| && c != b ::
                 Fresh(t, c) == Fresh(s, c) && t.blocks[c].data == s.blocks[c].data
  {
    var t, b := ProducerNext(s, p), s.producers[p].block;
    assert t.producers == s.producers[p := Stored(b)];
    forall c: nat | c < |s.blocks| && c != b
      ensures Fresh(t, c) == Fresh(s, c) && t.blocks[c].data == s.blocks[c].data
    {
      assert t.history.owner[c] == s.history.owner[c];
    }
  }

  lemma StorePlaced(s: State, p: nat)
    requires Shaped(s) && Owned(s) && Placed(s) && p < |s.producers| && s.producers[p].Picked?
    ensures |ProducerNext(s, p).history.owner| == |ProducerNext(s, p).blocks| && Placed(ProducerNext(s, p))
  {
    var t, b, id := ProducerNext(s, p), s.producers[p].block, s.producers[p].temp;
    StoreContents(s, p);
    assert t.producers == s.producers[p := Stored(b)] && t.history.place == s.history.place[id := InBlock(b)];
    assert t.history.delivered == s.history.delivered;
    hide Fresh, Owned, Shaped, ProducerNext;
  }

  lemma ProducerPlaced(s: State, p: nat)
    requires Shaped(s) && Owned(s) && Finds(s) && Placed(s) && p < |s.producers|
    ensures |ProducerNext(s, p).history.owner| == |ProducerNext(s, p).blocks| && Placed(ProducerNext(s, p))
  {
    hide Placed, Finds, Owned, SameContents, Fresh;
    var t := ProducerNext(s, p);
    if s.producers[p].Picked? {
      StorePlaced(s, p);
    } else if s.producers[p].Scanning? && s.producers[p].i < |s.blocks| && s.blocks[s.producers[p].i].available {
      BlockContents(s, p, s.producers[p].i);
      PlacedStays(s, t);
    } else if s.producers[p].Stored? {
      BlockContents(s, p, s.producers[p].block);
      PlacedStays(s, t);
    } else {
      NeverMissed(s, p);
      ContentsStay(s, t);
      PlacedStays(s, t);
    }
  }

  lemma NeverMissed(s: State, p: nat)
    requires Finds(s) && p < |s.producers|
    ensures !s.producers[p].Missed?
  {
  }

  lemma ProducingPlaced(s: State, p: nat)
    requires |s.history.owner| == |s.blocks| && Placed(s) && p < |s.producers|
    ensures Placed(Producing(s, p))
  {
    var t := Producing(s, p);
    assert forall b: nat | b < |s.blocks| :: Fresh(t, b) == Fresh(s, b);
  }

  lemma WakingPlaced(s: State, c: nat, b: nat)
    requires Shaped(s) && Owned(s) && Placed(s) && c < |s.consumers| && b < |s.blocks|
    ensures Placed(Waking(s, c, b))
  {
    var t := Waking(s, c, b);
    hide Placed;
    PlacedStays(s, t);
  }

  lemma AddsNew(ids: seq<nat>, id: nat)
    requires NoRepeats(ids) && id !in ids
    ensures NoRepeats(ids + [id])
  {
  }

  lemma DeliverPlaced(s: State, c: nat)
    requires Shaped(s) && Owned(s) && Placed(s) && c < |s.consumers| && s.consumers[c].Reading?
    ensures Placed(ConsumerNext(s, c))
  {
    var t, b := ConsumerNext(s, c), s.consumers[c].block;
    var id := s.blocks[b].data;
    assert Fresh(s, b) && !Fresh(t, b);
    assert t.history.place == s.history.place[id := Delivered] && t.history.delivered == s.history.delivered + [id];
    assert t.blocks == s.blocks && t.producers == s.producers && t.history.owner == s.history.owner;
    forall d: nat | d < |s.blocks| && d != b ensures Fresh(t, d) == Fresh(s, d) {
      assert t.history.owner[d] == s.history.owner[d];
    }
    AddsNew(s.history.delivered, id);
    hide Fresh, Owned, Shaped, ConsumerNext, NoRepeats;
  }

  /** The last step gives a block back; it had been read before. */
  lemma ContinueContents(s: State, c: nat)
    requires Shaped(s) && Owned(s) && c < |s.consumers| && s.consumers[c].Handling?
    ensures SameContents(s, ConsumerNext(s, c))
  {
    var t, b := ConsumerNext(s, c), s.consumers[c].block;
    assert t.history.owner == s.history.owner[b := Free] && t.blocks == s.blocks[b := t.blocks[b]];
    forall d: nat | d < |s.blocks| && d != b ensures Fresh(t, d) == Fresh(s, d) {
    }
  }

  lemma ConsumerPlaced(s: State, c: nat)
    requires Shaped(s) && Owned(s) && Placed(s) && c < |s.consumers|
    ensures |ConsumerNext(s, c).history.owner| == |ConsumerNext(s, c).blocks| && Placed(ConsumerNext(s, c))
  {
    hide Placed, Owned, SameContents, Fresh;
    var t := ConsumerNext(s, c);
    if s.consumers[c].Reading? {
      DeliverPlaced(s, c);
    } else if s.consumers[c].Handling? {
      ContinueContents(s, c);
      PlacedStays(s, t);
    } else {
      ContentsStay(s, t);
      PlacedStays(s, t);
    }
  }

  // ----- Runs -----

  lemma StepKeeps(s: State, step: Step)
    requires Inv(s)
    ensures Shaped(s) && Inv(Apply(s, step)) && |Apply(s, step).blocks| == |s.blocks|
  {
    OwnedShaped(s);
    BlocksStay(s, step);
    hide Owned, Mutual, Finds, Counted, Placed, Shaped, ProducerNext, ConsumerNext, Waking, Producing;
    match step
    case Produce(p) =>
      if p < |s.producers| {
        ProducingOwned(s, p);
        ProducerMutual(s, p);
        ProducingFinds(s, p);
        ProducingCounted(s, p);
        ProducingPlaced(s, p);
      }
    case ProducerStep(p) =>
      if p < |s.producers| {
        ProducerOwned(s, p);
        ProducerMutual(s, p);
        ProducerFinds(s, p);
        ProducerCounted(s, p);
        ProducerPlaced(s, p);
      }
    case Wake(c, b) =>
      if c < |s.consumers| && b < |s.blocks| {
        WakingOwned(s, c, b);
        WakingMutual(s, c, b);
        WakingFinds(s, c, b);
        WakingCounted(s, c, b);
        WakingPlaced(s, c, b);
      }
    case ConsumerStep(c) =>
      if c < |s.consumers| {
        ConsumerOwned(s, c);
        ConsumerMutual(s, c);
        ConsumerFinds(s, c);
        ConsumerCounted(s, c);
        ConsumerPlaced(s, c);
      }
  }

  lemma BlocksStay(s: State, step: Step)
    requires Shaped(s)
    ensures |Apply(s, step).blocks| == |s.blocks| == |Apply(s, step).history.owner|
  {
  }

  lemma WakingFinds(s: State, c: nat, b: nat)
    requires Shaped(s) && Owned(s) && Finds(s) && c < |s.consumers| && b < |s.blocks|
    ensures Finds(Waking(s, c, b))
  {
    AheadStays(s, Waking(s, c, b));
  }

  lemma ConsumerFinds(s: State, c: nat)
    requires Shaped(s) && Owned(s) && Finds(s) && c < |s.consumers|
    ensures Finds(ConsumerNext(s, c))
  {
    AheadStays(s, ConsumerNext(s, c));
  }

  lemma InitInv(blocks: nat, producers: nat, consumers: nat)
    ensures Inv(Init(blocks, producers, consumers))
  {
    var s := Init(blocks, producers, consumers);
    assert PastSemaphore(s) == {} && NotReleased(s) == {};
    AllAvailable(s.blocks, blocks);
    assert (set b: nat | b < blocks && s.blocks[b].available) == Available(s);
  }

  lemma {:induction false} AllAvailable(blocks: seq<Block>, n: nat)
    requires n <= |blocks| && forall b: nat | b < n :: blocks[b].available
    ensures |set b: nat | b < n && blocks[b].available| == n
  {
    if n > 0 {
      AllAvailable(blocks, n - 1);
      assert (set b: nat | b < n && blocks[b].available) == (set b: nat | b < n - 1 && blocks[b].available) + {n - 1};
    }
  }

  /** The state after a run of any interleaving; the numbers in it stay in range, as RunKeeps shows. */
  ghost function Run(blocks: nat, producers: nat, consumers: nat, steps: seq<Step>): State {
    if steps == [] then Init(blocks, producers, consumers)
    else
      var before := Run(blocks, producers, consumers, steps[..|steps| - 1]);
      if Shaped(before) then Apply(before, steps[|steps| - 1]) else before
  }

  lemma {:induction false} RunKeeps(blocks: nat, producers: nat, consumers: nat, steps: seq<Step>)
    ensures var s := Run(blocks, producers, consumers, steps); Inv(s) && Shaped(s) && |s.blocks| == blocks
  {
    hide Inv, Shaped, Apply;
    if steps == [] {
      InitInv(blocks, producers, consumers);
      InvShaped(Init(blocks, producers, consumers));
    } else {
      var before := Run(blocks, producers, consumers, steps[..|steps| - 1]);
      RunKeeps(blocks, producers, consumers, steps[..|steps| - 1]);
      StepKeeps(before, steps[|steps| - 1]);
      InvShaped(Apply(before, steps[|steps| - 1]));
    }
  }

  lemma InvShaped(s: State)
    requires Inv(s)
    ensures Shaped(s)
  {
    OwnedShaped(s);
  }

  /** A producer past the semaphore always finds a block, no release exceeds the semaphore's limit,
      and the available blocks are accounted for. */
  lemma PoolNeverRunsDry(blocks: nat, producers: nat, consumers: nat, steps: seq<Step>)
    ensures var s := Run(blocks, producers, consumers, steps);
            && (forall p: nat | p < |s.producers| :: !s.producers[p].Missed?)
            && !s.faulted && s.sem <= blocks
            && |Available(s)| == s.sem + |PastSemaphore(s)| + |NotReleased(s)|
  {
    hide Run;
    RunKeeps(blocks, producers, consumers, steps);
    var s := Run(blocks, producers, consumers, steps);
    Bounded(Available(s), blocks);
  }

  /** Every buffer ever produced is still with its producer, or alone in a block waiting to be read, or has been
      delivered, and it has been delivered at most once; so no block is overwritten before its buffer was read. */
  lemma EveryBufferOnce(blocks: nat, producers: nat, consumers: nat, steps: seq<Step>, id: nat)
    ensures var s := Run(blocks, producers, consumers, steps);
            && NoRepeats(s.history.delivered)
            && (id in s.history.delivered ==> id < |s.history.place|)
            && (id < |s.history.place| && id !in s.history.delivered ==>
                  || (exists p: nat :: p < |s.producers| && HasBuffer(s.producers[p]) && s.producers[p].temp == id)
                  || (exists b: nat :: b < |s.blocks| && !s.blocks[b].available && s.blocks[b].data == id))
  {
    hide Run;
    RunKeeps(blocks, producers, consumers, steps);
    var s := Run(blocks, producers, consumers, steps);
    if id < |s.history.place| && s.history.place[id].InBlock? {
      var b := s.history.place[id].b;
      assert Fresh(s, b) && s.blocks[b].data == id;
    }
  }

  /** No two parties have the same block, and no block somebody has is available. */
  ghost predicate Unshared(s: State) {
    && (forall p: nat, q: nat | p < |s.producers| && q < |s.producers| && p != q && HasBlock(s.producers[p])
          && HasBlock(s.producers[q]) ::
          s.producers[p].block != s.producers[q].block)
    && (forall c: nat, d: nat | c < |s.consumers| && d < |s.consumers| && c != d && Holds(s.consumers[c])
          && Holds(s.consumers[d]) ::
          s.consumers[c].block != s.consumers[d].block)
    && (forall p: nat, c: nat | p < |s.producers| && c < |s.consumers| && HasBlock(s.producers[p])
          && Holds(s.consumers[c]) ::
          s.producers[p].block != s.consumers[c].block)
    && (forall c: nat | c < |s.consumers| && Holds(s.consumers[c]) ::
          s.consumers[c].block < |s.blocks| && !s.blocks[s.consumers[c].block].available)
  }

  lemma OwnedUnshared(s: State)
    requires Owned(s)
    ensures Unshared(s)
  {
    forall p: nat, q: nat | p < |s.producers| && q < |s.producers| && p != q && HasBlock(s.producers[p])
        && HasBlock(s.producers[q])
      ensures s.producers[p].block != s.producers[q].block
    {
      assert s.history.owner[s.producers[p].block] == Claimed(p) && s.history.owner[s.producers[q].block] == Claimed(q);
    }
    forall c: nat, d: nat | c < |s.consumers| && d < |s.consumers| && c != d && Holds(s.consumers[c])
        && Holds(s.consumers[d])
      ensures s.consumers[c].block != s.consumers[d].block
    {
      assert s.history.owner[s.consumers[c].block] == Held(c) && s.history.owner[s.consumers[d].block] == Held(d);
    }
  }

  /** Between being picked and being given back by ultimap_continue, a block belongs to one producer or one worker. */
  lemma BlocksAreNotShared(blocks: nat, producers: nat, consumers: nat, steps: seq<Step>)
    ensures Unshared(Run(blocks, producers, consumers, steps))
  {
    hide Run, Owned, Unshared;
    RunKeeps(blocks, producers, consumers, steps);
    OwnedUnshared(Run(blocks, producers, consumers, steps));
  }
}
