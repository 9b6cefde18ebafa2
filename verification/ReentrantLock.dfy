/** The re-entrant per-CPU spinlock of DBKKernel/DBKFunc.c, run by any number of CPUs that interleave at
    every access to the lock's four fields. */
module ReentrantLock {
  datatype Lock = Lock(locked: int, cpunr: int, lockcount: int, oldIFstate: bool)

  /** Where a CPU is: outside both routines, inside csEnter, or inside csLeave. */
  datatype Pc =
    | Outside
    | GetFlags | ReadLocked | ReadCpunr | ReadCount | WriteCount
    | DisableInterrupts | Spin | SetCount | SetCpunr | SetOldState
    | LeaveReadLocked | LeaveReadCpunr | LeaveReadCount | LeaveWriteCount | TestCount
    | RestoreFlag | ClearCpunr | Unlock

  /** `count` is the register a counter update goes through; `depth` counts the csEnter calls that returned and whose
      csLeave has not; `entryFlag` is the interrupt flag at the outermost csEnter, and `touched` says whether the code
      since then changed it. */
  datatype Cpu = Cpu(pc: Pc, depth: nat, oldstate: bool, count: int, flag: bool, entryFlag: bool, touched: bool)

  /** What one CPU sees; `owner` is bookkeeping: the CPU that took the lock, or -1. */
  datatype View = View(lock: Lock, owner: int, me: Cpu)

  datatype State = State(lock: Lock, owner: int, cpus: seq<Cpu>)

  datatype Step = Enter(c: nat) | Leave(c: nat) | Go(c: nat) | Toggle(c: nat, flag: bool)

  /** A CPU that has not touched the lock, interrupts on. */
  const RESTING := Cpu(Outside, 0, false, 0, true, true, false)

  /** The lock is free; its other fields are whatever the memory held. */
  function Init(n: nat, lock: Lock): State {
    State(lock, -1, seq(n, i => RESTING))
  }

  function At(v: View, pc: Pc): View { v.(me := v.me.(pc := pc)) }

  function Entered(v: View): View { v.(me := v.me.(pc := Outside, depth := v.me.depth + 1)) }

  /** csLeave returns: one level fewer, whether or not it touched the lock. */
  function Left(v: View): View {
    v.(me := v.me.(pc := Outside, depth := if v.me.depth > 0 then v.me.depth - 1 else 0))
  }

  function EnterNext(v: View, c: nat): View {
    match v.me.pc
    case GetFlags =>
      var noted := if v.me.depth == 0 then v.me.(entryFlag := v.me.flag, touched := false) else v.me;
      v.(me := noted.(oldstate := v.me.flag, pc := ReadLocked))
    case ReadLocked => At(v, if v.lock.locked != 0 then ReadCpunr else DisableInterrupts)
    case ReadCpunr => At(v, if v.lock.cpunr == c then ReadCount else DisableInterrupts)
    case ReadCount => At(v.(me := v.me.(count := v.lock.lockcount + 1)), WriteCount)
    case WriteCount => Entered(v.(lock := v.lock.(lockcount := v.me.count)))
    case DisableInterrupts => At(v.(me := v.me.(flag := false)), Spin)
    case Spin =>
      if v.lock.locked == 0 then At(v, SetCount).(lock := v.lock.(locked := 1), owner := c)
      else v.(lock := v.lock.(locked := 1))
    case SetCount => At(v.(lock := v.lock.(lockcount := 1)), SetCpunr)
    case SetCpunr => At(v.(lock := v.lock.(cpunr := c)), SetOldState)
    case SetOldState => Entered(v.(lock := v.lock.(oldIFstate := v.me.oldstate)))
    case _ => v
  }

  /** The interrupts come back before the lock is released. */
  function LeaveNext(v: View, c: nat): View {
    match v.me.pc
    case LeaveReadLocked => if v.lock.locked != 0 then At(v, LeaveReadCpunr) else Left(v)
    case LeaveReadCpunr => if v.lock.cpunr == c then At(v, LeaveReadCount) else Left(v)
    case LeaveReadCount => At(v.(me := v.me.(count := v.lock.lockcount - 1)), LeaveWriteCount)
    case LeaveWriteCount => At(v.(lock := v.lock.(lockcount := v.me.count)), TestCount)
    case TestCount => if v.lock.lockcount == 0 then At(v, RestoreFlag) else Left(v)
    case RestoreFlag => At(v.(me := v.me.(flag := v.me.flag || v.lock.oldIFstate)), ClearCpunr)
    case ClearCpunr => At(v.(lock := v.lock.(cpunr := -1)), Unlock)
    case Unlock => Left(v.(lock := v.lock.(locked := 0), owner := -1))
    case _ => v
  }

  /** A step of CPU c alone. csLeave is called only by a CPU whose csEnter returned; between calls the interrupt
      flag may change. */
  function Next(v: View, step: Step): View {
    match step
    case Enter(_) => if v.me.pc == Outside then At(v, GetFlags) else v
    case Leave(_) => if v.me.pc == Outside && v.me.depth > 0 then At(v, LeaveReadLocked) else v
    case Go(c) => if Leaving(v.me.pc) then LeaveNext(v, c) else EnterNext(v, c)
    case Toggle(_, b) => if v.me.pc == Outside then v.(me := v.me.(flag := b, touched := true)) else v
  }

  predicate Leaving(pc: Pc) {
    pc.LeaveReadLocked? || pc.LeaveReadCpunr? || pc.LeaveReadCount? || pc.LeaveWriteCount? || pc.TestCount?
    || pc.RestoreFlag? || pc.ClearCpunr? || pc.Unlock?
  }

  function Apply(s: State, step: Step): State {
    if step.c >= |s.cpus| then s
    else
      var v := Next(View(s.lock, s.owner, s.cpus[step.c]), step);
      State(v.lock, v.owner, s.cpus[step.c := v.me])
  }

  /** The state after a run of any interleaving. */
  function Run(n: nat, lock: Lock, steps: seq<Step>): (s: State)
    ensures |s.cpus| == n
  {
    if steps == [] then Init(n, lock) else Apply(Run(n, lock, steps[..|steps| - 1]), steps[|steps| - 1])
  }

  // ----- Invariant -----

  /** The CPU has the lock: it holds it, or it has taken it inside csEnter. */
  predicate Owns(me: Cpu) { me.depth > 0 || me.pc.SetCount? || me.pc.SetCpunr? || me.pc.SetOldState? }

  /** csLeave has counted its level off. */
  predicate CountedOff(pc: Pc) { pc.TestCount? || pc.RestoreFlag? || pc.ClearCpunr? || pc.Unlock? }

  /** The lock's fields agree with where their owner is. */
  predicate OwnerAgrees(lock: Lock, c: nat, me: Cpu) {
    && (if me.pc.Unlock? then lock.cpunr == -1 else !me.pc.SetCount? && !me.pc.SetCpunr? ==> lock.cpunr == c)
    && (me.depth == 0 && !me.pc.SetCount? ==> lock.lockcount == 1)
    && (me.depth > 0 ==>
          lock.lockcount == (if CountedOff(me.pc) then me.depth - 1 else me.depth)
          && lock.oldIFstate == me.entryFlag)
    && (me.pc.WriteCount? ==> me.count == me.depth + 1)
    && (me.pc.LeaveWriteCount? ==> me.count == me.depth - 1)
    && (me.pc.RestoreFlag? || me.pc.ClearCpunr? || me.pc.Unlock? ==> me.depth == 1)
    && (if me.pc.ClearCpunr? || me.pc.Unlock? then (me.entryFlag ==> me.flag)
          && (!me.touched ==> me.flag == me.entryFlag)
        else !me.touched ==> !me.flag)
  }

  /** What a CPU's place in the code says about it alone. */
  predicate Sound(n: nat, me: Cpu) {
    && (me.pc.DisableInterrupts? || me.pc.Spin? || me.pc.SetCount? || me.pc.SetCpunr? || me.pc.SetOldState? ==>
          me.depth == 0)
    && (me.depth == 0 && !me.pc.Outside? && !me.pc.GetFlags? ==> me.oldstate == me.entryFlag && !me.touched)
    && (me.pc.Spin? || me.pc.SetCount? || me.pc.SetCpunr? || me.pc.SetOldState? ==> !me.flag)
    && (me.pc.ReadCount? || me.pc.WriteCount? || Leaving(me.pc) ==> me.depth > 0)
    && (me.pc.ReadCpunr? && me.depth == 0 ==> n > 1)
  }

  /** The lock is taken exactly when somebody owns it, and names nobody but its owner. */
  predicate LockAgrees(n: nat, lock: Lock, owner: int) {
    && lock.locked == (if owner == -1 then 0 else 1)
    && -1 <= owner < n
    && (n > 1 && 0 <= lock.cpunr < n ==> lock.cpunr == owner)
  }

  /** What the invariant says about CPU c. */
  predicate OneCpu(n: nat, v: View, c: nat) {
    && LockAgrees(n, v.lock, v.owner) && Sound(n, v.me) && (Owns(v.me) <==> v.owner == c)
    && (v.owner == c ==> OwnerAgrees(v.lock, c, v.me))
  }

  ghost predicate Inv(s: State) {
    && -1 <= s.owner < |s.cpus|
    && LockAgrees(|s.cpus|, s.lock, s.owner)
    && forall c: nat | c < |s.cpus| :: OneCpu(|s.cpus|, View(s.lock, s.owner, s.cpus[c]), c)
  }

  predicate TakingLock(pc: Pc) { pc.DisableInterrupts? || pc.Spin? || pc.SetCount? || pc.SetCpunr? || pc.SetOldState? }

  lemma TakingKeeps(n: nat, v: View, c: nat)
    requires OneCpu(n, v, c) && c < n && TakingLock(v.me.pc)
    ensures OneCpu(n, EnterNext(v, c), c)
  {
    match v.me.pc {
      case DisableInterrupts => case Spin => case SetCount => case SetCpunr => case SetOldState =>
    }
  }

  lemma EnterKeeps(n: nat, v: View, c: nat)
    requires OneCpu(n, v, c) && c < n && !Leaving(v.me.pc) && !TakingLock(v.me.pc)
    ensures OneCpu(n, EnterNext(v, c), c)
  {
    match v.me.pc {
      case Outside => case GetFlags => case ReadLocked => case ReadCpunr => case ReadCount => case WriteCount =>
    }
  }

  lemma LeaveKeeps(n: nat, v: View, c: nat)
    requires OneCpu(n, v, c) && c < n && Leaving(v.me.pc)
    ensures OneCpu(n, LeaveNext(v, c), c)
  {
    match v.me.pc {
      case LeaveReadLocked => case LeaveReadCpunr => case LeaveReadCount => case LeaveWriteCount => case TestCount =>
      case RestoreFlag => case ClearCpunr => case Unlock =>
    }
  }

  lemma NextKeeps(n: nat, v: View, step: Step)
    requires OneCpu(n, v, step.c) && step.c < n
    ensures OneCpu(n, Next(v, step), step.c)
  {
    match step
    case Enter(c) => case Leave(c) => case Toggle(c, b) =>
    case Go(c) =>
      hide OneCpu;
      if Leaving(v.me.pc) {
        LeaveKeeps(n, v, c);
      } else if TakingLock(v.me.pc) {
        TakingKeeps(n, v, c);
      } else {
        EnterKeeps(n, v, c);
      }
  }

  /** A CPU that does not own the lock leaves it alone while somebody else does, and takes nothing from anybody. */
  lemma LockStays(n: nat, v: View, step: Step)
    requires OneCpu(n, v, step.c) && step.c < n
    ensures var w := Next(v, step);
            if v.owner >= 0 && v.owner != step.c then w.lock == v.lock && w.owner == v.owner
            else w.owner == -1 || w.owner == step.c
  {
    match v.me.pc {
      case Outside => case GetFlags => case ReadLocked => case ReadCpunr => case ReadCount => case WriteCount =>
      case DisableInterrupts => case Spin => case SetCount => case SetCpunr => case SetOldState =>
      case LeaveReadLocked => case LeaveReadCpunr => case LeaveReadCount => case LeaveWriteCount => case TestCount =>
      case RestoreFlag => case ClearCpunr => case Unlock =>
    }
  }

  lemma OthersKeep(n: nat, v: View, w: View, c: nat, other: Cpu, d: nat)
    requires c < n && d < n && c != d && OneCpu(n, View(v.lock, v.owner, other), d) && LockAgrees(n, w.lock, w.owner)
    requires if v.owner >= 0 && v.owner != c then w.lock == v.lock && w.owner == v.owner
             else (v.owner == -1 || v.owner == c) && (w.owner == -1 || w.owner == c)
    ensures OneCpu(n, View(w.lock, w.owner, other), d)
  {
  }

  lemma StepKeeps(s: State, step: Step)
    requires Inv(s)
    ensures Inv(Apply(s, step))
  {
    hide OneCpu, LockAgrees, Next;
    var n, c, t := |s.cpus|, step.c, Apply(s, step);
    if c < n {
      var v := View(s.lock, s.owner, s.cpus[c]);
      NextKeeps(n, v, step);
      LockStays(n, v, step);
      LockOf(n, Next(v, step), c);
      forall d: nat | d < n ensures OneCpu(n, View(t.lock, t.owner, t.cpus[d]), d) {
        if d != c {
          OthersKeep(n, v, Next(v, step), c, s.cpus[d], d);
        }
      }
    }
  }

  lemma LockOf(n: nat, v: View, c: nat)
    requires OneCpu(n, v, c)
    ensures LockAgrees(n, v.lock, v.owner) && -1 <= v.owner < n
  {
  }

  /** Nothing in the memory of a free lock is mistaken for a CPU that holds it. */
  predicate Harmless(n: nat, lock: Lock) {
    n <= 1 || !(0 <= lock.cpunr < n)
  }

  /** A CPU inside either routine can go on unless it spins on a lock that is taken. */
  lemma GoesOnExactly(v: View, c: nat)
    ensures Next(v, Go(c)) == v <==> v.me.pc == Outside || (v.me.pc == Spin && v.lock.locked == 1)
  {
    var w := Next(v, Go(c));
    match v.me.pc {
      case Outside =>
      case Spin => if v.lock.locked == 0 { assert w.me.pc != v.me.pc; } else { assert w.lock.locked == 1; }
      case GetFlags => case ReadLocked => case ReadCpunr => case ReadCount => case WriteCount =>
      case DisableInterrupts => case SetCount => case SetCpunr => case SetOldState =>
      case LeaveReadLocked => case LeaveReadCpunr => case LeaveReadCount => case LeaveWriteCount => case TestCount =>
      case RestoreFlag => case ClearCpunr => case Unlock =>
    }
  }

  // ----- A CPU that runs alone -----

  /** CPU c makes k steps with no other in between. */
  function Alone(v: View, c: nat, k: nat): View {
    if k == 0 then v else Next(Alone(v, c, k - 1), Go(c))
  }

  lemma AloneMore(v: View, c: nat, k: nat, w: View)
    requires Alone(v, c, k) == w
    ensures Alone(v, c, k + 1) == Next(w, Go(c))
  {
  }

  /** What the owner of the lock finds in it between two calls. */
  lemma OwnerFinds(n: nat, v: View, c: nat)
    requires OneCpu(n, v, c) && c < n && v.me.pc == Outside && v.me.depth > 0
    ensures v.lock == Lock(1, c, v.me.depth, v.me.entryFlag) && v.owner == c
  {
  }

  /** The outermost csLeave, left alone, releases the lock: it is free, names nobody, and the interrupts are back. */
  lemma LeaveAlone(n: nat, v: View, c: nat)
    requires OneCpu(n, v, c) && c < n && v.me.pc == Outside && v.me.depth == 1
    ensures var w := Alone(Next(v, Leave(c)), c, 8);
            && w.lock == v.lock.(locked := 0, cpunr := -1, lockcount := 0) && w.owner == -1
            && w.me == v.me.(pc := Outside, depth := 0, count := 0, flag := v.me.flag || v.me.entryFlag)
  {
    OwnerFinds(n, v, c);
    hide OneCpu, Alone, EnterNext, LeaveNext;
    LeavesWhole(v, c);
  }

  lemma LeavesWhole(v: View, c: nat)
    requires v.me.pc == Outside && v.me.depth == 1 && v.lock == Lock(1, c, 1, v.me.entryFlag)
    ensures Alone(At(v, LeaveReadLocked), c, 8)
         == Left(v.(lock := Lock(0, -1, 0, v.me.entryFlag), owner := -1,
                    me := v.me.(count := 0, flag := v.me.flag || v.me.entryFlag)))
  {
    hide Alone, EnterNext, LeaveNext, Next;
    var u := v.(lock := Lock(1, c, 0, v.me.entryFlag), me := v.me.(count := 0));
    CountsOff(v, c);
    Releases(u, c);
    hide At, Left;
    AloneThen(At(v, LeaveReadLocked), c, 4, At(u, TestCount), 4);
  }

  lemma {:induction false} AloneThen(v: View, c: nat, k: nat, w: View, j: nat)
    requires Alone(v, c, k) == w
    ensures Alone(v, c, k + j) == Alone(w, c, j)
  {
    hide Next;
    if j > 0 {
      AloneThen(v, c, k, w, j - 1);
    }
  }

  /** The second half of the outermost csLeave. */
  lemma Releases(u: View, c: nat)
    requires u.lock.lockcount == 0
    ensures Alone(At(u, TestCount), c, 4)
         == Left(u.(lock := u.lock.(locked := 0, cpunr := -1), owner := -1,
                    me := u.me.(flag := u.me.flag || u.lock.oldIFstate)))
  {
    hide Alone, EnterNext;
    var w4 := At(u, TestCount);
    AloneNot(w4, c);
    AloneMore(w4, c, 0, w4);
    AloneMore(w4, c, 1, At(u, RestoreFlag));
    var w6 := u.(me := u.me.(flag := u.me.flag || u.lock.oldIFstate));
    AloneMore(w4, c, 2, At(w6, ClearCpunr));
    AloneMore(w4, c, 3, At(w6.(lock := w6.lock.(cpunr := -1)), Unlock));
  }

  /** The first half of csLeave: the owner counts its level off. */
  lemma CountsOff(v: View, c: nat)
    requires v.me.pc == Outside && v.me.depth > 0 && v.lock.locked == 1 && v.lock.cpunr == c
    requires v.lock.lockcount == v.me.depth
    ensures Alone(At(v, LeaveReadLocked), c, 4)
         == At(v.(lock := v.lock.(lockcount := v.me.depth - 1), me := v.me.(count := v.me.depth - 1)), TestCount)
  {
    hide Alone;
    var w0 := At(v, LeaveReadLocked);
    AloneNot(w0, c);
    AloneMore(w0, c, 0, w0);
    AloneMore(w0, c, 1, At(v, LeaveReadCpunr));
    AloneMore(w0, c, 2, At(v, LeaveReadCount));
    AloneMore(w0, c, 3, At(v.(me := v.me.(count := v.me.depth - 1)), LeaveWriteCount));
  }

  lemma AloneNot(v: View, c: nat)
    ensures Alone(v, c, 0) == v
  {
  }

  /** csEnter on a free lock, left alone, takes it: it names the CPU, counts one level, and interrupts are off. */
  lemma EnterAlone(n: nat, v: View, c: nat)
    requires OneCpu(n, v, c) && c < n && v.me.pc == Outside && v.me.depth == 0 && v.lock.locked == 0
    ensures var w := Alone(Next(v, Enter(c)), c, 7);
            && w.lock == Lock(1, c, 1, v.me.flag) && w.owner == c
            && w.me == v.me.(pc := Outside, depth := 1, oldstate := v.me.flag, flag := false, entryFlag := v.me.flag,
                             touched := false)
  {
    hide OneCpu, Alone, EnterNext, LeaveNext;
    EntersWhole(v, c);
  }

  lemma EntersWhole(v: View, c: nat)
    requires v.me.pc == Outside && v.me.depth == 0 && v.lock.locked == 0
    ensures Alone(At(v, GetFlags), c, 7)
         == Entered(v.(lock := Lock(1, c, 1, v.me.flag), owner := c,
                       me := v.me.(oldstate := v.me.flag, entryFlag := v.me.flag, touched := false, flag := false)))
  {
    hide Alone, EnterNext, LeaveNext, Next;
    var u := v.(me := v.me.(oldstate := v.me.flag, entryFlag := v.me.flag, touched := false));
    FindsFree(v, c);
    Takes(u, c);
    hide At, Entered;
    AloneThen(At(v, GetFlags), c, 2, At(u, DisableInterrupts), 5);
  }

  lemma FindsFree(v: View, c: nat)
    requires v.me.depth == 0 && v.lock.locked == 0
    ensures Alone(At(v, GetFlags), c, 2)
         == At(v.(me := v.me.(oldstate := v.me.flag, entryFlag := v.me.flag, touched := false)), DisableInterrupts)
  {
    hide Alone, LeaveNext;
    var w0 := At(v, GetFlags);
    var noted := v.(me := v.me.(oldstate := v.me.flag, entryFlag := v.me.flag, touched := false));
    AloneNot(w0, c);
    AloneMore(w0, c, 0, w0);
    AloneMore(w0, c, 1, At(noted, ReadLocked));
  }

  lemma Takes(u: View, c: nat)
    requires u.lock.locked == 0
    ensures Alone(At(u, DisableInterrupts), c, 5)
         == Entered(u.(lock := Lock(1, c, 1, u.me.oldstate), owner := c, me := u.me.(flag := false)))
  {
    hide Alone, LeaveNext;
    var w2 := At(u, DisableInterrupts);
    var w := u.(me := u.me.(flag := false));
    AloneNot(w2, c);
    AloneMore(w2, c, 0, w2);
    AloneMore(w2, c, 1, At(w, Spin));
    var w4 := w.(lock := w.lock.(locked := 1), owner := c);
    FillsIn(w4, c);
    hide EnterNext;
    AloneThen(w2, c, 2, At(w4, SetCount), 3);
  }

  lemma FillsIn(w: View, c: nat)
    ensures Alone(At(w, SetCount), c, 3)
         == Entered(w.(lock := Lock(w.lock.locked, c, 1, w.me.oldstate)))
  {
    hide Alone, LeaveNext;
    var w4 := At(w, SetCount);
    AloneNot(w4, c);
    AloneMore(w4, c, 0, w4);
    AloneMore(w4, c, 1, At(w.(lock := w.lock.(lockcount := 1)), SetCpunr));
    AloneMore(w4, c, 2, At(w.(lock := w.lock.(lockcount := 1, cpunr := c)), SetOldState));
  }

  /** A further csEnter of the owner, left alone, only counts. */
  lemma NestAlone(n: nat, v: View, c: nat)
    requires OneCpu(n, v, c) && c < n && v.me.pc == Outside && v.me.depth > 0
    ensures var w := Alone(Next(v, Enter(c)), c, 5);
            && w.lock == v.lock.(lockcount := v.me.depth + 1) && w.owner == c
            && w.me == v.me.(depth := v.me.depth + 1, oldstate := v.me.flag, count := v.me.depth + 1)
  {
    OwnerFinds(n, v, c);
    hide OneCpu, Alone, EnterNext, LeaveNext;
    CountsUp(v, c);
  }

  lemma CountsUp(v: View, c: nat)
    requires v.me.pc == Outside && v.me.depth > 0 && v.lock.locked == 1 && v.lock.cpunr == c
    requires v.lock.lockcount == v.me.depth
    ensures Alone(At(v, GetFlags), c, 5)
         == Entered(v.(lock := v.lock.(lockcount := v.me.depth + 1),
                       me := v.me.(oldstate := v.me.flag, count := v.me.depth + 1)))
  {
    hide Alone, LeaveNext;
    var w0 := At(v, GetFlags);
    var w1 := v.(me := v.me.(oldstate := v.me.flag));
    AloneNot(w0, c);
    AloneMore(w0, c, 0, w0);
    AloneMore(w0, c, 1, At(w1, ReadLocked));
    AloneMore(w0, c, 2, At(w1, ReadCpunr));
    AloneMore(w0, c, 3, At(w1, ReadCount));
    AloneMore(w0, c, 4, At(w1.(me := w1.me.(count := v.me.depth + 1)), WriteCount));
  }

  /** So does the csLeave that belongs to it. */
  lemma UnnestAlone(n: nat, v: View, c: nat)
    requires OneCpu(n, v, c) && c < n && v.me.pc == Outside && v.me.depth > 1
    ensures var w := Alone(Next(v, Leave(c)), c, 5);
            && w.lock == v.lock.(lockcount := v.me.depth - 1) && w.owner == c
            && w.me == v.me.(depth := v.me.depth - 1, count := v.me.depth - 1)
  {
    OwnerFinds(n, v, c);
    hide OneCpu, Alone, EnterNext, LeaveNext;
    CountsDown(v, c);
  }

  lemma CountsDown(v: View, c: nat)
    requires v.me.pc == Outside && v.me.depth > 1 && v.lock.locked == 1 && v.lock.cpunr == c
    requires v.lock.lockcount == v.me.depth
    ensures Alone(At(v, LeaveReadLocked), c, 5)
         == Left(v.(lock := v.lock.(lockcount := v.me.depth - 1), me := v.me.(count := v.me.depth - 1)))
  {
    hide Alone, EnterNext;
    CountsOff(v, c);
    var w4 := v.(lock := v.lock.(lockcount := v.me.depth - 1), me := v.me.(count := v.me.depth - 1));
    AloneMore(At(v, LeaveReadLocked), c, 4, At(w4, TestCount));
  }

  lemma {:induction false} RunKeeps(n: nat, lock: Lock, steps: seq<Step>)
    requires lock.locked == 0 && Harmless(n, lock)
    ensures Inv(Run(n, lock, steps))
  {
    if steps != [] {
      RunKeeps(n, lock, steps[..|steps| - 1]);
      StepKeeps(Run(n, lock, steps[..|steps| - 1]), steps[|steps| - 1]);
    }
  }

  // ----- What callers rely on -----

  ghost predicate MutualExclusion(s: State) {
    forall c: nat, d: nat | c < |s.cpus| && d < |s.cpus| && c != d :: s.cpus[c].depth == 0 || s.cpus[d].depth == 0
  }

  /** cpunr names a CPU only while that CPU owns the lock, and lockcount is the nesting depth of the CPU that
      holds it and is outside the two routines. */
  ghost predicate FieldsAgree(s: State) {
    && (forall c: nat | c < |s.cpus| && s.lock.cpunr == c && |s.cpus| > 1 :: Owns(s.cpus[c]) && s.lock.locked == 1)
    && (forall c: nat | c < |s.cpus| && s.cpus[c].depth > 0 && s.cpus[c].pc.Outside? ::
          s.lock.locked == 1 && s.lock.cpunr == c && s.lock.lockcount == s.cpus[c].depth)
  }

  /** Once csLeave has given the lock up, the interrupt flag is the one of the outermost csEnter; if the code in between
      enabled interrupts itself they stay enabled. */
  ghost predicate FlagRestored(s: State) {
    forall c: nat | c < |s.cpus| && (s.cpus[c].pc.ClearCpunr? || s.cpus[c].pc.Unlock?) ::
      (s.cpus[c].entryFlag ==> s.cpus[c].flag) && (!s.cpus[c].touched ==> s.cpus[c].flag == s.cpus[c].entryFlag)
  }

  lemma LockWorks(n: nat, lock: Lock, steps: seq<Step>)
    requires lock.locked == 0 && Harmless(n, lock)
    ensures var s := Run(n, lock, steps); MutualExclusion(s) && FieldsAgree(s) && FlagRestored(s)
  {
    hide Run;
    RunKeeps(n, lock, steps);
    InvMeans(Run(n, lock, steps));
  }

  lemma InvMeans(s: State)
    requires Inv(s)
    ensures MutualExclusion(s) && FieldsAgree(s) && FlagRestored(s)
  {
    forall c: nat | c < |s.cpus|
      ensures (s.cpus[c].depth > 0 ==> s.owner == c) && OneCpu(|s.cpus|, View(s.lock, s.owner, s.cpus[c]), c)
    {
    }
  }

  // ----- When the memory of a free lock does name a CPU -----

  /** The state in which CPUs a and b are as given. */
  function Pair(n: nat, lock: Lock, owner: int, a: nat, x: Cpu, b: nat, y: Cpu): State
    requires a < n && b < n
  {
    State(lock, owner, Init(n, lock).cpus[a := x][b := y])
  }

  /** One more step of a, or of b. */
  lemma PairStep(n: nat, start: Lock, steps: seq<Step>, v: View, a: nat, b: nat, other: Cpu, step: Step)
    requires a < n && b < n && a != b && (step.c == a || step.c == b)
    requires Run(n, start, steps) == if step.c == a then Pair(n, v.lock, v.owner, a, v.me, b, other)
                                     else Pair(n, v.lock, v.owner, a, other, b, v.me)
    ensures var w := Next(v, step);
            Run(n, start, steps + [step]) == if step.c == a then Pair(n, w.lock, w.owner, a, w.me, b, other)
                                             else Pair(n, w.lock, w.owner, a, other, b, w.me)
  {
    hide Next;
    assert (steps + [step])[..|steps|] == steps;
  }

  /** CPU a has set `locked` and written nothing else yet. */
  lemma TakesLock(n: nat, lock: Lock, a: nat, b: nat) returns (steps: seq<Step>)
    requires lock.locked == 0 && a < n && b < n && a != b
    ensures Run(n, lock, steps)
         == Pair(n, lock.(locked := 1), a, a, Cpu(SetCount, 0, true, 0, false, true, false), b, RESTING)
  {
    hide Run;
    steps := [];
    assert Run(n, lock, []) == Pair(n, lock, -1, a, RESTING, b, RESTING) by { RunNothing(n, lock, a, b); }
    var v := View(lock, -1, RESTING);
    for i := 0 to 5
      invariant Run(n, lock, steps) == Pair(n, v.lock, v.owner, a, v.me, b, RESTING)
      invariant v == TakingView(lock, a, i)
    {
      var step := if i == 0 then Enter(a) else Go(a);
      PairStep(n, lock, steps, v, a, b, RESTING, step);
      steps := steps + [step];
      v := Next(v, step);
    }
  }

  function TakingView(lock: Lock, a: nat, i: nat): View {
    var me := Cpu(Outside, 0, true, 0, true, true, false);
    if i == 0 then View(lock, -1, RESTING)
    else if i == 1 then View(lock, -1, RESTING.(pc := GetFlags))
    else if i == 2 then View(lock, -1, me.(pc := ReadLocked))
    else if i == 3 then View(lock, -1, me.(pc := DisableInterrupts))
    else if i == 4 then View(lock, -1, me.(pc := Spin, flag := false))
    else View(lock.(locked := 1), a, me.(pc := SetCount, flag := false))
  }

  lemma RunNothing(n: nat, lock: Lock, a: nat, b: nat)
    requires a < n && b < n
    ensures Run(n, lock, []) == Pair(n, lock, -1, a, RESTING, b, RESTING)
  {
    assert Init(n, lock).cpus[a := RESTING][b := RESTING] == Init(n, lock).cpus;
  }

  /** The CPU the stale cpunr names now takes the nested path. */
  lemma SlipsIn(n: nat, lock: Lock, a: nat, b: nat) returns (steps: seq<Step>)
    requires lock.locked == 0 && a < n && b < n && a != b && lock.cpunr == b
    ensures Run(n, lock, steps)
         == Pair(n, lock.(locked := 1, lockcount := lock.lockcount + 1), a,
                 a, Cpu(SetCount, 0, true, 0, false, true, false),
                 b, Cpu(Outside, 1, true, lock.lockcount + 1, true, true, false))
  {
    hide Run;
    steps := TakesLock(n, lock, a, b);
    var other := Cpu(SetCount, 0, true, 0, false, true, false);
    var v := View(lock.(locked := 1), a, RESTING);
    for i := 0 to 6
      invariant Run(n, lock, steps) == Pair(n, v.lock, v.owner, a, other, b, v.me)
      invariant v == SlippingView(lock, a, i)
    {
      var step := if i == 0 then Enter(b) else Go(b);
      PairStep(n, lock, steps, v, a, b, other, step);
      steps := steps + [step];
      v := Next(v, step);
    }
  }

  function SlippingView(lock: Lock, a: nat, i: nat): View {
    var l := lock.(locked := 1);
    var me := Cpu(Outside, 0, true, 0, true, true, false);
    if i == 0 then View(l, a, RESTING)
    else if i == 1 then View(l, a, RESTING.(pc := GetFlags))
    else if i == 2 then View(l, a, me.(pc := ReadLocked))
    else if i == 3 then View(l, a, me.(pc := ReadCpunr))
    else if i == 4 then View(l, a, me.(pc := ReadCount))
    else if i == 5 then View(l, a, me.(pc := WriteCount, count := lock.lockcount + 1))
    else View(l.(lockcount := lock.lockcount + 1), a, me.(depth := 1, count := lock.lockcount + 1))
  }

  /** A stale cpunr lets its CPU in beside the one that has just taken the lock. */
  lemma TwoInside(n: nat, lock: Lock) returns (steps: seq<Step>)
    requires lock.locked == 0 && !Harmless(n, lock)
    ensures !MutualExclusion(Run(n, lock, steps))
  {
    hide Run;
    var b: nat := lock.cpunr;
    var a: nat := if b == 0 then 1 else 0;
    steps := SlipsIn(n, lock, a, b);
    var other := Cpu(Outside, 1, true, lock.lockcount + 1, true, true, false);
    var v := View(lock.(locked := 1, lockcount := lock.lockcount + 1), a,
        Cpu(SetCount, 0, true, 0, false, true, false));
    PairStep(n, lock, steps, v, a, b, other, Go(a));
    PairStep(n, lock, steps + [Go(a)], Next(v, Go(a)), a, b, other, Go(a));
    PairStep(n, lock, steps + [Go(a)] + [Go(a)], Next(Next(v, Go(a)), Go(a)), a, b, other, Go(a));
    steps := steps + [Go(a)] + [Go(a)] + [Go(a)];
    var s := Run(n, lock, steps);
    assert s.cpus[a].depth == 1 && s.cpus[b].depth == 1;
  }

  /** Mutual exclusion holds in every run exactly when the free lock's cpunr names none of several CPUs;
      zeroed memory, on a machine with more than one CPU, names CPU 0. */
  lemma LockWorksExactly(n: nat, lock: Lock)
    requires lock.locked == 0
    ensures (forall steps :: MutualExclusion(Run(n, lock, steps))) <==> Harmless(n, lock)
    ensures n > 1 && lock.cpunr == 0 ==> !Harmless(n, lock)
  {
    hide Run, MutualExclusion;
    if Harmless(n, lock) {
      forall steps ensures MutualExclusion(Run(n, lock, steps)) {
        LockWorks(n, lock, steps);
      }
    } else {
      var steps := TwoInside(n, lock);
    }
  }
}
