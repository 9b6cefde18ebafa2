/** The debug registers a guest sees while DBKKernel/debugger.c traps its accesses (general detect, Intel SDM
    Volume 3B, "Debug Registers") and borrows the registers it leaves unused. */
module DebugRegisters {
  /** L, G, RW and LEN of one debug register. */
  datatype Channel = Channel(l: bool, g: bool, rw: bv2, len: bv2)

  /** A 64-bit word, cut along the fields of DR7: the four channels, bit 10, bit 13 (GD in DR7, BD in DR6) and the
      rest. */
  datatype Word = Word(channels: seq<Channel>, bit10: bool, bit13: bool, rest: nat)

  type Word64 = w: Word | |w.channels| == 4 witness ZERO

  const CLEAR := Channel(false, false, 0, 0)
  const ZERO := Word([CLEAR, CLEAR, CLEAR, CLEAR], false, false, 0)

  /** 0xffff0ff0, the idle value of DR6; bits 8, 9 and 11 are in the rest. */
  const IDLE_DR6: Word64 :=
    Word([Channel(false, false, 3, 3), Channel(false, false, 3, 3), Channel(true, true, 3, 3),
        Channel(true, true, 3, 3)], true, false, 0xB00)

  datatype Breakpoint = Breakpoint(active: bool, address: Word64, breakType: bv2, breakLength: bv2)

  // ----- The instruction -----

  /** Intel SDM Volume 2B, "MOV - Move to/from Debug Registers": an optional REX prefix without REX.R, then 0F 21 /r
      or 0F 23 /r; the bytes before `rip` are not shown. */
  datatype Mov = Mov(rex: bool, prefix: bv8, read: bool, modrm: bv8)

  predicate WellFormed(i: Mov) { i.rex ==> i.prefix & 0xF4 == 0x40 }

  function Encode(i: Mov): (bytes: seq<bv8>)
    ensures |bytes| >= 3
  {
    (if i.rex then [i.prefix] else []) + [0x0F, if i.read then 0x21 else 0x23, i.modrm]
  }

  /** ModRM.reg names the debug register; ModRM.rm, with REX.B on top, the general one. */
  function DebugField(modrm: bv8): (d: nat)
    ensures d < 8
  {
    ((modrm >> 3) & 7) as nat
  }

  function RmField(modrm: bv8): (g: nat)
    ensures g < 8
  {
    (modrm & 7) as nat
  }

  function General(i: Mov): (g: nat)
    ensures g < 16
  {
    RmField(i.modrm) + if i.rex && i.prefix & 1 == 1 then 8 else 0
  }

  /** What assemblers write: the ModRM byte names the two registers, REX.B stands for eight more general ones, 21 reads
      the debug register and 23 writes it. */
  lemma Assembled(d: bv8, g: bv8, wrxb: bv8, read: bool)
    requires d < 8 && g < 8 && wrxb < 16
    ensures var modrm := 0xC0 + 8 * d + g;
            var (short, long) := (Mov(false, 0, read, modrm), Mov(true, 0x40 + wrxb, read, modrm));
            && DebugField(modrm) == d as nat && General(short) == g as nat
            && General(long) == g as nat + (if wrxb & 1 == 1 then 8 else 0)
            && Encode(short) == [0x0F, if read then 0x21 else 0x23, modrm]
            && Encode(long) == [0x40 + wrxb] + Encode(short)
            && (WellFormed(long) <==> wrxb & 4 == 0)
  {
    var modrm: bv8 := 0xC0 + 8 * d + g;
    assert (modrm >> 3) & 7 == d && modrm & 7 == g;
    assert (0x40 + wrxb) & 1 == wrxb & 1;
    assert (0x40 + wrxb) & 0xF4 == 0x40 <==> wrxb & 4 == 0;
  }

  /** DR4 and DR5 stand for DR6 and DR7. */
  function Alias(d: nat): nat { if d == 4 then 6 else if d == 5 then 7 else d }

  // ----- A machine whose debug registers nobody borrows -----

  /** General registers in instruction order, the instruction pointer, and DR0 to DR3, DR6 and DR7. */
  datatype Guest = Guest(regs: seq<Word64>, rip: nat, dr: seq<Word64>, dr6: Word64, dr7: Word64)

  predicate ValidGuest(g: Guest) {
    |g.regs| == 16 && |g.dr| == 4
  }

  function ReadDr(g: Guest, d: nat): Word64
    requires ValidGuest(g) && d < 8
  {
    if Alias(d) == 6 then g.dr6 else if Alias(d) == 7 then g.dr7 else g.dr[d]
  }

  /** Bit 10 of DR7 reads as one. A processor keeps bit 13; here GD and BD never reach the guest. */
  function WriteDr(g: Guest, d: nat, w: Word64): (h: Guest)
    requires ValidGuest(g) && d < 8
    ensures ValidGuest(h)
  {
    if Alias(d) == 6 then g.(dr6 := w.(bit13 := false))
    else if Alias(d) == 7 then g.(dr7 := w.(bit10 := true, bit13 := false))
    else g.(dr := g.dr[d := w])
  }

  /** DR0 to DR3 are four registers of their own, DR4 is DR6 and DR5 is DR7; a write is read back, bit 10 of DR7 set and
      bit 13 of DR6 and DR7 clear, and changes no other register. */
  lemma RegisterFile(g: Guest, d: nat, w: Word64, e: nat)
    requires ValidGuest(g) && d < 8 && e < 8
    ensures ReadDr(g, e) == if e < 4 then g.dr[e] else if e == 4 || e == 6 then g.dr6 else g.dr7
    ensures var h := WriteDr(g, d, w);
            && h.regs == g.regs && h.rip == g.rip
            && ReadDr(h, e) == if d != e && !(d % 2 == e % 2 && d >= 4 && e >= 4) then ReadDr(g, e)
                               else if d < 4 then w
                               else if d == 4 || d == 6 then w.(bit13 := false)
                               else w.(bit10 := true, bit13 := false)
  {
  }

  const RIP_MOD := 0x1_0000_0000_0000_0000

  function Execute(g: Guest, i: Mov): (h: Guest)
    requires ValidGuest(g)
    ensures ValidGuest(h)
  {
    var d := DebugField(i.modrm);
    var moved := if i.read then g.(regs := g.regs[General(i) := ReadDr(g, d)]) else WriteDr(g, d, g.regs[General(i)]);
    moved.(rip := (g.rip + |Encode(i)|) % RIP_MOD)
  }

  /** What the handler does instead when the operand is RSP: a read stores into a slot that is not restored, a write
      stores 0. For every other operand it executes the instruction. */
  function Emulate(g: Guest, i: Mov): (h: Guest)
    requires ValidGuest(g)
    ensures ValidGuest(h)
  {
    if General(i) != 4 then Execute(g, i)
    else
      (if i.read then g else WriteDr(g, DebugField(i.modrm), ZERO)).(rip := (g.rip + |Encode(i)|) % RIP_MOD)
  }

  /** A guest whose RSP differs from all its debug registers. */
  function Telltale(i: Mov): (g: Guest)
    ensures ValidGuest(g)
  {
    var (rsp, other) := (ZERO.(rest := 1), ZERO);
    Guest(seq(16, r => rsp), 0, [other, other, other, other], other, other)
  }

  /** The emulation is right for every guest exactly when the operand is not RSP. */
  lemma EmulatesExactly(i: Mov)
    ensures (forall g | ValidGuest(g) :: Emulate(g, i) == Execute(g, i)) <==> General(i) != 4
  {
    hide General, DebugField;
    if General(i) == 4 {
      var g := Telltale(i);
      var d := DebugField(i.modrm);
      if i.read {
        assert Execute(g, i).regs[4] == ReadDr(g, d);
        assert Emulate(g, i).regs[4] != ReadDr(g, d);
      } else {
        assert ReadDr(Execute(g, i), d).rest == 1;
        assert ReadDr(Emulate(g, i), d).rest == 0;
      }
    }
  }

  /** With RSP as its operand a read changes nothing but RIP, and a write leaves zeros, whatever RSP was. */
  lemma EmulatesRsp(g: Guest, i: Mov)
    requires ValidGuest(g) && General(i) == 4
    ensures var h := Emulate(g, i);
            && h.regs == g.regs && h.rip == (g.rip + |Encode(i)|) % RIP_MOD
            && (i.read ==> h == g.(rip := h.rip))
            && (!i.read ==>
                  var d := DebugField(i.modrm);
                  ReadDr(h, d) == if d == 5 || d == 7 then ZERO.(bit10 := true) else ZERO)
  {
  }

  function EmulateAll(g: Guest, list: seq<Mov>): (h: Guest)
    requires ValidGuest(g)
    ensures ValidGuest(h)
  {
    if list == [] then g else Emulate(EmulateAll(g, list[..|list| - 1]), list[|list| - 1])
  }

  predicate WithoutRsp(list: seq<Mov>) { forall k | 0 <= k < |list| :: General(list[k]) != 4 }

  lemma {:induction false} EmulatesAll(g: Guest, list: seq<Mov>)
    requires ValidGuest(g) && WithoutRsp(list)
    ensures EmulateAll(g, list) == ExecuteAll(g, list)
  {
    hide General, Execute;
    if list != [] {
      EmulatesAll(g, list[..|list| - 1]);
    }
  }

  function ExecuteAll(g: Guest, list: seq<Mov>): (h: Guest)
    requires ValidGuest(g)
    ensures ValidGuest(h)
  {
    if list == [] then g else Execute(ExecuteAll(g, list[..|list| - 1]), list[|list| - 1])
  }

  // ----- A processor keeps bit 13 -----

  function WriteKept(g: Guest, d: nat, w: Word64): (h: Guest)
    requires ValidGuest(g) && d < 8
    ensures ValidGuest(h)
  {
    if Alias(d) == 6 then g.(dr6 := w)
    else if Alias(d) == 7 then g.(dr7 := w.(bit10 := true))
    else g.(dr := g.dr[d := w])
  }

  function ExecuteKept(g: Guest, i: Mov): (h: Guest)
    requires ValidGuest(g)
    ensures ValidGuest(h)
  {
    var d := DebugField(i.modrm);
    var moved := if i.read then g.(regs := g.regs[General(i) := ReadDr(g, d)]) else WriteKept(g, d, g.regs[General(i)]);
    moved.(rip := (g.rip + |Encode(i)|) % RIP_MOD)
  }

  function ExecuteKeptAll(g: Guest, list: seq<Mov>): (h: Guest)
    requires ValidGuest(g)
    ensures ValidGuest(h)
  {
    if list == [] then g else ExecuteKept(ExecuteKeptAll(g, list[..|list| - 1]), list[|list| - 1])
  }

  /** The access writes a set bit 13 to DR6 or DR7. */
  predicate WritesBit13(g: Guest, i: Mov)
    requires ValidGuest(g)
  {
    !i.read && Alias(DebugField(i.modrm)) >= 6 && g.regs[General(i)].bit13
  }

  lemma KeptExactly(g: Guest, i: Mov)
    requires ValidGuest(g)
    ensures Execute(g, i) == ExecuteKept(g, i) <==> !WritesBit13(g, i)
  {
    hide General, DebugField;
    var (g1, g2) := (Execute(g, i), ExecuteKept(g, i));
    if WritesBit13(g, i) {
      assert if Alias(DebugField(i.modrm)) == 6 then g1.dr6 != g2.dr6 else g1.dr7 != g2.dr7;
    }
  }

  /** One access more on both machines. */
  lemma BothMore(g: Guest, list: seq<Mov>, k: nat)
    requires ValidGuest(g) && k < |list|
    ensures ExecuteAll(g, list[..k + 1]) == Execute(ExecuteAll(g, list[..k]), list[k])
    ensures ExecuteKeptAll(g, list[..k + 1]) == ExecuteKept(ExecuteKeptAll(g, list[..k]), list[k])
  {
    hide Execute, ExecuteKept;
    assert list[..k + 1][..k] == list[..k];
  }

  lemma {:induction false} KeptSoFar(g: Guest, list: seq<Mov>, k: nat)
    requires ValidGuest(g) && k <= |list|
    requires forall j | 0 <= j < k :: !WritesBit13(ExecuteAll(g, list[..j]), list[j])
    ensures ExecuteAll(g, list[..k]) == ExecuteKeptAll(g, list[..k])
  {
    hide Execute, ExecuteKept, WritesBit13;
    if k == 0 {
    } else {
      KeptSoFar(g, list, k - 1);
      BothMore(g, list, k - 1);
      KeptExactly(ExecuteAll(g, list[..k - 1]), list[k - 1]);
    }
  }

  /** A guest cannot tell the machine above from one that keeps bit 13, at any point of a run, exactly when it never
      writes that bit to DR6 or DR7. */
  lemma KeepsBit13Exactly(g: Guest, list: seq<Mov>)
    requires ValidGuest(g)
    ensures (forall k | 0 <= k <= |list| :: ExecuteAll(g, list[..k]) == ExecuteKeptAll(g, list[..k]))
            <==> forall k | 0 <= k < |list| :: !WritesBit13(ExecuteAll(g, list[..k]), list[k])
  {
    hide Execute, ExecuteKept, WritesBit13, ExecuteAll, ExecuteKeptAll;
    if forall k | 0 <= k < |list| :: !WritesBit13(ExecuteAll(g, list[..k]), list[k]) {
      forall k: nat | k <= |list| ensures ExecuteAll(g, list[..k]) == ExecuteKeptAll(g, list[..k]) {
        KeptSoFar(g, list, k);
      }
    } else {
      var k: nat :| k < |list| && WritesBit13(ExecuteAll(g, list[..k]), list[k]);
      BothMore(g, list, k);
      KeptExactly(ExecuteAll(g, list[..k]), list[k]);
    }
  }

  /** What the guest last wrote to debug register d, or what it held to begin with. */
  function LastWritten(g: Guest, list: seq<Mov>, d: nat): Word64
    requires ValidGuest(g) && d < 8
  {
    if list == [] then ReadDr(g, d)
    else
      var (before, i) := (list[..|list| - 1], list[|list| - 1]);
      if !i.read && Alias(DebugField(i.modrm)) == Alias(d) then
        var w := ExecuteAll(g, before).regs[General(i)];
        if Alias(d) == 6 then w.(bit13 := false) else if Alias(d) == 7 then w.(bit10 := true, bit13 := false) else w
      else LastWritten(g, before, d)
  }

  /** In every run each debug register reads as what was last written to it. */
  lemma {:induction false} ReadsLastWritten(g: Guest, list: seq<Mov>, d: nat)
    requires ValidGuest(g) && d < 8
    ensures ReadDr(ExecuteAll(g, list), d) == LastWritten(g, list, d)
  {
    hide DebugField, General;
    if list != [] {
      ReadsLastWritten(g, list[..|list| - 1], d);
    }
  }

  /** A read changes its destination only, a write no general register; both pass the instruction. */
  lemma OnlyTheTarget(g: Guest, i: Mov)
    requires ValidGuest(g)
    ensures var h := Execute(g, i);
            && (forall r: nat | r < 16 && (!i.read || r != General(i)) :: h.regs[r] == g.regs[r])
            && (i.read ==>
                  h.regs[General(i)] == ReadDr(g, DebugField(i.modrm)) && h.dr == g.dr && h.dr6 == g.dr6
                  && h.dr7 == g.dr7)
            && h.rip == (g.rip + (if i.rex then 4 else 3)) % RIP_MOD
  {
    hide DebugField, General;
  }

  // ----- The debugger -----

  datatype Event = Access(i: Mov) | Set(n: nat, address: Word64, bt: bv2, bl: bv2) | Unset(n: nat)

  predicate Possible(e: Event) {
    match e
    case Access(i) => WellFormed(i)
    case Set(n, _, _, _) => n < 4
    case Unset(n) => n < 4
  }

  function Accesses(events: seq<Event>): seq<Mov> {
    if events == [] then []
    else
      Accesses(events[..|events| - 1])
      + match events[|events| - 1] { case Access(i) => [i] case _ => [] }
  }

  /** The general registers in the order the interrupt stub saves them: RAX, RBX, RCX, RDX, RSI, RDI, RBP, RSP, R8 to
      R15, by the numbers instructions give them. */
  const SAVED_ORDER: seq<nat> := [0, 3, 1, 2, 6, 7, 5, 4, 8, 9, 10, 11, 12, 13, 14, 15]

  /** Index in the saved stack of general register g; slot 7 is where the handler looks for a kernel's RSP. */
  function StackIndex(g: nat): (i: nat)
    requires g < 16
    ensures i < 16 && SAVED_ORDER[i] == g
  {
    if g >= 8 then g
    else if g == 0 then 0 else if g == 1 then 2 else if g == 2 then 3 else if g == 3 then 1
    else if g == 4 then 7 else if g == 5 then 6 else if g == 6 then 4 else 5
  }

  lemma StackIndexOneToOne(g: nat, h: nat)
    requires g < 16 && h < 16 && g != h
    ensures StackIndex(g) != StackIndex(h)
  {
  }

  datatype Verdict = NotOurs | Handled | Repeat

  // ----- Which registers the breakpoints get -----

  function Actives(b: seq<Breakpoint>, n: nat): (a: seq<nat>)
    requires n <= |b|
    ensures forall j | 0 <= j < |a| :: a[j] < n && b[a[j]].active
  {
    if n == 0 then [] else Actives(b, n - 1) + if b[n - 1].active then [n - 1] else []
  }

  predicate IsFree(w: Word64, r: nat)
    requires r < 4
  {
    !w.channels[r].l && !w.channels[r].g
  }

  function Frees(w: Word64, n: nat): (f: seq<nat>)
    requires n <= 4
    ensures forall j | 0 <= j < |f| :: f[j] < n && IsFree(w, f[j])
  {
    if n == 0 then [] else Frees(w, n - 1) + if IsFree(w, n - 1) then [n - 1] else []
  }

  function Min(a: nat, b: nat): nat { if a < b then a else b }

  predicate Holds(address: Word64, c: Channel, b: Breakpoint) {
    address == b.address && c == Channel(true, false, b.breakType, b.breakLength)
  }

  /** Breakpoint a[j] is in register f[j] for every j below k, and every other register is the guest's. */
  ghost predicate PlantedIn(dr: seq<Word64>, c: seq<Channel>, guestDr: seq<Word64>, guestC: seq<Channel>,
                            b: seq<Breakpoint>,
                            a: seq<nat>, f: seq<nat>, k: nat)
  {
    && |dr| == |c| == |guestDr| == |guestC| == 4 && k <= |a| && k <= |f|
    && (forall j: nat | j < k :: a[j] < |b| && f[j] < 4 && Holds(dr[f[j]], c[f[j]], b[a[j]]))
    && (forall r: nat | r < 4 && r !in f[..k] :: dr[r] == guestDr[r] && c[r] == guestC[r])
  }

  /** The first k active breakpoints are in the first k free registers, and every other register is the guest's. */
  ghost predicate Planted(dr: seq<Word64>, dr7: Word64, guestDr: seq<Word64>, guestDr7: Word64, b: seq<Breakpoint>,
                          k: nat) {
    && PlantedIn(dr, dr7.channels, guestDr, guestDr7.channels, b, Actives(b, |b|), Frees(guestDr7, 4), k)
    && dr7.bit10 == guestDr7.bit10 && dr7.rest == guestDr7.rest
  }

  /** A register the guest enabled, locally or globally, keeps its address, enable, LEN and RW. */
  lemma GuestRegistersKept(dr: seq<Word64>, dr7: Word64, guestDr: seq<Word64>, guestDr7: Word64, b: seq<Breakpoint>,
                           k: nat)
    requires Planted(dr, dr7, guestDr, guestDr7, b, k)
    ensures forall r: nat | r < 4 && (guestDr7.channels[r].l || guestDr7.channels[r].g) ::
              dr[r] == guestDr[r] && dr7.channels[r] == guestDr7.channels[r]
  {
    assert forall r: nat | r < 4 && !IsFree(guestDr7, r) :: r !in Frees(guestDr7, 4)[..k];
  }

  predicate Ascending(s: seq<nat>) { forall i, j | 0 <= i < j < |s| :: s[i] < s[j] }

  lemma AppendsAscending(s: seq<nat>, n: nat)
    requires Ascending(s) && forall i | 0 <= i < |s| :: s[i] < n
    ensures Ascending(s + [n])
  {
  }

  lemma {:induction false} FreesAscend(w: Word64, n: nat)
    requires n <= 4
    ensures Ascending(Frees(w, n))
    ensures forall r: nat | r < n && IsFree(w, r) :: r in Frees(w, n)
  {
    if n > 0 {
      FreesAscend(w, n - 1);
      AppendsAscending(Frees(w, n - 1), n - 1);
    }
  }

  /** There is one place in the list for each register that has both enable bits clear. */
  lemma {:induction false} FreesCounted(w: Word64, n: nat)
    requires n <= 4
    ensures |Frees(w, n)| == |set r: nat | r < n && !w.channels[r].l && !w.channels[r].g|
  {
    var now := set r: nat | r < n && !w.channels[r].l && !w.channels[r].g;
    if n == 0 {
      assert now == {};
    } else {
      FreesCounted(w, n - 1);
      var before := set r: nat | r < n - 1 && !w.channels[r].l && !w.channels[r].g;
      assert now == if IsFree(w, n - 1) then before + {n - 1} else before;
    }
  }

  lemma {:induction false} ActivesCounted(b: seq<Breakpoint>, n: nat)
    requires n <= |b|
    ensures |Actives(b, n)| == |set i: nat | i < n && b[i].active|
  {
    var now := set i: nat | i < n && b[i].active;
    if n == 0 {
      assert now == {};
    } else {
      ActivesCounted(b, n - 1);
      var before := set i: nat | i < n - 1 && b[i].active;
      assert now == if b[n - 1].active then before + {n - 1} else before;
    }
  }

  /** When as many as possible are planted: an active breakpoint with k active ones before it is in the register that
      has both enable bits clear and k such registers before it, if there is one; a register with as many free ones
      before it as there are active breakpoints is the guest's. */
  lemma BreakpointsPlanted(dr: seq<Word64>, dr7: Word64, guestDr: seq<Word64>, guestDr7: Word64, b: seq<Breakpoint>,
                           n: nat, r: nat)
    requires Planted(dr, dr7, guestDr, guestDr7, b, Min(|Actives(b, |b|)|, |Frees(guestDr7, 4)|)) && r < 4
    requires !guestDr7.channels[r].l && !guestDr7.channels[r].g
    ensures var k := |set q: nat | q < r && !guestDr7.channels[q].l && !guestDr7.channels[q].g|;
            && (n < |b| && b[n].active && |set i: nat | i < n && b[i].active| == k ==>
                  dr[r] == b[n].address && dr7.channels[r] == Channel(true, false, b[n].breakType, b[n].breakLength))
            && (|set i: nat | i < |b| && b[i].active| <= k ==>
                  dr[r] == guestDr[r] && dr7.channels[r] == guestDr7.channels[r])
  {
    var a, f, k := Actives(b, |b|), Frees(guestDr7, 4), |Frees(guestDr7, r)|;
    FreesCounted(guestDr7, r);
    ActivesCounted(b, |b|);
    FreeAt(guestDr7, r);
    if n < |b| && b[n].active {
      ActivesCounted(b, n);
      ActiveAt(b, n);
    }
    hide Actives, Frees;
    InPlace(dr, dr7.channels, guestDr, guestDr7.channels, b, a, f, Min(|a|, |f|), k);
  }

  lemma InPlace(dr: seq<Word64>, c: seq<Channel>, guestDr: seq<Word64>, guestC: seq<Channel>, b: seq<Breakpoint>,
                a: seq<nat>, f: seq<nat>, m: nat, k: nat)
    requires PlantedIn(dr, c, guestDr, guestC, b, a, f, m) && k < |f| && f[k] < 4 && Ascending(f)
    ensures k < m ==>
              a[k] < |b| && dr[f[k]] == b[a[k]].address
              && c[f[k]] == Channel(true, false, b[a[k]].breakType, b[a[k]].breakLength)
    ensures k >= m ==> dr[f[k]] == guestDr[f[k]] && c[f[k]] == guestC[f[k]]
  {
    if k >= m {
      assert f[k] !in f[..m];
    }
  }

  lemma FreeAt(w: Word64, r: nat)
    requires r < 4 && IsFree(w, r)
    ensures |Frees(w, r)| < |Frees(w, 4)| && Frees(w, 4)[|Frees(w, r)|] == r && Ascending(Frees(w, 4))
  {
    FreesNext(w, r);
    FreesGrow(w, r + 1, 4);
    FreesAscend(w, 4);
  }

  lemma ActiveAt(b: seq<Breakpoint>, n: nat)
    requires n < |b| && b[n].active
    ensures |Actives(b, n)| < |Actives(b, |b|)| && Actives(b, |b|)[|Actives(b, n)|] == n
  {
    ActivesGrow(b, n + 1, |b|);
  }

  lemma {:induction false} FreesGrow(w: Word64, n: nat, m: nat)
    requires n <= m <= 4
    ensures Frees(w, n) <= Frees(w, m)
  {
    if n < m {
      FreesGrow(w, n, m - 1);
    }
  }

  lemma {:induction false} ActivesGrow(b: seq<Breakpoint>, n: nat, m: nat)
    requires n <= m <= |b|
    ensures Actives(b, n) <= Actives(b, m)
  {
    if n < m {
      ActivesGrow(b, n, m - 1);
    }
  }

  /** The next breakpoint and the next register belong together. */
  lemma Partners(guestDr7: Word64, b: seq<Breakpoint>, k: nat, n: nat, r: nat)
    requires n < |b| && b[n].active && r < 4 && IsFree(guestDr7, r) && |Actives(b, n)| == k == |Frees(guestDr7, r)|
    ensures k < |Actives(b, |b|)| && Actives(b, |b|)[k] == n
    ensures k < |Frees(guestDr7, 4)| && Frees(guestDr7, 4)[k] == r
    ensures forall j | 0 <= j < k :: Frees(guestDr7, 4)[j] != r
  {
    ActivesGrow(b, n + 1, |b|);
    FreesGrow(guestDr7, r + 1, 4);
    FreesAscend(guestDr7, 4);
  }

  lemma PlantsOneIn(dr: seq<Word64>, c: seq<Channel>, guestDr: seq<Word64>, guestC: seq<Channel>, b: seq<Breakpoint>,
                    a: seq<nat>, f: seq<nat>, k: nat, after: seq<Word64>, afterC: seq<Channel>)
    requires PlantedIn(dr, c, guestDr, guestC, b, a, f, k) && k < |a| && k < |f| && a[k] < |b| && f[k] < 4
    requires forall j | 0 <= j < k :: f[j] != f[k]
    requires |after| == |afterC| == 4 && Holds(after[f[k]], afterC[f[k]], b[a[k]])
    requires forall q: nat | q < 4 && q != f[k] :: after[q] == dr[q] && afterC[q] == c[q]
    ensures PlantedIn(after, afterC, guestDr, guestC, b, a, f, k + 1)
  {
    hide Holds;
    assert f[..k + 1] == f[..k] + [f[k]];
  }

  /** One more breakpoint placed. */
  lemma PlantsOne(dr: seq<Word64>, dr7: Word64, guestDr: seq<Word64>, guestDr7: Word64, b: seq<Breakpoint>, k: nat,
                  n: nat, r: nat,
                  after: seq<Word64>, after7: Word64)
    requires Planted(dr, dr7, guestDr, guestDr7, b, k) && n < |b| && b[n].active && r < 4 && IsFree(guestDr7, r)
    requires |Actives(b, n)| == k == |Frees(guestDr7, r)| && |dr| == 4
    requires after == dr[r := b[n].address]
    requires after7 == dr7.(channels := dr7.channels[r := Channel(true, false, b[n].breakType, b[n].breakLength)])
    ensures Planted(after, after7, guestDr, guestDr7, b, k + 1)
  {
    Partners(guestDr7, b, k, n, r);
    hide Actives, Frees, IsFree, PlantedIn;
    PlantsOneIn(dr, dr7.channels, guestDr, guestDr7.channels, b, Actives(b, |b|), Frees(guestDr7, 4), k, after,
        after7.channels);
  }

  /** A free register nobody was given still looks to the processor as the guest left it. */
  lemma NotYetPlanted(dr: seq<Word64>, dr7: Word64, guestDr: seq<Word64>, guestDr7: Word64, b: seq<Breakpoint>, k: nat,
                      n: nat, r: nat)
    requires Planted(dr, dr7, guestDr, guestDr7, b, k) && n < |b| && b[n].active && r < 4 && IsFree(guestDr7, r)
    requires |Actives(b, n)| == k == |Frees(guestDr7, r)|
    ensures dr7.channels[r] == guestDr7.channels[r]
  {
    Partners(guestDr7, b, k, n, r);
    hide Actives, Frees;
    assert r !in Frees(guestDr7, 4)[..k];
  }

  // ----- The processor and the debugger's state -----

  /** The guest's registers in the order instructions number them: RSP is the one in the interrupt frame. */
  function InOrder(saved: seq<Word64>, rsp: Word64): (regs: seq<Word64>)
    requires |saved| == 16
    ensures |regs| == 16 && forall g: nat | g < 16 :: regs[g] == if g == 4 then rsp else saved[StackIndex(g)]
  {
    seq(16, g requires 0 <= g < 16 => if g == 4 then rsp else saved[StackIndex(g)])
  }

  lemma SavedRegister(i: nat)
    requires i < 16
    ensures SAVED_ORDER[i] < 16 && StackIndex(SAVED_ORDER[i]) == i && (SAVED_ORDER[i] == 4 <==> i == 7)
  {
  }

  /** The guest's registers are the saved ones in the order of the stub, except for RSP. */
  lemma InSavedOrder(saved: seq<Word64>, rsp: Word64, i: nat)
    requires |saved| == 16 && i < 16
    ensures SAVED_ORDER[i] < 16 && InOrder(saved, rsp)[SAVED_ORDER[i]] == if i == 7 then rsp else saved[i]
  {
    SavedRegister(i);
    hide SAVED_ORDER, StackIndex;
  }

  class Debugger {
    const stack: array<Word64>     // the saved general registers
    const rsp: Word64              // RSP of the interrupt frame
    var rip: nat
    const fakedDr: array<Word64>   // FakedDebugRegisterState of this processor
    var fakedDr6: Word64
    var fakedDr7: Word64
    var inEpilogue: bool
    const dr: array<Word64>        // the processor's own DR0 to DR3
    var dr6: Word64
    var dr7: Word64
    var breakpoint: seq<Breakpoint>
    var stoppingTheDebugger: bool

    /** debugger_setInitialFakeState, on a processor that does not ask for general detect yet, then
        debugger_dr7_setGD. */
    constructor (registers: seq<Word64>, interrupted: Word64, ip: nat, hardware: seq<Word64>, hardware6: Word64,
                 hardware7: Word64, b: seq<Breakpoint>)
      requires |registers| == 16 && |hardware| == 4 && |b| == 4
      ensures Valid() && Settled() && breakpoint == b && fresh(stack) && fresh(fakedDr) && fresh(dr)
      ensures View() == Guest(InOrder(registers, interrupted), ip, hardware, hardware6.(bit13 := false), hardware7)
    {
      stack := new Word64[16](i requires 0 <= i < 16 => registers[i]);
      fakedDr := new Word64[4](i requires 0 <= i < 4 => hardware[i]);
      dr := new Word64[4](i requires 0 <= i < 4 => hardware[i]);
      rsp := interrupted;
      rip, fakedDr6, fakedDr7, inEpilogue := ip, hardware6, hardware7, false;
      dr6, dr7 := hardware6, hardware7.(bit13 := true);
      breakpoint, stoppingTheDebugger := b, false;
      new;
      assert stack[..] == registers && fakedDr[..] == hardware;
    }

    ghost predicate Valid()
      reads `breakpoint
    {
      stack.Length == 16 && fakedDr.Length == 4 && dr.Length == 4 && |breakpoint| == 4
      && stack != fakedDr && stack != dr && fakedDr != dr
    }

    /** What the guest can find out. */
    ghost function View(): (g: Guest)
      requires Valid()
      reads `rip, `fakedDr6, `fakedDr7, `breakpoint, stack, fakedDr
      ensures ValidGuest(g)
    {
      Guest(InOrder(stack[..], rsp), rip, fakedDr[..], fakedDr6.(bit13 := false), fakedDr7)
    }

    /** Between traps: the next access will trap, and DR6 is the one the guest was shown. */
    ghost predicate Settled()
      reads this
    {
      !inEpilogue && (dr7.bit13 || stoppingTheDebugger) && dr6.(bit13 := false) == fakedDr6.(bit13 := false)
    }

    method SetGDBreakpoint(breakpointnr: nat, address: Word64, bt: bv2, bl: bv2)
      requires Valid() && breakpointnr < 4
      modifies this`breakpoint
      ensures Valid() && View() == old(View())
      ensures breakpoint == old(breakpoint)[breakpointnr := Breakpoint(true, address, bt, bl)]
    {
      breakpoint := breakpoint[breakpointnr := Breakpoint(true, address, bt, bl)];
    }

    method UnsetGDBreakpoint(breakpointnr: nat) returns (wasActive: bool)
      requires Valid() && breakpointnr < 4
      modifies this`breakpoint
      ensures Valid() && View() == old(View())
      ensures wasActive == old(breakpoint[breakpointnr].active)
      ensures breakpoint == old(breakpoint)[breakpointnr := old(breakpoint[breakpointnr]).(active := false)]
    {
      wasActive := breakpoint[breakpointnr].active;
      breakpoint := breakpoint[breakpointnr := breakpoint[breakpointnr].(active := false)];
    }

    /** The loop at the end of interrupt1_centry: breakpoints in order, each into the next register the guest left
        disabled. */
    method PlaceBreakpoints() returns (d7: Word64, ghost placed: nat)
      requires Valid() && dr[..] == fakedDr[..]
      modifies dr, this`inEpilogue
      ensures placed == Min(|Actives(breakpoint, 4)|, |Frees(fakedDr7, 4)|)
      ensures placed == Min(|set n: nat | n < 4 && breakpoint[n].active|,
                            |set r: nat | r < 4 && !fakedDr7.channels[r].l && !fakedDr7.channels[r].g|)
      ensures Planted(dr[..], d7, fakedDr[..], fakedDr7, breakpoint, placed)
      ensures d7.bit13 == fakedDr7.bit13
    {
      hide Planted, Actives, Frees;
      d7 := fakedDr7;
      placed := 0;
      NothingPlanted(dr[..], fakedDr7, breakpoint);
      var debugregister, b := 0, 0;
      while b < 4
        invariant 0 <= b <= 4 && 0 <= debugregister <= 4
        invariant |Actives(breakpoint, b)| == placed == |Frees(fakedDr7, debugregister)|
                  || (debugregister == 4 && placed == |Frees(fakedDr7, 4)| < |Actives(breakpoint, b)|)
        invariant Planted(dr[..], d7, fakedDr[..], fakedDr7, breakpoint, placed)
        invariant d7.bit13 == fakedDr7.bit13 && breakpoint == old(breakpoint) && fakedDr7 == old(fakedDr7)
      {
        ActivesNext(breakpoint, b);
        if breakpoint[b].active {
          var foundone := false;
          while debugregister < 4 && !foundone
            invariant 0 <= debugregister <= 4
            invariant if foundone then |Actives(breakpoint, b)| + 1 == placed == |Frees(fakedDr7, debugregister)|
                      else placed == |Frees(fakedDr7, debugregister)|
                           && (placed == |Actives(breakpoint, b)|
                                 || (debugregister == 4 && placed < |Actives(breakpoint, b)|))
            invariant Planted(dr[..], d7, fakedDr[..], fakedDr7, breakpoint, placed)
            invariant d7.bit13 == fakedDr7.bit13 && breakpoint == old(breakpoint) && fakedDr7 == old(fakedDr7)
          {
            inEpilogue := true;
            FreesNext(fakedDr7, debugregister);
            if !fakedDr7.channels[debugregister].l && !fakedDr7.channels[debugregister].g {
              foundone := true;
              ghost var was, was7 := dr[..], d7;
              NotYetPlanted(dr[..], d7, fakedDr[..], fakedDr7, breakpoint, placed, b, debugregister);
              dr[debugregister] := breakpoint[b].address;
              d7 := d7.(channels := d7.channels[debugregister :=
                d7.channels[debugregister].(l := true, len := breakpoint[b].breakLength,
                    rw := breakpoint[b].breakType)]);
              PlantsOne(was, was7, fakedDr[..], fakedDr7, breakpoint, placed, b, debugregister, dr[..], d7);
              placed := placed + 1;
            }
            debugregister := debugregister + 1;
          }
        }
        b := b + 1;
      }
      FreesGrow(fakedDr7, debugregister, 4);
      FreesCounted(fakedDr7, 4);
      ActivesCounted(breakpoint, 4);
    }

    /** The registers an access of the guest touches, found byte by byte. */
    static method Decode(instruction: seq<bv8>, ghost i: Mov) returns (length: nat, debugregister: nat, general: nat)
      requires WellFormed(i) && instruction == Encode(i)
      ensures length == |instruction| && debugregister == DebugField(i.modrm) && general == General(i)
    {
      var ip := 0;
      while instruction[ip] != 0x0F
        invariant 0 <= ip <= (if i.rex then 1 else 0)
        decreases |instruction| - ip
      {
        PrefixIsNoOpcode(i);
        ip := ip + 1;
      }
      PrefixIsNoOpcode(i);
      assert ip == if i.rex then 1 else 0;
      debugregister := DebugField(instruction[ip + 2]);
      general := RmField(instruction[ip + 2]);
      var prefix := 0;
      while prefix < ip
        invariant 0 <= prefix <= ip
        invariant general == if prefix > 0 then General(i) else RmField(i.modrm)
      {
        if instruction[prefix] & 0x41 == 0x41 {
          general := general + 8;
        }
        prefix := prefix + 1;
      }
      length := ip + 3;
    }

    function FakedValue(d: nat): Word64
      requires fakedDr.Length == 4 && d < 8
      reads this, fakedDr
    {
      if d == 4 || d == 6 then fakedDr6 else if d == 5 || d == 7 then fakedDr7 else fakedDr[d]
    }

    method EmulateRead(d: nat, general: nat)
      requires Valid() && d < 8 && general < 16 && !fakedDr6.bit13
      modifies stack
      ensures View() == if general == 4 then old(View())
                        else old(View()).(regs := old(View()).regs[general := ReadDr(old(View()), d)])
    {
      stack[StackIndex(general)] := FakedValue(d);
      ReadStored(old(stack[..]), stack[..], general, FakedValue(d), rsp);
    }

    /** A write goes to the processor and is read back from there. */
    method EmulateWrite(d: nat, value: Word64)
      requires Valid() && d < 8
      modifies fakedDr, dr, this`fakedDr6, this`fakedDr7, this`dr6, this`dr7
      ensures Valid() && View() == WriteDr(old(View()), d, value)
      ensures d == 4 || d == 6 || (dr6 == old(dr6) && fakedDr6 == old(fakedDr6))
      ensures (d == 4 || d == 6) ==> fakedDr6 == value
    {
      if d == 4 || d == 6 {
        dr6 := value;
        fakedDr6 := dr6;
        if value.bit13 {
          dr6 := value;
        }
      } else if d == 5 || d == 7 {
        dr7 := value.(bit10 := true, bit13 := false);
        fakedDr7 := dr7;
      } else {
        dr[d] := value;
        fakedDr[d] := dr[d];
      }
    }

    /** The part of interrupt1_handler a trapped kernel-mode access reaches. */
    method Handler(instruction: seq<bv8>, ghost i: Mov) returns (handled: Verdict)
      requires Valid() && WellFormed(i) && instruction == Encode(i)
      requires dr6.bit13 && dr6.(bit13 := false) == fakedDr6.(bit13 := false)
      modifies stack, fakedDr, dr, this`rip, this`fakedDr6, this`fakedDr7, this`dr6, this`dr7
      ensures Valid()
      ensures if inEpilogue then handled == Repeat && View() == old(View())
              else handled == Handled && View() == Emulate(old(View()), i)
    {
      hide General, DebugField, RmField, InOrder;
      dr6 := dr6.(bit13 := false);
      if inEpilogue {
        return Repeat;
      }
      fakedDr6 := dr6;
      ghost var before := View();
      assert before == old(View());
      var length, debugregister, general := Decode(instruction, i);
      if instruction[length - 2] == 0x21 {
        assert i.read;
        EmulateRead(debugregister, general);
      } else if instruction[length - 2] == 0x23 {
        assert !i.read;
        EmulateWrite(debugregister, if general == 4 then ZERO else stack[StackIndex(general)]);
      }
      rip := (rip + length) % RIP_MOD;
      handled := Handled;
    }

    /** The end of interrupt1_centry. */
    method Epilogue(handled: Verdict) returns (result: Verdict)
      requires Valid() && handled != NotOurs
      modifies dr, this`dr6, this`dr7, this`inEpilogue
      ensures Valid() && View() == old(View())
      ensures Planted(dr[..], dr7, fakedDr[..], fakedDr7, breakpoint,
          Min(|Actives(breakpoint, 4)|, |Frees(fakedDr7, 4)|))
      ensures result == Handled && dr6 == fakedDr6
      ensures if handled == Repeat then inEpilogue else !inEpilogue && (dr7.bit13 || stoppingTheDebugger)
    {
      hide Planted, Actives, Frees, InOrder;
      inEpilogue := true;
      dr7 := dr7.(bit13 := false);
      dr6 := IDLE_DR6;
      dr[0], dr[1], dr[2], dr[3] := fakedDr[0], fakedDr[1], fakedDr[2], fakedDr[3];
      dr6 := fakedDr6;
      assert dr[..] == fakedDr[..];
      ghost var placed;
      dr7, placed := PlaceBreakpoints();
      inEpilogue := true;
      if handled == Repeat {
        result := Handled;
      } else {
        result := handled;
        inEpilogue := false;
        if !stoppingTheDebugger {
          ArmingKeepsPlanted(dr[..], dr7, fakedDr[..], fakedDr7, breakpoint, placed);
          dr7 := dr7.(bit13 := true);
        }
      }
    }

    /** One trapped access: the processor reports general detect and switches it off, the debugger does the rest.
        Unless the operand is RSP the guest sees exactly what an unborrowed processor would have done. */
    method Trap(i: Mov)
      requires Valid() && Settled() && WellFormed(i)
      modifies this, stack, fakedDr, dr
      ensures Valid() && Settled() && View() == Emulate(old(View()), i)
      ensures General(i) != 4 ==> View() == Execute(old(View()), i)
      ensures Planted(dr[..], dr7, fakedDr[..], fakedDr7, breakpoint,
          Min(|Actives(breakpoint, 4)|, |Frees(fakedDr7, 4)|))
      ensures unchanged(`breakpoint, `stoppingTheDebugger)
    {
      hide Planted, Actives, Frees, Execute, Emulate, Encode, General;
      EmulateIs(View(), i);
      dr7 := dr7.(bit13 := false);
      dr6 := dr6.(bit13 := true);
      assert View() == old(View());
      var handled := Handler(Encode(i), i);
      handled := Epilogue(handled);
    }

    /** Any run of trapped accesses, with breakpoints set and removed in between: planted breakpoints never show. */
    method Run(events: seq<Event>)
      requires Valid() && Settled() && forall k | 0 <= k < |events| :: Possible(events[k])
      modifies this, stack, fakedDr, dr
      ensures Valid() && Settled() && View() == EmulateAll(old(View()), Accesses(events))
      ensures WithoutRsp(Accesses(events)) ==> View() == ExecuteAll(old(View()), Accesses(events))
    {
      hide Execute, Emulate, ExecuteAll, EmulateAll, Accesses, General, Planted, Actives, Frees;
      RunNothing(old(View()), events);
      var k := 0;
      while k < |events|
        invariant 0 <= k <= |events| && Valid() && Settled()
        invariant View() == EmulateAll(old(View()), Accesses(events[..k]))
      {
        AccessesMore(events, k);
        match events[k] {
          case Access(i) =>
            EmulateMore(old(View()), Accesses(events[..k]), i);
            Trap(i);
          case Set(n, address, bt, bl) => SetGDBreakpoint(n, address, bt, bl);
          case Unset(n) => var wasActive := UnsetGDBreakpoint(n);
        }
        k := k + 1;
      }
      assert events[..k] == events;
      if WithoutRsp(Accesses(events)) {
        EmulatesAll(old(View()), Accesses(events));
      }
    }
  }

  lemma NothingPlanted(dr: seq<Word64>, dr7: Word64, b: seq<Breakpoint>)
    requires |dr| == 4
    ensures Planted(dr, dr7, dr, dr7, b, 0) && |Actives(b, 0)| == 0 == |Frees(dr7, 0)|
  {
  }

  lemma ActivesNext(b: seq<Breakpoint>, n: nat)
    requires n < |b|
    ensures |Actives(b, n + 1)| == |Actives(b, n)| + if b[n].active then 1 else 0
  {
  }

  lemma FreesNext(w: Word64, n: nat)
    requires n < 4
    ensures |Frees(w, n + 1)| == |Frees(w, n)| + if IsFree(w, n) then 1 else 0
  {
  }

  lemma PrefixIsNoOpcode(i: Mov)
    requires WellFormed(i)
    ensures i.rex ==> i.prefix != 0x0F && (i.prefix & 0x41 == 0x41 <==> i.prefix & 1 == 1)
  {
  }

  lemma ArmingKeepsPlanted(dr: seq<Word64>, dr7: Word64, guestDr: seq<Word64>, guestDr7: Word64, b: seq<Breakpoint>,
                           k: nat)
    requires Planted(dr, dr7, guestDr, guestDr7, b, k)
    ensures Planted(dr, dr7.(bit13 := true), guestDr, guestDr7, b, k)
  {
    hide PlantedIn;
  }

  /** A stored result changes the one register it is meant for, and none if that is RSP. */
  lemma ReadStored(was: seq<Word64>, now: seq<Word64>, g: nat, w: Word64, rsp: Word64)
    requires g < 16 && |was| == |now| == 16 && now == was[StackIndex(g) := w]
    ensures InOrder(now, rsp) == if g == 4 then InOrder(was, rsp) else InOrder(was, rsp)[g := w]
  {
    forall h: nat | h < 16 && h != g ensures InOrder(now, rsp)[h] == InOrder(was, rsp)[h] {
      StackIndexOneToOne(g, h);
    }
  }

  lemma RunNothing(g: Guest, events: seq<Event>)
    requires ValidGuest(g)
    ensures EmulateAll(g, Accesses(events[..0])) == g
  {
  }

  lemma AccessesMore(events: seq<Event>, k: nat)
    requires k < |events|
    ensures Accesses(events[..k + 1]) == Accesses(events[..k]) + if events[k].Access? then [events[k].i] else []
    ensures !events[k].Access? ==> Accesses(events[..k + 1]) == Accesses(events[..k])
  {
    assert events[..k + 1][..k] == events[..k];
  }

  lemma EmulateMore(g: Guest, list: seq<Mov>, i: Mov)
    requires ValidGuest(g)
    ensures EmulateAll(g, list + [i]) == Emulate(EmulateAll(g, list), i)
  {
    assert (list + [i])[..|list|] == list;
  }

  lemma EmulateIs(g: Guest, i: Mov)
    requires ValidGuest(g)
    ensures General(i) != 4 ==> Emulate(g, i) == Execute(g, i)
  {
  }
}
