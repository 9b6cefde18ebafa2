/** The paging structures DBVM is started with, built entry by entry in physical memory by
    DBVM UEFI/dbvmoffload.c and DBKKernel/vmxoffload.c, and what the page walk makes of them. */
module TableBuilders {
  import opened Paging

  /** The entry a 64-bit word stands for. */
  function Decode(v: nat): Entry {
    Entry(v % 2 == 1, v / 2 % 2 == 1, v / 32 % 2 == 1, v / 128 % 2 == 1, v / 4096 % 0x100_0000_0000,
          v % 32 / 4 * 4 + v % 128 / 64 * 64 + v % 4096 / 256 * 256)
  }

  /** A page-aligned address below 2^52 stored as an entry: no flag is set. */
  lemma DecodeAligned(f: nat)
    requires f < 0x100_0000_0000
    ensures Decode(4096 * f) == Entry(false, false, false, false, f, 0)
  {
    assert 4096 * f / 4096 == f;
    assert (2048 * f) % 2 == 0;
    assert (128 * f) % 2 == 0;
    assert (32 * f) % 2 == 0;
    assert 4096 * f / 2 == 2048 * f;
    assert 4096 * f / 32 == 128 * f;
    assert 4096 * f / 128 == 32 * f;
  }

  // ----- What the finished tables mean -----

  /** Frames of the five tables, and the 1024 frames the window at 4 MB shows. */
  datatype Layout = Layout(pml4: nat, pdpt: nat, pd: nat, pt1: nat, pt2: nat, window: seq<nat>)

  predicate Points(e: Entry, ps: bool, frame: nat) {
    e.p && e.ps == ps && e.frame == frame
  }

  predicate AbsentFrom(m: seq<Entry>, frame: nat, i: nat) {
    forall s | 512 * frame + i <= s < 512 * frame + 512 :: !ReadSlot(m, s).p
  }

  /** The slot of window page n. */
  function WindowSlot(l: Layout, n: nat): nat {
    if n < 512 then 512 * l.pt1 + n else 512 * l.pt2 + (n - 512)
  }

  /** Window page n is mapped to its frame, unless it is the guard page. */
  predicate Shows(m: seq<Entry>, l: Layout, n: nat, guard: int)
    requires |l.window| == 1024 && n < 1024
  {
    var e := ReadSlot(m, WindowSlot(l, n));
    if n == guard then !e.p else e.p && e.frame == l.window[n]
  }

  predicate Built(m: seq<Entry>, l: Layout, guard: int) {
    && |l.window| == 1024
    && Points(ReadSlot(m, 512 * l.pml4), false, l.pdpt) && AbsentFrom(m, l.pml4, 1)
    && Points(ReadSlot(m, 512 * l.pdpt), false, l.pd) && AbsentFrom(m, l.pdpt, 1)
    && Points(ReadSlot(m, 512 * l.pd), true, 0) && Points(ReadSlot(m, 512 * l.pd + 1), true, 512)
    && Points(ReadSlot(m, 512 * l.pd + 2), false, l.pt1) && Points(ReadSlot(m, 512 * l.pd + 3), false, l.pt2)
    && AbsentFrom(m, l.pd, 4)
    && forall n: nat | n < 1024 :: Shows(m, l, n, guard)
  }

  /** RW, the unnamed bits and the accessed bit of an entry. */
  predicate RightsAre(e: Entry, rw: bool, rest: nat) { e.rw == rw && e.rest == rest && !e.a }

  /** The rights the upper tables give: the two 2 MB pages are writable user pages (US is bit 2) or read-only ones. */
  predicate UpperRights(m: seq<Entry>, l: Layout, low: bool) {
    && RightsAre(ReadSlot(m, 512 * l.pml4), true, 0) && RightsAre(ReadSlot(m, 512 * l.pdpt), true, 0)
    && RightsAre(ReadSlot(m, 512 * l.pd), low, if low then 4 else 0)
    && RightsAre(ReadSlot(m, 512 * l.pd + 1), low, if low then 4 else 0)
    && RightsAre(ReadSlot(m, 512 * l.pd + 2), true, 0) && RightsAre(ReadSlot(m, 512 * l.pd + 3), true, 0)
  }

  /** And those of the window: its pages are writable, and no further bit is set. */
  predicate Rights(m: seq<Entry>, l: Layout, low: bool) {
    && UpperRights(m, l, low)
    && forall n: nat | n < 1024 :: RightsAre(ReadSlot(m, WindowSlot(l, n)), true, 0)
  }

  const MB4 := 0x40_0000

  /** Identity below 4 MB, the window up to 8 MB, nothing above. */
  function Intended(window: seq<nat>, guard: int, va: nat): Option<nat>
    requires |window| == 1024
  {
    if va < MB4 then Some(va)
    else if va >= 2 * MB4 || (va - MB4) / 4096 == guard then None
    else Some(4096 * window[(va - MB4) / 4096] + va % 4096)
  }

  lemma WalkAbove(m: seq<Entry>, l: Layout, guard: int, q: nat)
    requires Built(m, l, guard) && 2048 <= q < PAGES
    ensures Walk(Tables(m, l.pml4), q).Unmapped?
  {
    hide Up, In, Shows;
    var t := Tables(m, l.pml4);
    var d, g, i := Up(q), Up(Up(q)), Up(Up(Up(q)));
    UpIs(i, 0, i);
    UpIs(0, 0, 0);
    if i == 0 {
      UpIs(g, 0, g);
      assert PdpteSlot(t, g) == 512 * l.pdpt + g;
      if g == 0 {
        UpIs(d, 0, d);
        assert PdeSlot(t, d) == 512 * l.pd + d;
      }
    }
  }

  lemma WalkBelow(m: seq<Entry>, l: Layout, guard: int, q: nat)
    requires Built(m, l, guard) && q < 2048
    ensures var t := Tables(m, l.pml4);
            && (q < 512 ==> Walk(t, q) == Large(512 * l.pd))
            && (512 <= q < 1024 ==> Walk(t, q) == Large(512 * l.pd + 1))
            && (1024 <= q ==>
                Walk(t, q) == if q - 1024 == guard then Unmapped else Small(WindowSlot(l, q - 1024)))
  {
    hide Up, In, AbsentFrom;
    var t := Tables(m, l.pml4);
    var d := if q < 512 then 0 else if q < 1024 then 1 else if q < 1536 then 2 else 3;
    UpIs(q, d, q - 512 * d);
    UpIs(d, 0, d);
    UpIs(0, 0, 0);
    assert Pdpte(t, 0) == ReadSlot(m, 512 * l.pdpt);
    assert Pde(t, d) == ReadSlot(m, 512 * l.pd + d);
    if d >= 2 {
      assert Shows(m, l, q - 1024, guard);
    }
  }

  lemma BuiltMeans(m: seq<Entry>, l: Layout, guard: int, va: nat)
    requires Built(m, l, guard) && va < 0x1_0000_0000_0000
    ensures Translate(Tables(m, l.pml4), va) == Intended(l.window, guard, va)
  {
    hide Up, In, Walk;
    var q := PageIndex(va);
    assert q == va / 4096;
    if q < 2048 {
      WalkBelow(m, l, guard, q);
      if 1024 <= q {
        assert Shows(m, l, q - 1024, guard);
      }
    } else {
      WalkAbove(m, l, guard, q);
    }
  }

  /** Which of the mapped pages can be written: the window, and below it what `low` says. */
  lemma WritableExactly(m: seq<Entry>, l: Layout, guard: int, low: bool, q: nat)
    requires Built(m, l, guard) && Rights(m, l, low) && q < 2048 && !(q >= 1024 && q - 1024 == guard)
    ensures Writable(Tables(m, l.pml4), q) <==> q >= 1024 || low
  {
    hide Up, In, AbsentFrom;
    WalkBelow(m, l, guard, q);
    hide Walk;
    var t := Tables(m, l.pml4);
    var d := if q < 512 then 0 else if q < 1024 then 1 else if q < 1536 then 2 else 3;
    UpIs(q, d, q - 512 * d);
    UpIs(d, 0, d);
    UpIs(0, 0, 0);
    assert Pml4e(t, 0) == ReadSlot(m, 512 * l.pml4) && Pdpte(t, 0) == ReadSlot(m, 512 * l.pdpt);
    assert Pde(t, d) == ReadSlot(m, 512 * l.pd + d);
    if d >= 2 {
      assert Shows(m, l, q - 1024, guard);
      assert Pte(t, q) == ReadSlot(m, WindowSlot(l, q - 1024));
    }
  }

  // ----- The UEFI loader -----

  /** The 22 pages behind the image: 16 of stack, the GDT, and the five tables. */
  function UefiLayout(first: nat, vmm: nat): Layout {
    Layout(first + 21, first + 17, first + 18, first + 19, first + 20, seq(1024, n requires n >= 0 => vmm + n))
  }

  /** `e.P = 1; e.RW = 1` on a page-aligned address stored as an entry. */
  function Link(frame: nat): Entry { Entry(true, true, false, false, frame, 0) }

  function Set(e: Entry): Entry { e.(p := true, rw := true) }

  /** `e.US = 1`: bit 2, one of those without a name. */
  function WithUS(e: Entry): Entry { e.(rest := e.rest / 8 * 8 + e.rest % 4 + 4) }

  /** Slots [from, to) hold f and every other slot what it held before. */
  twostate predicate OnlyChanged(mem: array<Entry>, from: int, to: int)
    reads mem
  {
    forall k | 0 <= k < mem.Length && !(from <= k < to) :: mem[k] == old(mem[k])
  }

  /** Slots outside the given frames are the same in both. */
  ghost predicate SameElsewhere(m: seq<Entry>, n: seq<Entry>, tables: set<nat>) {
    |m| == |n| && forall k: nat | k < |m| && Up(k) !in tables :: m[k] == n[k]
  }

  lemma StoreInTable(m: seq<Entry>, before: seq<Entry>, table: nat, i: nat, e: Entry, tables: set<nat>)
    requires SameElsewhere(m, before, tables) && table in tables && i < 512 && 512 * table + i < |m|
    ensures SameElsewhere(m[512 * table + i := e], before, tables)
  {
    hide Up, In;
    UpIs(512 * table + i, table, i);
  }

  /** One entry written through its pointer. */
  method Store(mem: array<Entry>, slot: nat, e: Entry)
    requires slot < mem.Length
    modifies mem
    ensures mem[..] == old(mem[..])[slot := e]
  {
    mem[slot] := e;
  }

  method ZeroMem(mem: array<Entry>, from: nat, to: nat)
    requires from <= to <= mem.Length
    modifies mem
    ensures OnlyChanged(mem, from, to)
    ensures forall k | from <= k < to :: mem[k] == ABSENT
  {
    hide Decode;
    DecodeAligned(0);
    var i := from;
    while i < to
      invariant from <= i <= to && OnlyChanged(mem, from, i)
      invariant forall k | from <= k < i :: mem[k] == ABSENT
    {
      mem[i] := Decode(0);
      i := i + 1;
    }
  }

  /** A page table over 2 MB of contiguous memory starting at frame f. */
  method FillPageTable(mem: array<Entry>, table: nat, f: nat)
    requires table + 512 <= mem.Length && f + 512 <= 0x100_0000_0000
    modifies mem
    ensures OnlyChanged(mem, table, table + 512)
    ensures forall k | table <= k < table + 512 :: mem[k] == Link(f + (k - table))
  {
    hide Decode;
    var i := 0;
    while i < 512
      invariant 0 <= i <= 512 && OnlyChanged(mem, table, table + i)
      invariant forall k | table <= k < table + i :: mem[k] == Link(f + (k - table))
    {
      DecodeAligned(f + i);
      mem[table + i] := Set(Decode(4096 * f + 4096 * i));
      i := i + 1;
    }
  }

  /** `(vmm + vmmsize) & 0xfffffffffffff00`: the mask clears the low eight bits and the top four. */
  function FreeStart(image: nat): nat {
    image % 0x1000_0000_0000_0000 / 256 * 256 + 4096
  }

  lemma DropLowByte(k: nat)
    ensures 256 * k / 256 * 256 == 256 * k
  {
  }

  lemma BelowTopFour(image: nat)
    requires image < 0x10_0000_0000_0000
    ensures image % 0x1000_0000_0000_0000 == image
  {
  }

  lemma FreeStartAligned(image: nat, n: nat)
    requires image == 4096 * n && image < 0x10_0000_0000_0000
    ensures FreeStart(image) == 4096 * (n + 1)
  {
    BelowTopFour(image);
    DropLowByte(16 * n);
    calc {
      FreeStart(image);
      image / 256 * 256 + 4096;
      256 * (16 * n) / 256 * 256 + 4096;
      256 * (16 * n) + 4096;
    }
  }

  /** The tables behind an image are page-aligned exactly when the image ends in the first 256 bytes of a page. */
  lemma FreeStartAlignedExactly(image: nat)
    requires image < 0x1000_0000_0000_0000
    ensures FreeStart(image) % 4096 == 0 <==> image % 4096 < 256
  {
    hide FreeStart;
    var m, r := image / 256, image % 256;
    var n, k := m / 16, m % 16;
    FreeStartIs(image, m, r);
    PageRest(n, 256 * k + r);
    PageRest(n + 1, 256 * k);
  }

  lemma FreeStartIs(image: nat, m: nat, r: nat)
    requires image < 0x1000_0000_0000_0000 && image == 256 * m + r && r < 256
    ensures FreeStart(image) == 256 * m + 4096
  {
    DropLow(m, r);
    assert image % 0x1000_0000_0000_0000 == image;
  }

  lemma PageRest(n: nat, r: nat)
    requires r < 4096
    ensures (4096 * n + r) % 4096 == r
  {
  }

  lemma DropLow(m: nat, r: nat)
    requires r < 256
    ensures (256 * m + r) / 256 * 256 == 256 * m
  {
  }

  /** The slot a page-aligned table pointer points at. */
  function Slot(address: nat): nat { address / 8 }

  lemma SlotIs(f: nat)
    ensures Slot(4096 * f) == 512 * f
  {
  }

  method InitializeDBVM(mem: array<Entry>, vmm: nat, vmmsize: nat) returns (pml4: nat)
    requires vmm % 4096 == 0 && vmmsize % 4096 == 0
    requires vmm + vmmsize + 23 * 4096 <= 8 * mem.Length && vmm + vmmsize + 23 * 4096 <= 0x10_0000_0000_0000
    requires vmm + MB4 <= 0x10_0000_0000_0000
    modifies mem
    ensures var first := (vmm + vmmsize) / 4096 + 1;
            && pml4 == 4096 * (first + 21)
            && Built(mem[..], UefiLayout(first, vmm / 4096), -1)
            && Rights(mem[..], UefiLayout(first, vmm / 4096), true)
            && OnlyChanged(mem, 512 * first, 512 * (first + 22))
  {
    hide Decode, FreeStart, Built, Rights, UefiLayout, UpperTables, Slot;
    ghost var first := (vmm + vmmsize) / 4096 + 1;
    FreeStartAligned(vmm + vmmsize, first - 1);
    var freePA := FreeStart(vmm + vmmsize);
    var mainstack := freePA;
    var pageDirPtr := freePA + 17 * 4096;
    var pageDir := freePA + 18 * 4096;
    var pageTable1 := freePA + 19 * 4096;
    var pageTable2 := freePA + 20 * 4096;
    pml4 := freePA + 21 * 4096;
    SlotIs(first);
    SlotIs(first + 22);
    ZeroMem(mem, Slot(mainstack), Slot(freePA + 22 * 4096));
    LinkUpperTables(mem, pml4, pageDirPtr, pageDir, pageTable1, first);
    FillWindow(mem, vmm, pageDir, pageTable1, pageTable2, first);
  }

  /** The two page tables of the image, and the directory entry of the second. */
  method FillWindow(mem: array<Entry>, vmm: nat, pageDir: nat, pageTable1: nat, pageTable2: nat, ghost first: nat)
    requires vmm % 4096 == 0 && vmm + MB4 <= 0x10_0000_0000_0000
    requires pageDir == 4096 * (first + 18) && pageTable1 == 4096 * (first + 19) && pageTable2 == 4096 * (first + 20)
    requires first + 22 <= 0x100_0000_0000 && UpperTables(mem[..], first)
    modifies mem
    ensures Built(mem[..], UefiLayout(first, vmm / 4096), -1)
    ensures Rights(mem[..], UefiLayout(first, vmm / 4096), true)
    ensures OnlyChanged(mem, 512 * first, 512 * (first + 22))
  {
    hide Decode, Built, Rights, UefiLayout, Slot;
    SlotIs(first + 18);
    SlotIs(first + 19);
    SlotIs(first + 20);
    FillPageTable(mem, Slot(pageTable1), vmm / 4096);
    DecodeAligned(first + 20);
    mem[Slot(pageDir) + 3] := Set(Decode(pageTable2)).(ps := false);
    FillPageTable(mem, Slot(pageTable2), (vmm + 0x20_0000) / 4096);
    UpperTablesStay(mem[..], old(mem[..]), first);
    UefiBuilt(mem[..], first, vmm / 4096);
    UefiRights(mem[..], first, vmm / 4096);
  }

  lemma UpperTablesStay(m: seq<Entry>, n: seq<Entry>, first: nat)
    requires |m| == |n| && UpperTables(n, first)
    requires forall k | 512 * (first + 17) <= k < 512 * (first + 19) && k != 512 * (first + 18) + 3 :: m[k] == n[k]
    requires forall k | 512 * (first + 21) <= k < 512 * (first + 22) :: m[k] == n[k]
    ensures UpperTables(m, first)
  {
  }

  /** PageMapLevel4[0], PageDirPtr[0] and PageDir[0..2]. */
  method LinkUpperTables(mem: array<Entry>, pml4: nat, pageDirPtr: nat, pageDir: nat, pageTable1: nat, ghost first: nat)
    requires pageDirPtr == 4096 * (first + 17) && pageDir == 4096 * (first + 18)
    requires pageTable1 == 4096 * (first + 19) && pml4 == 4096 * (first + 21)
    requires 512 * (first + 22) <= mem.Length && first + 22 <= 0x100_0000_0000
    requires forall k | 512 * (first + 17) <= k < 512 * (first + 22) :: mem[k] == ABSENT
    modifies mem
    ensures UpperTables(mem[..], first)
    ensures OnlyChanged(mem, 512 * (first + 17), 512 * (first + 22))
  {
    hide Decode, Slot;
    hide UpperTables;
    SlotIs(first + 17);
    SlotIs(first + 18);
    SlotIs(first + 21);
    DecodeAligned(first + 17);
    Store(mem, Slot(pml4), Set(Decode(pageDirPtr)));
    DecodeAligned(first + 18);
    Store(mem, Slot(pageDirPtr), Set(Decode(pageDir)));
    DecodeAligned(0);
    Store(mem, Slot(pageDir), WithUS(Set(Decode(0))).(ps := true));
    DecodeAligned(512);
    Store(mem, Slot(pageDir) + 1, WithUS(Set(Decode(0x20_0000))).(ps := true));
    DecodeAligned(first + 19);
    Store(mem, Slot(pageDir) + 2, Set(Decode(pageTable1)).(ps := false));
    UpperStored(old(mem[..]), mem[..], first);
  }

  lemma UpperStored(m: seq<Entry>, n: seq<Entry>, first: nat)
    requires |m| >= 512 * (first + 22)
    requires forall k | 512 * (first + 17) <= k < 512 * (first + 22) :: m[k] == ABSENT
    requires n == m[512 * (first + 21) := Link(first + 17)][512 * (first + 17) := Link(first + 18)]
                   [512 * (first + 18) := WithUS(Link(0)).(ps := true)]
                   [512 * (first + 18) + 1 := WithUS(Link(512)).(ps := true)]
                   [512 * (first + 18) + 2 := Link(first + 19)]
    ensures UpperTables(n, first)
    ensures |n| == |m| && forall k | 0 <= k < |m| && !(512 * (first + 17) <= k < 512 * (first + 22)) :: n[k] == m[k]
  {
  }

  /** The three upper tables; the entry for the second page table comes later. */
  predicate UpperTables(m: seq<Entry>, first: nat) {
    && |m| >= 512 * (first + 22)
    && m[512 * (first + 21)] == Link(first + 17) && m[512 * (first + 17)] == Link(first + 18)
    && m[512 * (first + 18)] == WithUS(Link(0)).(ps := true)
    && m[512 * (first + 18) + 1] == WithUS(Link(512)).(ps := true)
    && m[512 * (first + 18) + 2] == Link(first + 19)
    && (forall k | 512 * (first + 21) < k < 512 * (first + 22) :: !m[k].p)
    && (forall k | 512 * (first + 17) < k < 512 * (first + 18) :: !m[k].p)
    && (forall k | 512 * (first + 18) + 4 <= k < 512 * (first + 19) :: !m[k].p)
  }

  lemma UefiBuilt(m: seq<Entry>, first: nat, f: nat)
    requires UpperTables(m, first) && m[512 * (first + 18) + 3] == Link(first + 20)
    requires forall k | 512 * (first + 19) <= k < 512 * (first + 20) :: m[k] == Link(f + (k - 512 * (first + 19)))
    requires forall k | 512 * (first + 20) <= k < 512 * (first + 21) :: m[k] == Link(f + 512 + (k - 512 * (first + 20)))
    ensures Built(m, UefiLayout(first, f), -1)
  {
  }

  lemma UefiRights(m: seq<Entry>, first: nat, f: nat)
    requires UpperTables(m, first) && m[512 * (first + 18) + 3] == Link(first + 20)
    requires forall k | 512 * (first + 19) <= k < 512 * (first + 20) :: m[k] == Link(f + (k - 512 * (first + 19)))
    requires forall k | 512 * (first + 20) <= k < 512 * (first + 21) :: m[k] == Link(f + 512 + (k - 512 * (first + 20)))
    ensures Rights(m, UefiLayout(first, f), true)
  {
  }

  /** What the loader promises: identity below 4 MB, the image at 4 MB, nothing else. */
  lemma UefiTranslation(m: seq<Entry>, first: nat, vmm: nat, va: nat)
    requires vmm % 4096 == 0 && Built(m, UefiLayout(first, vmm / 4096), -1) && va < 0x1_0000_0000_0000
    ensures Translate(Tables(m, first + 21), va)
            == if va < MB4 then Some(va)
               else if va < 2 * MB4 then Some(vmm + (va - MB4))
               else None
  {
    hide Built, Translate;
    BuiltMeans(m, UefiLayout(first, vmm / 4096), -1, va);
  }

  // ----- The driver's window over its 4 MB allocation -----

  /** The allocation's pages may lie anywhere: page n of it is physical frame frames[n]. */
  predicate Frames(frames: seq<nat>, words: nat) {
    && |frames| == 1024
    && (forall n | 0 <= n < 1024 :: Fits(frames[n], words))
    && forall m, n | 0 <= m < n < 1024 :: frames[m] != frames[n]
  }

  /** The slot of entry i counted from page `page` of the allocation: entries run on into the next page. */
  function EntrySlot(frames: seq<nat>, page: nat, i: nat): nat
    requires page + Up(i) < |frames|
  {
    512 * frames[page + Up(i)] + In(i)
  }

  /** 16 stack pages from page `base`, the GDT, then the five tables. */
  function DriverLayout(frames: seq<nat>, base: nat): Layout
    requires base + 22 <= |frames|
  {
    Layout(frames[base + 21], frames[base + 17], frames[base + 18], frames[base + 19], frames[base + 20], frames)
  }

  predicate InFrame(slot: int, frame: nat) {
    512 * frame <= slot < 512 * frame + 512
  }

  /** Every slot outside the two page tables is as before; page tables entries are filled up to n. */
  ghost predicate FilledTo(m: seq<Entry>, before: seq<Entry>, l: Layout, n: nat)
    requires |l.window| == 1024
  {
    && |m| == |before|
    && (forall k | 0 <= k < |m| && !InFrame(k, l.pt1) && !InFrame(k, l.pt2) :: m[k] == before[k])
    && forall k: nat | k < n <= 1024 :: ReadSlot(m, WindowSlot(l, k)) == Link(l.window[k])
  }

  lemma FillOne(m: seq<Entry>, before: seq<Entry>, l: Layout, n: nat)
    requires |l.window| == 1024 && l.pt1 != l.pt2 && n < 1024 && FilledTo(m, before, l, n)
    requires WindowSlot(l, n) < |m|
    ensures FilledTo(m[WindowSlot(l, n) := Link(l.window[n])], before, l, n + 1)
  {
    var after := m[WindowSlot(l, n) := Link(l.window[n])];
    forall k: nat | k < n + 1 ensures ReadSlot(after, WindowSlot(l, k)) == Link(l.window[k]) {
      if k < n { assert WindowSlot(l, k) != WindowSlot(l, n); }
    }
  }

  lemma EntrySlotIs(frames: seq<nat>, base: nat, i: nat)
    requires base + 22 <= |frames| && i < 1024
    ensures Up(i) < 2 && EntrySlot(frames, base + 19, i) == WindowSlot(DriverLayout(frames, base), i)
  {
  }

  /** The size of the image file, taken up to a page boundary. */
  function VmmSize(fileSize: nat): nat {
    (fileSize + 4096) / 4096 * 4096
  }

  /** Of the files the loader accepts, those of up to 4 MB, exactly those below 0x3E9000 bytes leave room for the
      stack, the GDT and the tables in the allocation of 1024 pages. */
  lemma TablesFitExactly(fileSize: nat)
    requires fileSize <= MB4
    ensures VmmSize(fileSize) % 4096 == 0
    ensures VmmSize(fileSize) / 4096 + 23 <= 1024 <==> fileSize < 0x3E_9000
  {
    var n, r := fileSize / 4096, fileSize % 4096;
    assert fileSize + 4096 == 4096 * (n + 1) + r;
  }

  /** The tables of `initializeDBVM`; the first stack page is left unmapped. */
  method BuildVmmTables(mem: array<Entry>, frames: seq<nat>, vmmsize: nat) returns (pml4: nat)
    requires Frames(frames, mem.Length) && vmmsize % 4096 == 0 && vmmsize / 4096 + 23 <= 1024
    requires forall n | vmmsize / 4096 + 18 <= n < vmmsize / 4096 + 23 :: Blank(mem[..], frames[n])
    modifies mem
    ensures pml4 == 4096 * frames[vmmsize / 4096 + 22]
    ensures Built(mem[..], DriverLayout(frames, vmmsize / 4096 + 1), vmmsize / 4096 + 1)
    ensures Rights(mem[..], DriverLayout(frames, vmmsize / 4096 + 1), false)
    ensures SameElsewhere(mem[..], old(mem[..]), set n | vmmsize / 4096 + 18 <= n < vmmsize / 4096 + 23 :: frames[n])
  {
    hide Decode, Built, Rights, UpperRights, Up, In, FilledTo, Blank, DriverUpper, SameElsewhere;
    var base := vmmsize / 4096 + 1;
    pml4 := 4096 * frames[base + 21];
    ghost var l := DriverLayout(frames, base);
    DriverLinks(mem, frames[base + 21], frames[base + 17], frames[base + 18], frames[base + 19], frames[base + 20], l);
    ghost var before := mem[..];
    var i := 0;
    NothingFilled(before, l);
    while i < 1024
      invariant 0 <= i <= 1024 && FilledTo(mem[..], before, l, i)
    {
      EntrySlotIs(frames, base, i);
      DecodeAligned(frames[i]);
      FillOne(mem[..], before, l, i);
      mem[EntrySlot(frames, base + 19, i)] := Set(Decode(4096 * frames[i]));
      i := i + 1;
    }
    EntrySlotIs(frames, base, base);
    ghost var filled := mem[..];
    var guard := EntrySlot(frames, base + 19, base);
    mem[guard] := mem[guard].(p := false);
    DriverBuilt(before, filled, mem[..], l, base);
    DriverTouches(old(mem[..]), before, filled, mem[..], l, base, set n | base + 17 <= n < base + 22 :: frames[n]);
  }

  lemma DriverTouches(m: seq<Entry>, before: seq<Entry>, filled: seq<Entry>, after: seq<Entry>, l: Layout, guard: nat,
                      tables: set<nat>)
    requires |l.window| == 1024 && guard < 1024 && WindowSlot(l, guard) < |filled|
    requires SameElsewhere(before, m, {l.pml4, l.pdpt, l.pd}) && FilledTo(filled, before, l, 1024)
    requires after == filled[WindowSlot(l, guard) := filled[WindowSlot(l, guard)].(p := false)]
    requires l.pml4 in tables && l.pdpt in tables && l.pd in tables && l.pt1 in tables && l.pt2 in tables
    ensures SameElsewhere(after, m, tables)
  {
    hide Up, In;
  }

  lemma NothingFilled(m: seq<Entry>, l: Layout)
    requires |l.window| == 1024
    ensures FilledTo(m, m, l, 0)
  {
  }

  /** The upper tables as the driver writes them: its 2 MB pages are read-only. */
  predicate DriverUpper(m: seq<Entry>, l: Layout) {
    && Points(ReadSlot(m, 512 * l.pml4), false, l.pdpt) && AbsentFrom(m, l.pml4, 1)
    && Points(ReadSlot(m, 512 * l.pdpt), false, l.pd) && AbsentFrom(m, l.pdpt, 1)
    && Points(ReadSlot(m, 512 * l.pd), true, 0) && Points(ReadSlot(m, 512 * l.pd + 1), true, 512)
    && Points(ReadSlot(m, 512 * l.pd + 2), false, l.pt1) && Points(ReadSlot(m, 512 * l.pd + 3), false, l.pt2)
    && AbsentFrom(m, l.pd, 4)
  }

  predicate Fits(frame: nat, words: nat) {
    frame < 0x100_0000_0000 && 512 * (frame + 1) <= words
  }

  ghost predicate Blank(m: seq<Entry>, frame: nat) {
    forall k | 0 <= k < |m| && InFrame(k, frame) :: m[k] == ABSENT
  }

  method DriverLinks(mem: array<Entry>, pml4: nat, pdpt: nat, pd: nat, pt1: nat, pt2: nat, ghost l: Layout)
    requires l == Layout(pml4, pdpt, pd, pt1, pt2, l.window)
    requires Fits(pml4, mem.Length) && Fits(pdpt, mem.Length) && Fits(pd, mem.Length)
    requires Fits(pt1, mem.Length) && Fits(pt2, mem.Length)
    requires pml4 != pdpt && pml4 != pd && pdpt != pd
    requires Blank(mem[..], pml4) && Blank(mem[..], pdpt) && Blank(mem[..], pd)
    modifies mem
    ensures DriverUpper(mem[..], l) && UpperRights(mem[..], l, false)
    ensures SameElsewhere(mem[..], old(mem[..]), {pml4, pdpt, pd})
  {
    hide Decode, DriverUpper, UpperRights, Blank, SameElsewhere;
    DecodeAligned(pdpt);
    Store(mem, 512 * pml4, Set(Decode(4096 * pdpt)));
    DecodeAligned(pd);
    Store(mem, 512 * pdpt, Set(Decode(4096 * pd)));
    DecodeAligned(0);
    Store(mem, 512 * pd, Decode(0).(p := true, rw := false, ps := true));
    DecodeAligned(512);
    Store(mem, 512 * pd + 1, Decode(0x20_0000).(p := true, rw := false, ps := true));
    DecodeAligned(pt1);
    Store(mem, 512 * pd + 2, Set(Decode(4096 * pt1)).(ps := false));
    DecodeAligned(pt2);
    Store(mem, 512 * pd + 3, Set(Decode(4096 * pt2)).(ps := false));
    DriverStored(old(mem[..]), mem[..], l);
  }

  lemma DriverStored(m: seq<Entry>, n: seq<Entry>, l: Layout)
    requires Fits(l.pml4, |m|) && Fits(l.pdpt, |m|) && Fits(l.pd, |m|)
    requires l.pml4 != l.pdpt && l.pml4 != l.pd && l.pdpt != l.pd
    requires Blank(m, l.pml4) && Blank(m, l.pdpt) && Blank(m, l.pd)
    requires n == m[512 * l.pml4 := Link(l.pdpt)][512 * l.pdpt := Link(l.pd)]
                   [512 * l.pd := Entry(true, false, false, true, 0, 0)]
                   [512 * l.pd + 1 := Entry(true, false, false, true, 512, 0)]
                   [512 * l.pd + 2 := Link(l.pt1)][512 * l.pd + 3 := Link(l.pt2)]
    ensures DriverUpper(n, l) && UpperRights(n, l, false) && SameElsewhere(n, m, {l.pml4, l.pdpt, l.pd})
  {
    hide Up, In;
    UpIs(512 * l.pml4, l.pml4, 0);
    UpIs(512 * l.pdpt, l.pdpt, 0);
    UpIs(512 * l.pd, l.pd, 0);
    UpIs(512 * l.pd + 1, l.pd, 1);
    UpIs(512 * l.pd + 2, l.pd, 2);
    UpIs(512 * l.pd + 3, l.pd, 3);
  }

  lemma DriverBuilt(before: seq<Entry>, filled: seq<Entry>, m: seq<Entry>, l: Layout, guard: nat)
    requires |l.window| == 1024 && guard < 1024 && DriverUpper(before, l) && UpperRights(before, l, false)
    requires FilledTo(filled, before, l, 1024)
    requires l.pt1 != l.pt2 && l.pml4 !in {l.pt1, l.pt2} && l.pdpt !in {l.pt1, l.pt2} && l.pd !in {l.pt1, l.pt2}
    requires WindowSlot(l, guard) < |filled|
    requires m == filled[WindowSlot(l, guard) := filled[WindowSlot(l, guard)].(p := false)]
    ensures Built(m, l, guard) && Rights(m, l, false)
  {
    forall k: nat | k < 1024
      ensures Shows(m, l, k, guard) && RightsAre(ReadSlot(m, WindowSlot(l, k)), true, 0)
    {
      if k != guard { assert WindowSlot(l, k) != WindowSlot(l, guard); }
    }
    UpperUnchanged(before, m, l);
  }

  lemma UpperUnchanged(before: seq<Entry>, m: seq<Entry>, l: Layout)
    requires DriverUpper(before, l) && UpperRights(before, l, false) && |m| == |before|
    requires l.pml4 !in {l.pt1, l.pt2} && l.pdpt !in {l.pt1, l.pt2} && l.pd !in {l.pt1, l.pt2}
    requires forall k | 0 <= k < |m| && !InFrame(k, l.pt1) && !InFrame(k, l.pt2) :: m[k] == before[k]
    ensures DriverUpper(m, l) && UpperRights(m, l, false)
  {
    forall k: nat | InFrame(k, l.pml4) || InFrame(k, l.pdpt) || InFrame(k, l.pd)
      ensures ReadSlot(m, k) == ReadSlot(before, k)
    {
    }
  }

  /** Identity below 4 MB; the allocation at 4 MB, its first stack page aside; nothing else. */
  lemma DriverTranslation(m: seq<Entry>, frames: seq<nat>, base: nat, va: nat)
    requires |frames| == 1024 && base + 22 <= 1024 && va < 0x1_0000_0000_0000
    requires Built(m, DriverLayout(frames, base), base)
    ensures Translate(Tables(m, frames[base + 21]), va)
            == if va < MB4 then Some(va)
               else if va >= 2 * MB4 || (va - MB4) / 4096 == base then None
               else Some(4096 * frames[(va - MB4) / 4096] + va % 4096)
  {
    hide Built, Translate;
    BuiltMeans(m, DriverLayout(frames, base), base, va);
  }

  // ----- The driver's temporary tables: every page is the same one -----

  /** The first n entries of the table all lead to `next`. */
  predicate AllLead(m: seq<Entry>, table: nat, n: nat, next: nat) {
    512 * table + n <= |m| && forall s | 512 * table <= s < 512 * table + n :: Points(m[s], false, next) && !m[s].rw
  }

  predicate AllToOne(m: seq<Entry>, pml4: nat, pdpt: nat, pd: nat, pt: nat, target: nat, n: nat) {
    AllLead(m, pml4, n, pdpt) && AllLead(m, pdpt, n, pd) && AllLead(m, pd, n, pt) && AllLead(m, pt, n, target)
  }

  lemma OneMoreLeads(m: seq<Entry>, after: seq<Entry>, table: nat, n: nat, next: nat)
    requires AllLead(m, table, n, next) && |after| == |m| && 512 * table + n < |m|
    requires Points(after[512 * table + n], false, next) && !after[512 * table + n].rw
    requires forall s | 512 * table <= s < 512 * table + n :: after[s] == m[s]
    ensures AllLead(after, table, n + 1, next)
  {
  }

  /** One more entry of each table written. */
  lemma AllToOneMore(m: seq<Entry>, after: seq<Entry>, pml4: nat, pdpt: nat, pd: nat, pt: nat, target: nat, i: nat,
                     e: Entry, f: Entry, g: Entry, h: Entry)
    requires AllToOne(m, pml4, pdpt, pd, pt, target, i) && i < 512
    requires pml4 != pdpt && pml4 != pd && pml4 != pt && pdpt != pd && pdpt != pt && pd != pt
    requires Fits(pml4, |m|) && Fits(pdpt, |m|) && Fits(pd, |m|) && Fits(pt, |m|)
    requires Points(e, false, pdpt) && Points(f, false, pd) && Points(g, false, pt) && Points(h, false, target)
    requires !e.rw && !f.rw && !g.rw && !h.rw
    requires after == m[512 * pml4 + i := e][512 * pdpt + i := f][512 * pd + i := g][512 * pt + i := h]
    ensures AllToOne(after, pml4, pdpt, pd, pt, target, i + 1)
  {
    hide AllLead, Points;
    OneMoreLeads(m, after, pml4, i, pdpt);
    OneMoreLeads(m, after, pdpt, i, pd);
    OneMoreLeads(m, after, pd, i, pt);
    OneMoreLeads(m, after, pt, i, target);
  }

  method BuildTemporaryTables(mem: array<Entry>, pml4: nat, pdpt: nat, pd: nat, pt: nat, enterVMM2PA: nat)
    requires pml4 != pdpt && pml4 != pd && pml4 != pt && pdpt != pd && pdpt != pt && pd != pt
    requires Fits(pml4, mem.Length) && Fits(pdpt, mem.Length) && Fits(pd, mem.Length) && Fits(pt, mem.Length)
    requires enterVMM2PA % 4096 == 0 && enterVMM2PA < MB4
    modifies mem
    ensures AllToOne(mem[..], pml4, pdpt, pd, pt, enterVMM2PA / 4096, 512)
    ensures SameElsewhere(mem[..], old(mem[..]), {pml4, pdpt, pd, pt})
  {
    hide Decode, AllToOne, AllLead, SameElsewhere;
    DecodeAligned(pdpt);
    DecodeAligned(pd);
    DecodeAligned(pt);
    DecodeAligned(enterVMM2PA / 4096);
    ghost var tables := {pml4, pdpt, pd, pt};
    NothingWritten(mem[..], pml4, pdpt, pd, pt, enterVMM2PA / 4096, tables);
    var i := 0;
    while i < 512
      invariant 0 <= i <= 512 && AllToOne(mem[..], pml4, pdpt, pd, pt, enterVMM2PA / 4096, i)
      invariant SameElsewhere(mem[..], old(mem[..]), tables)
    {
      ghost var m := mem[..];
      StoreInTable(mem[..], old(mem[..]), pml4, i, Decode(4096 * pdpt).(p := true), tables);
      Store(mem, 512 * pml4 + i, Decode(4096 * pdpt).(p := true));
      StoreInTable(mem[..], old(mem[..]), pdpt, i, Decode(4096 * pd).(p := true), tables);
      Store(mem, 512 * pdpt + i, Decode(4096 * pd).(p := true));
      StoreInTable(mem[..], old(mem[..]), pd, i, Decode(4096 * pt).(p := true, ps := false), tables);
      Store(mem, 512 * pd + i, Decode(4096 * pt).(p := true, ps := false));
      StoreInTable(mem[..], old(mem[..]), pt, i, Decode(enterVMM2PA).(p := true), tables);
      Store(mem, 512 * pt + i, Decode(enterVMM2PA).(p := true));
      AllToOneMore(m, mem[..], pml4, pdpt, pd, pt, enterVMM2PA / 4096, i, Decode(4096 * pdpt).(p := true),
                   Decode(4096 * pd).(p := true), Decode(4096 * pt).(p := true, ps := false),
                   Decode(enterVMM2PA).(p := true));
      i := i + 1;
    }
  }

  lemma NothingWritten(m: seq<Entry>, pml4: nat, pdpt: nat, pd: nat, pt: nat, target: nat, tables: set<nat>)
    requires Fits(pml4, |m|) && Fits(pdpt, |m|) && Fits(pd, |m|) && Fits(pt, |m|)
    ensures AllToOne(m, pml4, pdpt, pd, pt, target, 0) && SameElsewhere(m, m, tables)
  {
  }

  /** None of it can be written. */
  lemma TemporaryReadOnly(m: seq<Entry>, pml4: nat, pdpt: nat, pd: nat, pt: nat, target: nat, q: nat)
    requires AllToOne(m, pml4, pdpt, pd, pt, target, 512)
    ensures !Writable(Tables(m, pml4), q)
  {
    hide Up, In, Walk;
    assert !Pml4e(Tables(m, pml4), Up(Up(Up(q)))).rw;
  }

  /** Every 48-bit address translates into the one page. */
  lemma TemporaryTranslation(m: seq<Entry>, pml4: nat, pdpt: nat, pd: nat, pt: nat, target: nat, va: nat)
    requires AllToOne(m, pml4, pdpt, pd, pt, target, 512)
    ensures Translate(Tables(m, pml4), va) == Some(4096 * target + va % 4096)
  {
    hide Up, In;
    var t, q := Tables(m, pml4), PageIndex(va);
    assert Points(Pml4e(t, Up(Up(Up(q)))), false, pdpt);
    assert Points(Pdpte(t, Up(Up(q))), false, pd);
    assert Points(Pde(t, Up(q)), false, pt);
    assert Points(Pte(t, q), false, target);
  }
}
