/** The page-table window: address arithmetic of DBKKernel/memscan.c. Shifts and masks by
    constants are written as division and remainder on 64-bit values. */
module SelfMap {
  import opened Paging

  const WRAP := 0x1_0000_0000_0000_0000
  const LOW48 := 0x1_0000_0000_0000
  const SIGN := 0xFFFF_0000_0000_0000

  datatype Indexes = Indexes(pml4: nat, pdpt: nat, pd: nat, pt: nat)

  function VirtualAddressToIndexes(address: nat): Indexes {
    Indexes(address / 0x80_0000_0000 % 512, address / 0x4000_0000 % 512,
            address / 0x20_0000 % 512, address / 0x1000 % 512)
  }

  function IndexesToVirtualAddress(i: Indexes, offset: nat): nat {
    (if i.pml4 >= 256 then SIGN else 0)
    + i.pml4 % 512 * 0x80_0000_0000 + i.pdpt % 512 * 0x4000_0000
    + i.pd % 512 * 0x20_0000 + i.pt % 512 * 0x1000 + offset % 4096
  }

  /** Bits 48 to 63 repeat bit 47. */
  predicate Canonical(address: nat) {
    address < 0x8000_0000_0000 || SIGN + 0x8000_0000_0000 <= address < WRAP
  }

  /** The canonical address of page index q. */
  function PageAddress(q: nat): nat
    requires q < PAGES
  {
    (if q < PAGES / 2 then 0 else SIGN) + 4096 * q
  }

  /** The four indexes are the base-512 digits of the page index. */
  lemma IndexDigits(address: nat)
    ensures var q := address / 4096;
            VirtualAddressToIndexes(address)
            == Indexes(q / 512 / 512 / 512 % 512, q / 512 / 512 % 512, q / 512 % 512, q % 512)
  {
    assert address / 0x20_0000 == address / 4096 / 512;
    assert address / 0x4000_0000 == address / 0x20_0000 / 512;
    assert address / 0x80_0000_0000 == address / 0x4000_0000 / 512;
  }

  /** The page index with the given base-512 digits. */
  function PageOf(i: Indexes): nat {
    512 * (512 * (512 * i.pml4 + i.pdpt) + i.pd) + i.pt
  }

  predicate Digits(i: Indexes) {
    i.pml4 < 512 && i.pdpt < 512 && i.pd < 512 && i.pt < 512
  }

  lemma JoinDigits(i: Indexes, offset: nat)
    requires Digits(i)
    ensures PageOf(i) < PAGES
    ensures IndexesToVirtualAddress(i, offset) == PageAddress(PageOf(i)) + offset % 4096
    ensures Canonical(IndexesToVirtualAddress(i, offset))
  {
    assert i.pml4 % 512 == i.pml4 && i.pdpt % 512 == i.pdpt && i.pd % 512 == i.pd && i.pt % 512 == i.pt;
  }

  lemma DivMod(x: nat, n: nat, r: nat)
    requires r < 512 && x == 512 * n + r
    ensures x / 512 == n && x % 512 == r
  {
  }

  lemma PageDigits(i: Indexes)
    requires Digits(i)
    ensures var q := PageOf(i);
            q / 512 == 512 * (512 * i.pml4 + i.pdpt) + i.pd && q % 512 == i.pt
            && q / 512 / 512 == 512 * i.pml4 + i.pdpt && q / 512 % 512 == i.pd
            && q / 512 / 512 / 512 == i.pml4 && q / 512 / 512 % 512 == i.pdpt
  {
    DivMod(PageOf(i), 512 * (512 * i.pml4 + i.pdpt) + i.pd, i.pt);
    DivMod(512 * (512 * i.pml4 + i.pdpt) + i.pd, 512 * i.pml4 + i.pdpt, i.pd);
    DivMod(512 * i.pml4 + i.pdpt, i.pml4, i.pdpt);
  }

  lemma DigitsOf(q: nat) returns (i: Indexes)
    requires q < PAGES
    ensures Digits(i) && PageOf(i) == q
  {
    var d := q / 512;
    var g := d / 512;
    i := Indexes(g / 512, g % 512, d % 512, q % 512);
  }

  /** Joining digits under sign bits n and splitting again gives the digits back. */
  lemma SplitDigits(address: nat, n: nat, i: Indexes, offset: nat)
    requires Digits(i) && offset < 4096
    requires address == 4096 * (PAGES * n + PageOf(i)) + offset
    ensures VirtualAddressToIndexes(address) == i
  {
    var h := 512 * n + i.pml4;
    var g := 512 * h + i.pdpt;
    var d := 512 * g + i.pd;
    assert address / 4096 == 512 * d + i.pt;
    DivMod(512 * d + i.pt, d, i.pt);
    DivMod(d, g, i.pd);
    DivMod(g, h, i.pdpt);
    DivMod(h, n, i.pml4);
    IndexDigits(address);
  }

  lemma JoinThenSplit(i: Indexes, offset: nat)
    requires Digits(i)
    ensures VirtualAddressToIndexes(IndexesToVirtualAddress(i, offset)) == i
    ensures Canonical(IndexesToVirtualAddress(i, offset))
  {
    JoinDigits(i, offset);
    var n := if PageOf(i) < PAGES / 2 then 0 else 0xFFFF;
    assert PageAddress(PageOf(i)) == 4096 * (PAGES * n + PageOf(i));
    SplitDigits(IndexesToVirtualAddress(i, offset), n, i, offset % 4096);
  }

  lemma SplitThenJoin(address: nat)
    requires Canonical(address)
    ensures IndexesToVirtualAddress(VirtualAddressToIndexes(address), address % 4096) == address
  {
    var n := if address < LOW48 then 0 else 0xFFFF;
    var a, offset := address / 4096, address % 4096;
    assert address == 4096 * a + offset;
    var q := a - PAGES * n;
    var i := DigitsOf(q);
    SplitDigits(address, n, i, offset);
    assert IndexesToVirtualAddress(i, offset) == address by {
      JoinDigits(i, offset);
      assert PageAddress(q) == 4096 * a;
    }
  }

  datatype Pointers = Pointers(pml4e: nat, pdpte: nat, pde: nat, pte: nat)

  /** One step of the pointer computation: the entry that maps `address`, seen in the window. */
  function WindowStep(address: nat, base: nat): nat {
    (address % LOW48 / 4096 * 8 + base) % WRAP
  }

  function VirtualAddressToPageEntries64(address: nat, base: nat): Pointers {
    var pte := WindowStep(address, base);
    var pde := WindowStep(pte, base);
    var pdpte := WindowStep(pde, base);
    Pointers(WindowStep(pdpte, base), pdpte, pde, pte)
  }

  /** The address of the window at PML4 slot s. */
  function WindowBase(s: nat): nat
    requires s < 512
  {
    (if s >= 256 then SIGN else 0) + 0x80_0000_0000 * s
  }

  predicate SelfMapped(t: Tables, s: nat) {
    s < 512 && Pml4e(t, s).p && Pml4e(t, s).frame == t.root && !Pml4e(t, s).ps
  }

  lemma LowPage(address: nat)
    ensures address % LOW48 / 4096 == PageIndex(address)
  {
    var n, r := address / LOW48, address % LOW48;
    assert address / 4096 == PAGES * n + r / 4096;
  }

  lemma PageIndexIs(address: nat, n: nat, q: nat, offset: nat)
    requires address == 4096 * (PAGES * n + q) + offset && q < PAGES && offset < 4096
    ensures PageIndex(address) == q && address % 4096 == offset
  {
    assert address / 4096 == PAGES * n + q;
  }

  lemma WindowStepIs(address: nat, s: nat)
    requires s < 512
    ensures WindowStep(address, WindowBase(s)) == WindowBase(s) + 8 * PageIndex(address)
    ensures PageIndex(WindowStep(address, WindowBase(s))) == 0x800_0000 * s + PageIndex(address) / 512
    ensures WindowStep(address, WindowBase(s)) % 4096 == 8 * (PageIndex(address) % 512)
  {
    var q := PageIndex(address);
    var pointer := WindowBase(s) + 8 * q;
    assert WindowStep(address, WindowBase(s)) == pointer by {
      LowPage(address);
      assert pointer < WRAP;
    }
    var d, r := q / 512, q % 512;
    assert q == 512 * d + r;
    PageIndexIs(pointer, if s >= 256 then 0xFFFF else 0, 0x800_0000 * s + d, 8 * r);
  }

  /** Page index and in-page offset of the pointer found `page` entries into the window. */
  lemma PointerPage(pointer: nat, s: nat, page: nat)
    requires s < 512 && page < 0x800_0000 && PageIndex(pointer) == 0x800_0000 * s + page
    ensures PageIndex(WindowStep(pointer, WindowBase(s))) == 0x800_0000 * s + (0x4_0000 * s + page / 512)
    ensures WindowStep(pointer, WindowBase(s)) % 4096 == 8 * (page % 512)
    ensures 0x4_0000 * s + page / 512 < 0x800_0000
  {
    WindowStepIs(pointer, s);
    DivMod(0x800_0000 * s + page, 0x4_0000 * s + page / 512, page % 512);
  }

  /** Bit 7 of a PML4 entry is reserved and clear. */
  predicate NoHugePml4(t: Tables) {
    forall i: nat | i < 512 && Pml4e(t, i).p :: !Pml4e(t, i).ps
  }

  // Read through slot s, every structure looks like the one a level below it.

  lemma WindowPdpte(t: Tables, s: nat, i: nat)
    requires SelfMapped(t, s) && i < 512
    ensures (512 * s + i) / 512 == s
    ensures PdpteSlot(t, 512 * s + i) == Pml4Slot(t, i)
  {
    DivMod(512 * s + i, s, i);
  }

  lemma WindowPde(t: Tables, s: nat, g: nat)
    requires SelfMapped(t, s) && g < 0x4_0000
    ensures (0x4_0000 * s + g) / 512 == 512 * s + g / 512
    ensures HasPdpte(t, 512 * s + g / 512) <==> Pml4e(t, g / 512).p
    ensures Pml4e(t, g / 512).p ==> PdeSlot(t, 0x4_0000 * s + g) == PdpteSlot(t, g)
  {
    DivMod(0x4_0000 * s + g, 512 * s + g / 512, g % 512);
    WindowPdpte(t, s, g / 512);
  }

  lemma WindowPte(t: Tables, s: nat, d: nat)
    requires SelfMapped(t, s) && d < 0x800_0000
    ensures (0x800_0000 * s + d) / 512 == 0x4_0000 * s + d / 512
    ensures HasPde(t, 0x4_0000 * s + d / 512) <==> HasPdpte(t, d / 512)
    ensures HasPdpte(t, d / 512) ==> PteSlot(t, 0x800_0000 * s + d) == PdeSlot(t, d)
  {
    DivMod(0x800_0000 * s + d, 0x4_0000 * s + d / 512, d % 512);
    WindowPde(t, s, d / 512);
  }

  /** A walk of the window is the walk of the page it describes, stopped one level early. */
  lemma WindowWalk(t: Tables, s: nat, d: nat)
    requires SelfMapped(t, s) && NoHugePml4(t) && d < 0x800_0000
    ensures Walk(t, 0x800_0000 * s + d)
            == if !HasPdpte(t, d / 512) then Unmapped
               else if Pdpte(t, d / 512).ps then Large(PdpteSlot(t, d / 512))
               else if !Pde(t, d).p then Unmapped
               else Small(PdeSlot(t, d))
  {
    var g := d / 512;
    WindowPte(t, s, d);
    WindowPde(t, s, g);
    WindowPdpte(t, s, g / 512);
  }

  /** Where in the window the four pointers of `address` point: page and in-page offset. */
  lemma PointerPages(address: nat, s: nat)
    requires s < 512
    ensures var q := PageIndex(address);
            var p := VirtualAddressToPageEntries64(address, WindowBase(s));
            && PageIndex(p.pte) == 0x800_0000 * s + q / 512
            && p.pte % 4096 == 8 * (q % 512)
            && PageIndex(p.pde) == 0x800_0000 * s + (0x4_0000 * s + q / 512 / 512)
            && p.pde % 4096 == 8 * (q / 512 % 512)
            && PageIndex(p.pdpte) == 0x800_0000 * s + (0x4_0000 * s + (512 * s + q / 512 / 512 / 512))
            && p.pdpte % 4096 == 8 * (q / 512 / 512 % 512)
            && PageIndex(p.pml4e) == 0x800_0000 * s + (0x4_0000 * s + (512 * s + s))
            && p.pml4e % 4096 == 8 * (q / 512 / 512 / 512)
  {
    var d := PageIndex(address) / 512;
    var g := d / 512;
    var i := g / 512;
    assert i < 512;
    WindowStepIs(address, s);
    var pte := WindowStep(address, WindowBase(s));
    PointerPage(pte, s, d);
    var pde := WindowStep(pte, WindowBase(s));
    DivMod(0x4_0000 * s + g, 512 * s + i, g % 512);
    PointerPage(pde, s, 0x4_0000 * s + g);
    var pdpte := WindowStep(pde, WindowBase(s));
    DivMod(0x4_0000 * s + (512 * s + i), 512 * s + s, i);
    PointerPage(pdpte, s, 0x4_0000 * s + (512 * s + i));
  }

  lemma TranslateUnmapped(t: Tables, pointer: nat)
    requires Walk(t, PageIndex(pointer)).Unmapped?
    ensures Translate(t, pointer) == None
  {
  }

  lemma TranslateSmall(t: Tables, pointer: nat, slot: nat, k: nat)
    requires Walk(t, PageIndex(pointer)) == Small(slot) && pointer % 4096 == 8 * k
    ensures Translate(t, pointer) == Some(8 * (512 * ReadSlot(t.mem, slot).frame + k))
  {
  }

  /** The pointer for `address` reaches its PTE exactly when the tables above it are there. */
  lemma PtePointer(t: Tables, s: nat, address: nat)
    requires SelfMapped(t, s) && NoHugePml4(t)
    requires var g := PageIndex(address) / 512 / 512; HasPdpte(t, g) ==> !Pdpte(t, g).ps
    ensures var q := PageIndex(address);
            Translate(t, VirtualAddressToPageEntries64(address, WindowBase(s)).pte)
            == if HasPde(t, q / 512) then Some(8 * PteSlot(t, q)) else None
  {
    hide VirtualAddressToPageEntries64, WindowBase, PageIndex, Translate, Walk;
    var q, pointer := PageIndex(address), VirtualAddressToPageEntries64(address, WindowBase(s)).pte;
    PointerPages(address, s);
    WindowWalk(t, s, q / 512);
    if HasPde(t, q / 512) {
      TranslateSmall(t, pointer, PdeSlot(t, q / 512), q % 512);
    } else {
      TranslateUnmapped(t, pointer);
    }
  }

  lemma PdePointer(t: Tables, s: nat, address: nat)
    requires SelfMapped(t, s) && NoHugePml4(t)
    ensures var q := PageIndex(address);
            Translate(t, VirtualAddressToPageEntries64(address, WindowBase(s)).pde)
            == if HasPdpte(t, q / 512 / 512) then Some(8 * PdeSlot(t, q / 512)) else None
  {
    hide VirtualAddressToPageEntries64, WindowBase, PageIndex, Translate, Walk;
    var d, pointer := PageIndex(address) / 512, VirtualAddressToPageEntries64(address, WindowBase(s)).pde;
    PointerPages(address, s);
    PdePage(t, s, d / 512);
    if HasPdpte(t, d / 512) {
      TranslateSmall(t, pointer, PdpteSlot(t, d / 512), d % 512);
    } else {
      TranslateUnmapped(t, pointer);
    }
  }

  /** The walk of the page that shows the PDEs of 1 GB region g. */
  lemma PdePage(t: Tables, s: nat, g: nat)
    requires SelfMapped(t, s) && NoHugePml4(t) && g < 0x4_0000
    ensures Walk(t, 0x800_0000 * s + (0x4_0000 * s + g))
            == if HasPdpte(t, g) then Small(PdpteSlot(t, g)) else Unmapped
  {
    WindowPde(t, s, g);
    WindowPdpte(t, s, g / 512);
    WindowWalk(t, s, 0x4_0000 * s + g);
  }

  lemma PdptePointer(t: Tables, s: nat, address: nat)
    requires SelfMapped(t, s) && NoHugePml4(t)
    ensures var q := PageIndex(address);
            Translate(t, VirtualAddressToPageEntries64(address, WindowBase(s)).pdpte)
            == if Pml4e(t, q / 512 / 512 / 512).p then Some(8 * PdpteSlot(t, q / 512 / 512)) else None
  {
    hide VirtualAddressToPageEntries64, WindowBase, PageIndex, Translate, Walk;
    var g, pointer := PageIndex(address) / 512 / 512, VirtualAddressToPageEntries64(address, WindowBase(s)).pdpte;
    PointerPages(address, s);
    PdptePage(t, s, g);
    if Pml4e(t, g / 512).p {
      TranslateSmall(t, pointer, Pml4Slot(t, g / 512), g % 512);
    } else {
      TranslateUnmapped(t, pointer);
    }
  }

  /** The walk of the page that shows the PDPTEs of PML4 slot g / 512. */
  lemma PdptePage(t: Tables, s: nat, g: nat)
    requires SelfMapped(t, s) && NoHugePml4(t) && g < 0x4_0000
    ensures (0x4_0000 * s + g) / 512 == 512 * s + g / 512 && (0x4_0000 * s + g) % 512 == g % 512
    ensures Walk(t, 0x800_0000 * s + (0x4_0000 * s + (512 * s + g / 512)))
            == if Pml4e(t, g / 512).p then Small(Pml4Slot(t, g / 512)) else Unmapped
  {
    DivMod(0x4_0000 * s + g, 512 * s + g / 512, g % 512);
    WindowPdpte(t, s, g / 512);
    PdePage(t, s, 512 * s + g / 512);
  }

  /** The walk of the page that shows the PML4 itself. */
  lemma Pml4Page(t: Tables, s: nat)
    requires SelfMapped(t, s)
    ensures Walk(t, 0x800_0000 * s + (0x4_0000 * s + (512 * s + s))) == Small(Pml4Slot(t, s))
  {
    var w := 0x800_0000 * s + (0x4_0000 * s + (512 * s + s));
    DivMod(w, 0x4_0000 * s + (512 * s + s), s);
    DivMod(0x4_0000 * s + (512 * s + s), 512 * s + s, s);
    DivMod(512 * s + s, s, s);
  }

  lemma Pml4SlotThroughSelf(t: Tables, s: nat, i: nat)
    requires SelfMapped(t, s) && i < 512
    ensures 512 * ReadSlot(t.mem, Pml4Slot(t, s)).frame + i == Pml4Slot(t, i)
  {
    assert i % 512 == i;
  }

  lemma Pml4ePointer(t: Tables, s: nat, address: nat)
    requires SelfMapped(t, s)
    ensures var q := PageIndex(address);
            Translate(t, VirtualAddressToPageEntries64(address, WindowBase(s)).pml4e)
            == Some(8 * Pml4Slot(t, q / 512 / 512 / 512))
  {
    hide VirtualAddressToPageEntries64, WindowBase, Translate, Walk;
    PointerPages(address, s);
    var i := PageIndex(address) / 512 / 512 / 512;
    assert i < 512;
    Pml4Page(t, s);
    Pml4SlotThroughSelf(t, s, i);
    TranslateSmall(t, VirtualAddressToPageEntries64(address, WindowBase(s)).pml4e, Pml4Slot(t, s), i);
  }

  // ----- Entries beside the one a pointer points at -----

  /** k entries further on the same page. */
  lemma SamePage(pointer: nat, k: nat)
    requires pointer % 4096 + 8 * k < 4096
    ensures PageIndex(pointer + 8 * k) == PageIndex(pointer) && (pointer + 8 * k) % 4096 == pointer % 4096 + 8 * k
  {
    assert pointer == 4096 * (pointer / 4096) + pointer % 4096;
  }

  lemma Within2M(x: nat, b: nat, r: nat)
    requires x == 0x20_0000 * b + r && r < 0x20_0000
    ensures x % 0x20_0000 == r
  {
  }

  lemma Within1G(x: nat, b: nat, r: nat)
    requires x == 0x4000_0000 * b + r && r < 0x4000_0000
    ensures x % 0x4000_0000 == r
  {
  }

  /** The same within a 2 MB and a 1 GB page. */
  lemma WithinLarger(pointer: nat, k: nat)
    requires pointer % 4096 + 8 * k < 4096
    ensures (pointer + 8 * k) % 0x20_0000 == pointer % 0x20_0000 + 8 * k
    ensures (pointer + 8 * k) % 0x4000_0000 == pointer % 0x4000_0000 + 8 * k
  {
    hide Up, In;
    var a, r := pointer / 4096, pointer % 4096;
    var d := Up(a);
    var g := Up(d);
    assert pointer == 0x20_0000 * d + (4096 * In(a) + r);
    Within2M(pointer, d, 4096 * In(a) + r);
    Within2M(pointer + 8 * k, d, 4096 * In(a) + r + 8 * k);
    Within1G(pointer, g, 0x20_0000 * In(d) + 4096 * In(a) + r);
    Within1G(pointer + 8 * k, g, 0x20_0000 * In(d) + 4096 * In(a) + r + 8 * k);
  }

  lemma Beside(t: Tables, pointer: nat, k: nat)
    requires pointer % 4096 + 8 * k < 4096
    ensures Translate(t, pointer + 8 * k)
            == if Translate(t, pointer).None? then None else Some(Translate(t, pointer).value + 8 * k)
  {
    hide Walk, PageIndex;
    SamePage(pointer, k);
    WithinLarger(pointer, k);
  }

  lemma SlotsBeside(t: Tables, n: nat, k: nat)
    requires In(n) + k < 512
    ensures Up(n + k) == Up(n) && In(n + k) == In(n) + k
    ensures Pml4Slot(t, n + k) == Pml4Slot(t, n) + k
    ensures Pml4e(t, Up(n)).p ==> PdpteSlot(t, n + k) == PdpteSlot(t, n) + k
    ensures HasPdpte(t, Up(n)) ==> PdeSlot(t, n + k) == PdeSlot(t, n) + k
    ensures HasPde(t, Up(n)) ==> PteSlot(t, n + k) == PteSlot(t, n) + k
  {
    UpIs(n + k, Up(n), In(n) + k);
    hide Up, In;
  }

  /** The four pointer results and the pointers' places on their pages, in terms of regions. */
  lemma PteAt(t: Tables, s: nat, address: nat)
    requires SelfMapped(t, s) && NoHugePml4(t)
    requires var g := Up(Up(PageIndex(address))); HasPdpte(t, g) ==> !Pdpte(t, g).ps
    ensures var (q, p) := (PageIndex(address), VirtualAddressToPageEntries64(address, WindowBase(s)).pte);
            p % 4096 == 8 * In(q) && Translate(t, p) == if HasPde(t, Up(q)) then Some(8 * PteSlot(t, q)) else None
  {
    hide VirtualAddressToPageEntries64, PageIndex, WindowBase, Translate;
    PtePointer(t, s, address);
    PointerPages(address, s);
  }

  lemma PdeAt(t: Tables, s: nat, address: nat)
    requires SelfMapped(t, s) && NoHugePml4(t)
    ensures var (d, p) := (Up(PageIndex(address)), VirtualAddressToPageEntries64(address, WindowBase(s)).pde);
            p % 4096 == 8 * In(d) && Translate(t, p) == if HasPdpte(t, Up(d)) then Some(8 * PdeSlot(t, d)) else None
  {
    hide VirtualAddressToPageEntries64, PageIndex, WindowBase, Translate;
    PdePointer(t, s, address);
    PointerPages(address, s);
  }

  lemma PdpteAt(t: Tables, s: nat, address: nat)
    requires SelfMapped(t, s) && NoHugePml4(t)
    ensures var (g, p) := (Up(Up(PageIndex(address))), VirtualAddressToPageEntries64(address, WindowBase(s)).pdpte);
            p % 4096 == 8 * In(g) && Translate(t, p) == if Pml4e(t, Up(g)).p then Some(8 * PdpteSlot(t, g)) else None
  {
    hide VirtualAddressToPageEntries64, PageIndex, WindowBase, Translate;
    PdptePointer(t, s, address);
    PointerPages(address, s);
  }

  lemma Pml4eAt(t: Tables, s: nat, address: nat)
    requires SelfMapped(t, s)
    ensures var (i, p) := (Up(Up(Up(PageIndex(address)))), VirtualAddressToPageEntries64(address, WindowBase(s)).pml4e);
            i < 512 && p % 4096 == 8 * In(i) && Translate(t, p) == Some(8 * Pml4Slot(t, i))
  {
    hide VirtualAddressToPageEntries64, WindowBase, Translate;
    var q := PageIndex(address);
    Pml4ePointer(t, s, address);
    PointerPages(address, s);
    assert q / 512 / 512 / 512 < 512;
  }

  /** Indexing a pointer the way the scan does, `pointer[k]`, reaches the entry k places on in the same table. */
  lemma PteArray(t: Tables, s: nat, address: nat, k: nat)
    requires SelfMapped(t, s) && NoHugePml4(t) && In(PageIndex(address)) + k < 512
    requires var g := Up(Up(PageIndex(address))); HasPdpte(t, g) ==> !Pdpte(t, g).ps
    ensures var q := PageIndex(address);
            Translate(t, VirtualAddressToPageEntries64(address, WindowBase(s)).pte + 8 * k)
            == if HasPde(t, Up(q)) then Some(8 * PteSlot(t, q + k)) else None
  {
    hide VirtualAddressToPageEntries64, PageIndex, WindowBase, Translate, Up, In, PteSlot, HasPde, NoHugePml4;
    PteAt(t, s, address);
    SlotsBeside(t, PageIndex(address), k);
    Beside(t, VirtualAddressToPageEntries64(address, WindowBase(s)).pte, k);
  }

  lemma PdeArray(t: Tables, s: nat, address: nat, k: nat)
    requires SelfMapped(t, s) && NoHugePml4(t) && In(Up(PageIndex(address))) + k < 512
    ensures var d := Up(PageIndex(address));
            Translate(t, VirtualAddressToPageEntries64(address, WindowBase(s)).pde + 8 * k)
            == if HasPdpte(t, Up(d)) then Some(8 * PdeSlot(t, d + k)) else None
  {
    hide VirtualAddressToPageEntries64, PageIndex, WindowBase, Translate, Up, In, PdeSlot, HasPdpte, NoHugePml4;
    PdeAt(t, s, address);
    SlotsBeside(t, Up(PageIndex(address)), k);
    Beside(t, VirtualAddressToPageEntries64(address, WindowBase(s)).pde, k);
  }

  lemma PdpteArray(t: Tables, s: nat, address: nat, k: nat)
    requires SelfMapped(t, s) && NoHugePml4(t) && In(Up(Up(PageIndex(address)))) + k < 512
    ensures var g := Up(Up(PageIndex(address)));
            Translate(t, VirtualAddressToPageEntries64(address, WindowBase(s)).pdpte + 8 * k)
            == if Pml4e(t, Up(g)).p then Some(8 * PdpteSlot(t, g + k)) else None
  {
    hide VirtualAddressToPageEntries64, PageIndex, WindowBase, Translate, Up, In, PdpteSlot, Pml4e, NoHugePml4;
    PdpteAt(t, s, address);
    SlotsBeside(t, Up(Up(PageIndex(address))), k);
    Beside(t, VirtualAddressToPageEntries64(address, WindowBase(s)).pdpte, k);
  }

  lemma Pml4Array(t: Tables, s: nat, address: nat, k: nat)
    requires SelfMapped(t, s) && In(Up(Up(Up(PageIndex(address))))) + k < 512
    ensures Translate(t, VirtualAddressToPageEntries64(address, WindowBase(s)).pml4e + 8 * k)
            == Some(8 * Pml4Slot(t, Up(Up(Up(PageIndex(address)))) + k))
  {
    hide VirtualAddressToPageEntries64, PageIndex, WindowBase, Translate, Up, In, Pml4Slot;
    Pml4eAt(t, s, address);
    SlotsBeside(t, Up(Up(Up(PageIndex(address)))), k);
    Beside(t, VirtualAddressToPageEntries64(address, WindowBase(s)).pml4e, k);
  }

  /** The entry a load through the tables reads. */
  function Load(t: Tables, pointer: nat): Entry
    requires Translate(t, pointer).Some?
  {
    ReadSlot(t.mem, Translate(t, pointer).value / 8)
  }

  lemma LoadIs(t: Tables, pointer: nat, slot: nat)
    requires Translate(t, pointer) == Some(8 * slot)
    ensures Load(t, pointer) == ReadSlot(t.mem, slot)
  {
  }

  /** Reading through the four pointers gives the entries of the page walk, each one once those above it are present. */
  lemma ReadsThroughWindow(t: Tables, s: nat, address: nat)
    requires SelfMapped(t, s) && NoHugePml4(t)
    ensures var q := PageIndex(address);
            var p := VirtualAddressToPageEntries64(address, WindowBase(s));
            && Translate(t, p.pml4e).Some? && Load(t, p.pml4e) == Pml4e(t, Up(Up(Up(q))))
            && (Pml4e(t, Up(Up(Up(q)))).p ==> Translate(t, p.pdpte).Some? && Load(t, p.pdpte) == Pdpte(t, Up(Up(q))))
            && (HasPdpte(t, Up(Up(q))) ==> Translate(t, p.pde).Some? && Load(t, p.pde) == Pde(t, Up(q)))
            && (HasPde(t, Up(q)) && !Pdpte(t, Up(Up(q))).ps ==>
                  Translate(t, p.pte).Some? && Load(t, p.pte) == Pte(t, q))
  {
    hide VirtualAddressToPageEntries64, PageIndex, WindowBase, Translate, Up, In, Load, NoHugePml4;
    var q := PageIndex(address);
    var p := VirtualAddressToPageEntries64(address, WindowBase(s));
    Pml4eAt(t, s, address);
    LoadIs(t, p.pml4e, Pml4Slot(t, Up(Up(Up(q)))));
    if Pml4e(t, Up(Up(Up(q)))).p {
      PdpteAt(t, s, address);
      LoadIs(t, p.pdpte, PdpteSlot(t, Up(Up(q))));
      if HasPdpte(t, Up(Up(q))) {
        PdeAt(t, s, address);
        LoadIs(t, p.pde, PdeSlot(t, Up(q)));
        if HasPde(t, Up(q)) && !Pdpte(t, Up(Up(q))).ps {
          PteAt(t, s, address);
          LoadIs(t, p.pte, PteSlot(t, q));
        }
      }
    }
  }
}
