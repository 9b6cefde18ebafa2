/** Four-level AMD64 page tables (Intel SDM Volume 3A, section 4.5) as the driver sees them.

    Physical memory is a sequence of 8-byte entries: slot n is the entry at physical
    address 8 * n. A page is named by its 36-bit page index (bits 12 to 47 of the address),
    a 2 MB region by the page index divided by 512, a 1 GB region by that divided by 512
    again, and a 512 GB region (a PML4 slot) by one more division by 512. */
module Paging {
  datatype Option<+T> = None | Some(value: T)

  /** The fields of `struct PTEStruct`; `rest` stands for every bit without a name here. */
  datatype Entry = Entry(p: bool, rw: bool, a: bool, ps: bool, frame: nat, rest: nat)

  const ABSENT := Entry(false, false, false, false, 0, 0)

  /** The paging structures of one address space: physical memory and the frame in CR3. */
  datatype Tables = Tables(mem: seq<Entry>, root: nat)

  const PAGES := 0x10_0000_0000   // 2^36 page indexes

  /** The region one level up, and the index inside it. */
  function Up(n: nat): (u: nat)
    ensures 512 * u <= n < 512 * u + 512
  {
    n / 512
  }

  function In(n: nat): (r: nat)
    ensures r < 512 && n == 512 * Up(n) + r
  {
    n % 512
  }

  lemma UpIs(x: nat, n: nat, r: nat)
    requires r < 512 && x == 512 * n + r
    ensures Up(x) == n && In(x) == r
  {
    hide Up, In;
    var k := Up(x);
  }

  function ReadSlot(mem: seq<Entry>, slot: nat): Entry {
    if slot < |mem| then mem[slot] else ABSENT
  }

  function Pml4Slot(t: Tables, i: nat): nat {
    512 * t.root + In(i)
  }

  function Pml4e(t: Tables, i: nat): Entry {
    ReadSlot(t.mem, Pml4Slot(t, i))
  }

  function PdpteSlot(t: Tables, g: nat): nat
    requires Pml4e(t, Up(g)).p
  {
    512 * Pml4e(t, Up(g)).frame + In(g)
  }

  function Pdpte(t: Tables, g: nat): Entry
    requires Pml4e(t, Up(g)).p
  {
    ReadSlot(t.mem, PdpteSlot(t, g))
  }

  /** The 1 GB region g has a present PDPTE. */
  predicate HasPdpte(t: Tables, g: nat) {
    Pml4e(t, Up(g)).p && Pdpte(t, g).p
  }

  function PdeSlot(t: Tables, d: nat): nat
    requires HasPdpte(t, Up(d))
  {
    512 * Pdpte(t, Up(d)).frame + In(d)
  }

  function Pde(t: Tables, d: nat): Entry
    requires HasPdpte(t, Up(d))
  {
    ReadSlot(t.mem, PdeSlot(t, d))
  }

  /** The 2 MB region d has a present PDE. */
  predicate HasPde(t: Tables, d: nat) {
    HasPdpte(t, Up(d)) && Pde(t, d).p
  }

  function PteSlot(t: Tables, q: nat): nat
    requires HasPde(t, Up(q))
  {
    512 * Pde(t, Up(q)).frame + In(q)
  }

  function Pte(t: Tables, q: nat): Entry
    requires HasPde(t, Up(q))
  {
    ReadSlot(t.mem, PteSlot(t, q))
  }

  /** What the page walk ends at: nothing, or a leaf entry of one of the three sizes. */
  datatype Walked = Unmapped | Huge(slot: nat) | Large(slot: nat) | Small(slot: nat)

  function Walk(t: Tables, q: nat): Walked {
    if !HasPdpte(t, Up(Up(q))) then Unmapped
    else if Pdpte(t, Up(Up(q))).ps then Huge(PdpteSlot(t, Up(Up(q))))
    else if !HasPde(t, Up(q)) then Unmapped
    else if Pde(t, Up(q)).ps then Large(PdeSlot(t, Up(q)))
    else if !Pte(t, q).p then Unmapped
    else Small(PteSlot(t, q))
  }

  /** Bits 12 to 47 of an address. */
  function PageIndex(address: nat): (q: nat)
    ensures q < PAGES
  {
    address / 4096 % PAGES
  }

  /** The physical address a 64-bit linear address translates to (bits 48 to 63 are not looked at). */
  function Translate(t: Tables, va: nat): Option<nat> {
    match Walk(t, PageIndex(va))
    case Unmapped => None
    case Huge(s) => Some(ReadSlot(t.mem, s).frame / 0x4_0000 * 0x4000_0000 + va % 0x4000_0000)
    case Large(s) => Some(ReadSlot(t.mem, s).frame / 512 * 0x20_0000 + va % 0x20_0000)
    case Small(s) => Some(ReadSlot(t.mem, s).frame * 4096 + va % 4096)
  }

  /** Every entry on the walk of a mapped page allows writing (Intel SDM Volume 3A, section 4.6). */
  predicate Writable(t: Tables, q: nat) {
    && !Walk(t, q).Unmapped? && Pml4e(t, Up(Up(Up(q)))).rw && Pdpte(t, Up(Up(q))).rw
    && (Walk(t, q).Large? ==> Pde(t, Up(q)).rw)
    && (Walk(t, q).Small? ==> Pde(t, Up(q)).rw && Pte(t, q).rw)
  }
}
