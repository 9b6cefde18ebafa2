/** `walkPagingLayout` of DBKKernel/memscan.c and its two callbacks: the skipping walk over all
    present pages, the list of accessed ranges, and clearing the accessed bits. */
module PageWalk {
  import opened Paging
  import SelfMap

  const WRAP := 0x1_0000_0000_0000_0000

  /** One call of the callback: first and last byte of the page, and the slot of its entry. */
  datatype Leaf = Leaf(start: nat, end: nat, slot: nat)

  /** A page of 4 KB, 2 MB or 1 GB that starts at page index q. */
  function LeafAt(t: Tables, q: nat): Option<Leaf> {
    match Walk(t, q)
    case Unmapped => None
    case Huge(s) =>
      if In(q) == 0 && In(Up(q)) == 0 then Some(Leaf(4096 * q, 4096 * q + 0x4000_0000 - 1, s)) else None
    case Large(s) => if In(q) == 0 then Some(Leaf(4096 * q, 4096 * q + 0x20_0000 - 1, s)) else None
    case Small(s) => Some(Leaf(4096 * q, 4096 * q + 0x1000 - 1, s))
  }

  /** The linear scan: every page starting below page index n, in ascending order. */
  function Leaves(t: Tables, n: nat): seq<Leaf> {
    if n == 0 then [] else
    var before := Leaves(t, n - 1);
    match LeafAt(t, n - 1)
    case None => before
    case Some(l) => before + [l]
  }

  lemma LeavesSkip(t: Tables, c: nat, n: nat)
    requires c <= n && forall q: nat | c <= q < n :: LeafAt(t, q).None?
    ensures Leaves(t, n) == Leaves(t, c)
  {
    hide Up, In, Walk, LeafAt;
    if c < n { LeavesSkip(t, c, n - 1); }
  }

  lemma LeavesStep(t: Tables, c: nat, n: nat, l: Leaf)
    requires c < n && LeafAt(t, c) == Some(l)
    requires forall q: nat | c < q < n :: LeafAt(t, q).None?
    ensures Leaves(t, n) == Leaves(t, c) + [l]
  {
    hide Up, In, Walk, LeafAt;
    LeavesSkip(t, c + 1, n);
  }

  // ----- What the callbacks do -----

  datatype Callback = StoreAccessedRanges | MarkPageAsNotAccessed

  datatype PRange = PRange(start: nat, end: nat)

  /** Physical memory, the accessed list (newest first) and its counter. */
  datatype Scan = Scan(mem: seq<Entry>, list: seq<PRange>, size: int)

  function Store(s: Scan, l: Leaf): Scan {
    if !ReadSlot(s.mem, l.slot).a then s
    else if |s.list| > 0 && s.list[0].end == (l.start - 1) % WRAP then
      s.(list := [s.list[0].(end := l.end)] + s.list[1..])
    else s.(list := [PRange(l.start, l.end)] + s.list, size := s.size + 1)
  }

  function ClearAccessed(mem: seq<Entry>, slot: nat): seq<Entry> {
    if slot < |mem| then mem[slot := mem[slot].(a := false)] else mem
  }

  function Call(cb: Callback, s: Scan, l: Leaf): Scan {
    match cb
    case StoreAccessedRanges => Store(s, l)
    case MarkPageAsNotAccessed => s.(mem := ClearAccessed(s.mem, l.slot))
  }

  /** The callback on each page in turn. */
  function CallAll(cb: Callback, s: Scan, leaves: seq<Leaf>): Scan {
    if leaves == [] then s
    else Call(cb, CallAll(cb, s, leaves[..|leaves| - 1]), leaves[|leaves| - 1])
  }

  lemma CallOneMore(cb: Callback, s: Scan, leaves: seq<Leaf>, l: Leaf)
    ensures CallAll(cb, s, leaves + [l]) == Call(cb, CallAll(cb, s, leaves), l)
  {
    assert (leaves + [l])[..|leaves|] == leaves;
  }

  // ----- The callbacks leave the layout alone -----

  /** Two memories that differ in accessed bits only. */
  predicate SameLayout(m: seq<Entry>, n: seq<Entry>) {
    |m| == |n| && forall i | 0 <= i < |m| :: m[i].(a := false) == n[i].(a := false)
  }

  lemma SameSlot(m: seq<Entry>, n: seq<Entry>, slot: nat)
    requires SameLayout(m, n)
    ensures ReadSlot(m, slot).(a := false) == ReadSlot(n, slot).(a := false)
  {
    if slot < |m| { assert m[slot].(a := false) == n[slot].(a := false); }
  }

  lemma SameWalk(m: seq<Entry>, n: seq<Entry>, root: nat, q: nat)
    requires SameLayout(m, n)
    ensures Walk(Tables(m, root), q) == Walk(Tables(n, root), q)
  {
    hide Up, In, SameLayout;
    var t, u := Tables(m, root), Tables(n, root);
    SameSlot(m, n, Pml4Slot(t, Up(Up(Up(q)))));
    if Pml4e(t, Up(Up(Up(q)))).p {
      SameSlot(m, n, PdpteSlot(t, Up(Up(q))));
      if Pdpte(t, Up(Up(q))).p {
        SameSlot(m, n, PdeSlot(t, Up(q)));
        if Pde(t, Up(q)).p { SameSlot(m, n, PteSlot(t, q)); }
      }
    }
  }

  lemma SameLeaves(m: seq<Entry>, n: seq<Entry>, root: nat, k: nat)
    requires SameLayout(m, n)
    ensures Leaves(Tables(m, root), k) == Leaves(Tables(n, root), k)
  {
    hide Up, In, SameLayout, Walk;
    if k > 0 {
      SameLeaves(m, n, root, k - 1);
      SameWalk(m, n, root, k - 1);
    }
  }

  lemma CallKeepsLayout(cb: Callback, s: Scan, l: Leaf)
    ensures SameLayout(Call(cb, s, l).mem, s.mem)
  {
  }

  lemma CallAllKeepsLayout(cb: Callback, s: Scan, leaves: seq<Leaf>)
    ensures SameLayout(CallAll(cb, s, leaves).mem, s.mem)
  {
    if leaves != [] {
      CallAllKeepsLayout(cb, s, leaves[..|leaves| - 1]);
      CallKeepsLayout(cb, CallAll(cb, s, leaves[..|leaves| - 1]), leaves[|leaves| - 1]);
    }
  }

  // ----- Absent and large regions hold no further page starts -----

  /** c is the start of any page it lies in. */
  predicate Boundary(t: Tables, c: nat) {
    && (HasPdpte(t, Up(Up(c))) && Pdpte(t, Up(Up(c))).ps ==> In(c) == 0 && In(Up(c)) == 0)
    && (HasPdpte(t, Up(Up(c))) && !Pdpte(t, Up(Up(c))).ps && HasPde(t, Up(c)) && Pde(t, Up(c)).ps
        ==> In(c) == 0)
  }

  /** The next multiple of 512, 512^2 or 512^3 pages is a boundary. */
  lemma NextRegion(t: Tables, m: nat)
    ensures In(512 * m) == 0 && Up(512 * m) == m
    ensures In(m) == 0 ==> Boundary(t, 512 * m)
    ensures HasPdpte(t, Up(m)) && !Pdpte(t, Up(m)).ps ==> Boundary(t, 512 * m)
  {
    hide Up, In;
    UpIs(512 * m, m, 0);
  }

  lemma NotMapped(t: Tables, q: nat)
    requires !HasPdpte(t, Up(Up(q))) || (!Pdpte(t, Up(Up(q))).ps && !HasPde(t, Up(q)))
    ensures LeafAt(t, q).None?
  {
    hide Up, In;
  }

  lemma SkipPml4(t: Tables, c: nat)
    requires !Pml4e(t, Up(Up(Up(c)))).p
    ensures var n := 0x800_0000 * (Up(Up(Up(c))) + 1);
            c < n && Leaves(t, n) == Leaves(t, c) && Boundary(t, n)
  {
    hide Up, In, LeafAt, Walk, Leaves;
    var i := Up(Up(Up(c)));
    forall q: nat | c <= q < 0x800_0000 * (i + 1) ensures LeafAt(t, q).None? {
      assert Up(Up(Up(q))) == i;
      NotMapped(t, q);
    }
    LeavesSkip(t, c, 0x800_0000 * (i + 1));
    UpIs(0x4_0000 * (i + 1), 512 * (i + 1), 0);
    NextRegion(t, 0x4_0000 * (i + 1));
  }

  lemma SkipPdpte(t: Tables, c: nat)
    requires Pml4e(t, Up(Up(Up(c)))).p && !Pdpte(t, Up(Up(c))).p
    ensures var n := 0x4_0000 * (Up(Up(c)) + 1);
            c < n && Leaves(t, n) == Leaves(t, c) && Boundary(t, n)
  {
    hide Up, In, LeafAt, Walk, Leaves;
    var g := Up(Up(c));
    forall q: nat | c <= q < 0x4_0000 * (g + 1) ensures LeafAt(t, q).None? {
      assert Up(Up(q)) == g;
      NotMapped(t, q);
    }
    LeavesSkip(t, c, 0x4_0000 * (g + 1));
    UpIs(512 * (g + 1), g + 1, 0);
    NextRegion(t, 512 * (g + 1));
  }

  lemma VisitHuge(t: Tables, c: nat)
    requires HasPdpte(t, Up(Up(c))) && Pdpte(t, Up(Up(c))).ps && Boundary(t, c)
    ensures Leaves(t, c + 0x4_0000)
            == Leaves(t, c) + [Leaf(4096 * c, 4096 * c + 0x4000_0000 - 1, PdpteSlot(t, Up(Up(c))))]
    ensures Boundary(t, c + 0x4_0000) && c == 0x4_0000 * Up(Up(c))
  {
    hide Up, In;
    var g := Up(Up(c));
    assert c == 0x4_0000 * g;
    forall q: nat | c < q < c + 0x4_0000 ensures LeafAt(t, q).None? {
      assert Up(Up(q)) == g;
      assert q == 0x4_0000 * g + 512 * In(Up(q)) + In(q);
    }
    LeavesStep(t, c, c + 0x4_0000, Leaf(4096 * c, 4096 * c + 0x4000_0000 - 1, PdpteSlot(t, g)));
    UpIs(512 * (g + 1), g + 1, 0);
    NextRegion(t, 512 * (g + 1));
  }

  lemma SkipPde(t: Tables, c: nat)
    requires HasPdpte(t, Up(Up(c))) && !Pdpte(t, Up(Up(c))).ps && !Pde(t, Up(c)).p
    ensures var n := 512 * (Up(c) + 1);
            c < n && Leaves(t, n) == Leaves(t, c) && Boundary(t, n)
  {
    hide Up, In, LeafAt, Walk, Leaves;
    var d := Up(c);
    forall q: nat | c <= q < 512 * (d + 1) ensures LeafAt(t, q).None? {
      assert Up(q) == d;
      NotMapped(t, q);
    }
    LeavesSkip(t, c, 512 * (d + 1));
    InRegionOrNext(d);
    NextRegion(t, d + 1);
  }

  lemma InRegionOrNext(d: nat)
    ensures In(d + 1) == 0 || Up(d + 1) == Up(d)
  {
    hide Up, In;
    if In(d) < 511 { UpIs(d + 1, Up(d), In(d) + 1); } else { UpIs(d + 1, Up(d) + 1, 0); }
  }

  lemma VisitLarge(t: Tables, c: nat)
    requires HasPde(t, Up(c)) && !Pdpte(t, Up(Up(c))).ps && Pde(t, Up(c)).ps && Boundary(t, c)
    ensures Leaves(t, c + 512)
            == Leaves(t, c) + [Leaf(4096 * c, 4096 * c + 0x20_0000 - 1, PdeSlot(t, Up(c)))]
    ensures Boundary(t, c + 512) && c == 512 * Up(c)
  {
    hide Up, In;
    var d := Up(c);
    assert c == 512 * d;
    forall q: nat | c < q < c + 512 ensures LeafAt(t, q).None? {
      assert Up(q) == d;
    }
    LeavesStep(t, c, c + 512, Leaf(4096 * c, 4096 * c + 0x20_0000 - 1, PdeSlot(t, d)));
    InRegionOrNext(d);
    NextRegion(t, d + 1);
  }

  lemma NextPage(t: Tables, c: nat)
    requires HasPde(t, Up(c)) && !Pdpte(t, Up(Up(c))).ps && !Pde(t, Up(c)).ps
    ensures Boundary(t, c + 1)
  {
    hide Up, In;
    InRegionOrNext(c);
    if Up(c + 1) != Up(c) { NextTable(t, c); }
  }

  lemma NextTable(t: Tables, c: nat)
    requires In(c + 1) == 0 && HasPdpte(t, Up(Up(c))) && !Pdpte(t, Up(Up(c))).ps
    ensures Boundary(t, c + 1)
  {
    hide Up, In, Boundary;
    assert c + 1 == 512 * (Up(c) + 1) by { assert 512 * Up(c) <= c < 512 * Up(c + 1); }
    InRegionOrNext(Up(c));
    NextRegion(t, Up(c) + 1);
  }

  /** Every entry the walk of page c looks at is the same in both memories, accessed bits aside. */
  lemma SameEntries(m: seq<Entry>, n: seq<Entry>, root: nat, c: nat)
    requires SameLayout(m, n)
    ensures var t, u := Tables(m, root), Tables(n, root);
            && Pml4e(t, Up(Up(Up(c)))).p == Pml4e(u, Up(Up(Up(c)))).p
            && (Pml4e(t, Up(Up(Up(c)))).p ==>
                PdpteSlot(t, Up(Up(c))) == PdpteSlot(u, Up(Up(c)))
                && Pdpte(t, Up(Up(c))).(a := false) == Pdpte(u, Up(Up(c))).(a := false))
            && (HasPdpte(t, Up(Up(c))) ==>
                PdeSlot(t, Up(c)) == PdeSlot(u, Up(c)) && Pde(t, Up(c)).(a := false) == Pde(u, Up(c)).(a := false))
            && (HasPde(t, Up(c)) ==>
                PteSlot(t, c) == PteSlot(u, c) && Pte(t, c).(a := false) == Pte(u, c).(a := false))
  {
    hide Up, In, SameLayout;
    var t, u := Tables(m, root), Tables(n, root);
    SameSlot(m, n, Pml4Slot(t, Up(Up(Up(c)))));
    if Pml4e(t, Up(Up(Up(c)))).p {
      SameSlot(m, n, PdpteSlot(t, Up(Up(c))));
      if Pdpte(t, Up(Up(c))).p {
        SameSlot(m, n, PdeSlot(t, Up(c)));
        if Pde(t, Up(c)).p { SameSlot(m, n, PteSlot(t, c)); }
      }
    }
  }

  // ----- Masking an address down to its region and stepping to the next one -----

  function NextPml4Address(a: nat): nat { a - a % 0x80_0000_0000 + 0x80_0000_0000 }

  function NextPdpteAddress(a: nat): nat { a - a % 0x4000_0000 + 0x4000_0000 }

  function NextPdeAddress(a: nat): nat { a - a % 0x20_0000 + 0x20_0000 }

  function NextPteAddress(a: nat): nat { a - a % 0x1000 + 0x1000 }

  lemma RoundPml4(c: nat)
    ensures NextPml4Address(4096 * c) == 4096 * (0x800_0000 * (Up(Up(Up(c))) + 1))
  {
    hide Up, In;
    var k := Up(Up(Up(c)));
    var r := c - 0x800_0000 * k;
    assert (0x80_0000_0000 * k + 4096 * r) % 0x80_0000_0000 == 4096 * r;
  }

  lemma RoundPdpte(c: nat)
    ensures NextPdpteAddress(4096 * c) == 4096 * (0x4_0000 * (Up(Up(c)) + 1))
  {
    hide Up, In;
    var k := Up(Up(c));
    var r := c - 0x4_0000 * k;
    assert (0x4000_0000 * k + 4096 * r) % 0x4000_0000 == 4096 * r;
  }

  lemma RoundPde(c: nat)
    ensures NextPdeAddress(4096 * c) == 4096 * (512 * (Up(c) + 1))
  {
    hide Up, In;
    var k := Up(c);
    var r := c - 512 * k;
    assert (0x20_0000 * k + 4096 * r) % 0x20_0000 == 4096 * r;
  }

  lemma RoundPte(c: nat)
    ensures NextPteAddress(4096 * c) == 4096 * (c + 1)
  {
  }

  const PAGES64 := 0x10_0000_0000_0000   // pages of a 64-bit address space

  /** The regions around a page of the 64-bit address space end inside it. */
  lemma WithinSpace(c: nat)
    requires c < PAGES64
    ensures 0x800_0000 * (Up(Up(Up(c))) + 1) <= PAGES64 && 0x800_0000 * (Up(Up(Up(c))) + 1) <= c + 0x800_0000
    ensures 0x4_0000 * (Up(Up(c)) + 1) <= PAGES64 && 0x4_0000 * (Up(Up(c)) + 1) <= c + 0x800_0000
    ensures 512 * (Up(c) + 1) <= PAGES64 && 512 * (Up(c) + 1) <= c + 0x800_0000
  {
    hide Up, In;
  }

  // ----- Pages below a limit that is no region boundary -----

  lemma LeavesGrow(t: Tables, c: nat, n: nat)
    requires c <= n
    ensures Leaves(t, c) <= Leaves(t, n)
  {
    hide Up, In, Walk, LeafAt;
    if c < n { LeavesGrow(t, c, n - 1); }
  }

  /** One round of the walk calls back for page c at most, so no page starts between the next and n. */
  predicate OneRound(t: Tables, c: nat, n: nat) {
    Leaves(t, n) == Leaves(t, c)
    || (|Leaves(t, n)| > 0 && Leaves(t, n) == Leaves(t, c) + [Leaves(t, n)[|Leaves(t, n)| - 1]]
        && Leaves(t, n)[|Leaves(t, n)| - 1].start == 4096 * c)
  }

  lemma LeavesBetween(t: Tables, c: nat, n: nat, k: nat)
    requires c < k <= n && OneRound(t, c, n)
    ensures Leaves(t, k) == Leaves(t, n)
  {
    hide Up, In, Walk, LeafAt, Leaves;
    LeavesGrow(t, c, k);
    LeavesGrow(t, k, n);
    if Leaves(t, n) != Leaves(t, c) {
      var i := |Leaves(t, n)| - 1;
      var e := LeafOrigin(t, n, i);
      LeafBounds(t, e);
      var j := LeafIndex(t, k, c);
      LeafBounds(t, c);
      LeavesAscending(t, n);
    }
  }

  /** Page number of the first page at or above a limit. */
  function LimitPage(maxAddress: nat): (n: nat)
    ensures 4096 * n >= maxAddress && (n > 0 ==> 4096 * (n - 1) < maxAddress)
  {
    (maxAddress + 4095) / 4096
  }

  // ----- The pages of the walk, as the page walk of each address sees them -----

  function SlotOf(w: Walked): Option<nat> {
    if w.Unmapped? then None else Some(w.slot)
  }

  /** Page q is mapped by an entry whose accessed bit is set. */
  predicate Accessed(t: Tables, q: nat) {
    var w := Walk(t, q);
    !w.Unmapped? && ReadSlot(t.mem, w.slot).a
  }

  /** The first page of the page that maps q. */
  function Head(t: Tables, q: nat): nat {
    match Walk(t, q)
    case Unmapped => q
    case Huge(_) => 0x4_0000 * Up(Up(q))
    case Large(_) => 512 * Up(q)
    case Small(_) => q
  }

  lemma HeadIs(t: Tables, q: nat) returns (l: Leaf)
    requires !Walk(t, q).Unmapped?
    ensures Head(t, q) <= q && LeafAt(t, Head(t, q)) == Some(l)
    ensures l.slot == Walk(t, q).slot && l.start <= 4096 * q && 4096 * q + 4095 <= l.end
  {
    hide Up, In;
    var c := Head(t, q);
    if Walk(t, q).Huge? {
      UpIs(512 * Up(Up(q)), Up(Up(q)), 0);
      UpIs(c, 512 * Up(Up(q)), 0);
    } else if Walk(t, q).Large? {
      UpIs(c, Up(q), 0);
    }
    l := LeafAt(t, c).value;
  }

  /** Every page the leaf starting at c covers is mapped by its entry. */
  lemma Covered(t: Tables, c: nat, l: Leaf, q: nat)
    requires LeafAt(t, c) == Some(l) && l.start <= 4096 * q + 4095 && 4096 * q <= l.end
    ensures c <= q && Walk(t, q) == Walk(t, c) && l.slot == Walk(t, c).slot
    ensures LeafAt(t, q).Some? ==> q == c
  {
    hide Up, In;
    if Walk(t, c).Huge? {
      assert c == 0x4_0000 * Up(Up(c)) && q < c + 0x4_0000;
      assert Up(Up(q)) == Up(Up(c));
    } else if Walk(t, c).Large? {
      assert c == 512 * Up(c) && q < c + 512;
      assert Up(q) == Up(c);
    }
  }

  lemma LeafOrigin(t: Tables, n: nat, i: nat) returns (c: nat)
    requires i < |Leaves(t, n)|
    ensures c < n && LeafAt(t, c) == Some(Leaves(t, n)[i])
  {
    hide Up, In, Walk, LeafAt;
    if i < |Leaves(t, n - 1)| { c := LeafOrigin(t, n - 1, i); } else { c := n - 1; }
  }

  lemma LeafIndex(t: Tables, n: nat, c: nat) returns (i: nat)
    requires c < n && LeafAt(t, c).Some?
    ensures i < |Leaves(t, n)| && Leaves(t, n)[i] == LeafAt(t, c).value
  {
    hide Up, In, Walk, LeafAt;
    if c == n - 1 { i := |Leaves(t, n)| - 1; } else { i := LeafIndex(t, n - 1, c); }
  }

  predicate Ascending(leaves: seq<Leaf>) {
    && (forall i | 0 <= i < |leaves| :: leaves[i].start <= leaves[i].end)
    && forall i, j | 0 <= i < j < |leaves| :: leaves[i].end < leaves[j].start
  }

  /** The callback sees disjoint pages in ascending order. */
  lemma LeavesAscending(t: Tables, n: nat)
    ensures Ascending(Leaves(t, n))
  {
    hide Up, In, Walk, LeafAt;
    if n > 0 {
      LeavesAscending(t, n - 1);
      if LeafAt(t, n - 1).Some? {
        LeafBounds(t, n - 1);
        var before := Leaves(t, n - 1);
        forall i | 0 <= i < |before| ensures before[i].end < LeafAt(t, n - 1).value.start
        {
          var c := LeafOrigin(t, n - 1, i);
          Apart(t, c, n - 1);
        }
      }
    }
  }

  lemma LeafBounds(t: Tables, c: nat)
    requires LeafAt(t, c).Some?
    ensures LeafAt(t, c).value.start == 4096 * c && 4096 * c + 4095 <= LeafAt(t, c).value.end
  {
    hide Up, In;
  }

  lemma Apart(t: Tables, c: nat, e: nat)
    requires c < e && LeafAt(t, c).Some? && LeafAt(t, e).Some?
    ensures LeafAt(t, c).value.end < LeafAt(t, e).value.start
  {
    hide Up, In, Walk, LeafAt;
    LeafBounds(t, c);
    LeafBounds(t, e);
    if LeafAt(t, c).value.end >= 4096 * e { Covered(t, c, LeafAt(t, c).value, e); }
  }

  /** The callback is called for a page exactly when the page walk of its addresses ends there. */
  lemma LeavesComplete(t: Tables, m: nat, q: nat, slot: nat)
    requires q < 0x4_0000 * m
    ensures SlotOf(Walk(t, q)) == Some(slot)
            <==> exists i :: 0 <= i < |Leaves(t, 0x4_0000 * m)| && Leaves(t, 0x4_0000 * m)[i].slot == slot
                             && Leaves(t, 0x4_0000 * m)[i].start <= 4096 * q <= Leaves(t, 0x4_0000 * m)[i].end
  {
    hide Up, In, Walk, LeafAt, Leaves;
    var n := 0x4_0000 * m;
    if SlotOf(Walk(t, q)) == Some(slot) {
      var l := HeadIs(t, q);
      var i := LeafIndex(t, n, Head(t, q));
    }
    if i: nat :| i < |Leaves(t, n)| && Leaves(t, n)[i].slot == slot
                 && Leaves(t, n)[i].start <= 4096 * q <= Leaves(t, n)[i].end {
      var c := LeafOrigin(t, n, i);
      LeafBounds(t, c);
      Covered(t, c, Leaves(t, n)[i], q);
      assert LeafAt(t, c).Some?;
      MappedAt(t, c);
    }
  }

  lemma MappedAt(t: Tables, c: nat)
    requires LeafAt(t, c).Some?
    ensures !Walk(t, c).Unmapped?
  {
  }

  // ----- The accessed list -----

  predicate InList(list: seq<PRange>, a: nat) {
    exists i | 0 <= i < |list| :: list[i].start <= a <= list[i].end
  }

  /** Newest first: descending, disjoint, and with a gap between neighbours, so every range is maximal. */
  predicate Maximal(list: seq<PRange>) {
    && (forall i | 0 <= i < |list| :: list[i].start <= list[i].end)
    && forall i, j | 0 <= i < j < |list| :: list[j].end + 1 < list[i].start
  }

  predicate OnAccessed(mem: seq<Entry>, leaves: seq<Leaf>, a: nat) {
    exists k | 0 <= k < |leaves| :: ReadSlot(mem, leaves[k].slot).a && leaves[k].start <= a <= leaves[k].end
  }

  function StoreAll(mem: seq<Entry>, leaves: seq<Leaf>): Scan {
    CallAll(StoreAccessedRanges, Scan(mem, [], 0), leaves)
  }

  ghost predicate Collected(s: Scan, mem: seq<Entry>, leaves: seq<Leaf>) {
    && s.mem == mem && s.size == |s.list| && Maximal(s.list)
    && (forall a: nat :: InList(s.list, a) <==> OnAccessed(mem, leaves, a))
    && (leaves == [] ==> s.list == [])
    && (s.list != [] && leaves != [] ==> s.list[0].end <= leaves[|leaves| - 1].end)
  }

  lemma InCons(r: PRange, list: seq<PRange>, a: nat)
    ensures InList([r] + list, a) <==> (r.start <= a <= r.end || InList(list, a))
  {
    var all := [r] + list;
    assert all[0] == r && forall i | 0 <= i < |list| :: all[i + 1] == list[i];
    if i :| 0 <= i < |list| && list[i].start <= a <= list[i].end { assert all[i + 1] == list[i]; }
  }

  lemma OnSnoc(mem: seq<Entry>, leaves: seq<Leaf>, l: Leaf, a: nat)
    ensures OnAccessed(mem, leaves + [l], a)
            <==> (OnAccessed(mem, leaves, a) || (ReadSlot(mem, l.slot).a && l.start <= a <= l.end))
  {
    var all := leaves + [l];
    assert all[|leaves|] == l && forall i | 0 <= i < |leaves| :: all[i] == leaves[i];
  }

  lemma StoreCovers(s: Scan, mem: seq<Entry>, leaves: seq<Leaf>, l: Leaf, a: nat)
    requires s.mem == mem && (InList(s.list, a) <==> OnAccessed(mem, leaves, a)) && l.start <= l.end < WRAP
    requires s.list != [] ==> s.list[0].start <= s.list[0].end < l.start
    ensures InList(Store(s, l).list, a) <==> OnAccessed(mem, leaves + [l], a)
  {
    hide InList, OnAccessed;
    OnSnoc(mem, leaves, l, a);
    InCons(PRange(l.start, l.end), s.list, a);
    if s.list != [] {
      assert s.list == [s.list[0]] + s.list[1..];
      InCons(s.list[0], s.list[1..], a);
      InCons(s.list[0].(end := l.end), s.list[1..], a);
    }
  }

  lemma StoreMaximal(s: Scan, l: Leaf)
    requires Maximal(s.list) && l.start <= l.end < WRAP
    requires s.list != [] ==> s.list[0].end < l.start
    ensures Maximal(Store(s, l).list)
  {
    hide Maximal;
    assert l.start > 0 ==> (l.start - 1) % WRAP == l.start - 1;
    if ReadSlot(s.mem, l.slot).a {
      if s.list != [] && s.list[0].end + 1 == l.start {
        GrowMaximal(s.list, l.end);
      } else {
        PushMaximal(s.list, PRange(l.start, l.end));
      }
    }
  }

  lemma PushMaximal(list: seq<PRange>, r: PRange)
    requires Maximal(list) && r.start <= r.end && (list != [] ==> list[0].end + 1 < r.start)
    ensures Maximal([r] + list)
  {
    var all := [r] + list;
    forall i, j | 0 <= i < j < |all| ensures all[j].end + 1 < all[i].start {
      if i == 0 { assert all[j] == list[j - 1]; } else { assert all[i] == list[i - 1] && all[j] == list[j - 1]; }
    }
  }

  lemma GrowMaximal(list: seq<PRange>, end: nat)
    requires Maximal(list) && list != [] && list[0].end <= end
    ensures Maximal([list[0].(end := end)] + list[1..])
  {
    var all := [list[0].(end := end)] + list[1..];
    forall j | 0 < j < |all| ensures all[j] == list[j] {}
  }

  lemma StoreCollects(s: Scan, mem: seq<Entry>, leaves: seq<Leaf>, l: Leaf)
    requires Collected(s, mem, leaves) && Ascending(leaves + [l]) && l.end < WRAP
    ensures Collected(Store(s, l), mem, leaves + [l])
  {
    hide InList, OnAccessed, Maximal;
    var all := leaves + [l];
    assert all[|leaves|] == l;
    if leaves != [] { assert all[|leaves| - 1].end < all[|leaves|].start; }
    MaximalHead(s.list);
    StoreMaximal(s, l);
    forall a: nat ensures InList(Store(s, l).list, a) <==> OnAccessed(mem, all, a) {
      StoreCovers(s, mem, leaves, l, a);
    }
  }

  lemma MaximalHead(list: seq<PRange>)
    requires Maximal(list)
    ensures list != [] ==> list[0].start <= list[0].end
  {
  }

  lemma StoreAllCollects(mem: seq<Entry>, leaves: seq<Leaf>)
    requires Ascending(leaves) && forall i | 0 <= i < |leaves| :: leaves[i].end < WRAP
    ensures Collected(StoreAll(mem, leaves), mem, leaves)
  {
    hide Collected;
    if leaves == [] {
      NothingCollected(mem);
    } else {
      var before, l := leaves[..|leaves| - 1], leaves[|leaves| - 1];
      assert leaves == before + [l];
      StoreAllCollects(mem, before);
      StoreCollects(StoreAll(mem, before), mem, before, l);
    }
  }

  lemma NothingCollected(mem: seq<Entry>)
    ensures Collected(Scan(mem, [], 0), mem, [])
  {
  }

  // ----- Clearing the accessed bits -----

  function MarkAll(mem: seq<Entry>, leaves: seq<Leaf>): seq<Entry> {
    CallAll(MarkPageAsNotAccessed, Scan(mem, [], 0), leaves).mem
  }

  predicate IsLeafSlot(leaves: seq<Leaf>, slot: nat) {
    exists k | 0 <= k < |leaves| :: leaves[k].slot == slot
  }

  /** Marking clears the accessed bit of the leaf entries and changes no other bit of any entry. */
  lemma MarkAllIs(mem: seq<Entry>, leaves: seq<Leaf>, s: Scan)
    requires s.mem == mem
    ensures var m := CallAll(MarkPageAsNotAccessed, s, leaves);
            && |m.mem| == |mem| && m.list == s.list && m.size == s.size
            && forall i | 0 <= i < |mem| ::
                 m.mem[i] == if IsLeafSlot(leaves, i) then mem[i].(a := false) else mem[i]
  {
    hide IsLeafSlot;
    if leaves == [] {
      forall i: nat ensures !IsLeafSlot([], i) { NoLeafSlot(i); }
    } else {
      var before, l := leaves[..|leaves| - 1], leaves[|leaves| - 1];
      assert leaves == before + [l];
      MarkAllIs(mem, before, s);
      forall i: nat ensures IsLeafSlot(leaves, i) <==> (IsLeafSlot(before, i) || i == l.slot) {
        LeafSlotSnoc(before, l, i);
      }
    }
  }

  lemma NoLeafSlot(i: nat)
    ensures !IsLeafSlot([], i)
  {
  }

  lemma LeafSlotSnoc(before: seq<Leaf>, l: Leaf, i: nat)
    ensures IsLeafSlot(before + [l], i) <==> (IsLeafSlot(before, i) || i == l.slot)
  {
    var all := before + [l];
    assert all[|before|] == l && forall k | 0 <= k < |before| :: all[k] == before[k];
  }

  // ----- Whole operations on the tables of one address space -----

  const MAX_ADDRESS := 0x800_0000_0000   // of enumAllAccessedPages and markAllPagesAsNeverAccessed
  const MAX_PAGES := 0x8000_0000
  const SIZEOF_PRANGE := 16

  /** C `int` of a 64-bit value. */
  function ToInt32(x: int): int {
    (x + 0x8000_0000) % 0x1_0000_0000 - 0x8000_0000
  }

  /** `int maxcount = ListSizeInBytes / sizeof(PRANGE)`: the size is made unsigned before the division. */
  function MaxCount(listSizeInBytes: int): int {
    ToInt32(listSizeInBytes % WRAP / SIZEOF_PRANGE)
  }

  /** How many of n ranges are copied into a buffer of that size. */
  function Copied(n: nat, listSizeInBytes: int): nat {
    var maxcount := MaxCount(listSizeInBytes);
    if n <= maxcount then n else if maxcount < 0 then 0 else maxcount
  }

  /** A buffer of so many bytes gets as many whole ranges as fit. */
  lemma CopiesWhatFits(n: nat, bytes: nat)
    requires bytes < 0x8000_0000
    ensures Copied(n, bytes) == if n <= bytes / 16 then n else bytes / 16
  {
    assert bytes % WRAP == bytes;
  }

  /** Ranges a list of n is cut to when the byte size the enumeration returned is handed back. */
  lemma MaxCountOf(n: nat)
    ensures MaxCount(ToInt32(SIZEOF_PRANGE * n)) <= n
    ensures MaxCount(ToInt32(SIZEOF_PRANGE * n)) == n <==> n < 0x800_0000
    ensures 0x800_0000 <= n < 0x1000_0000 ==> MaxCount(ToInt32(SIZEOF_PRANGE * n)) < 0
  {
    var k, m := n / 0x1000_0000, n % 0x1000_0000;
    WrappedSize(n, k, m);
    if m < 0x800_0000 {
      SmallCount(m);
    } else {
      NegativeCount(m);
    }
  }

  /** A buffer of that byte size is large enough. */
  lemma SizeSuffices(n: nat)
    ensures var size := ToInt32(SIZEOF_PRANGE * n); MaxCount(size) <= if size > 0 then size / SIZEOF_PRANGE else 0
  {
    var k, m := n / 0x1000_0000, n % 0x1000_0000;
    WrappedSize(n, k, m);
    if m < 0x800_0000 {
      SmallCount(m);
    } else {
      NegativeCount(m);
    }
  }

  lemma WrappedSize(n: nat, k: nat, m: nat)
    requires n == 0x1000_0000 * k + m && m < 0x1000_0000
    ensures ToInt32(SIZEOF_PRANGE * n) == if m < 0x800_0000 then 16 * m else 16 * m - 0x1_0000_0000
  {
    assert SIZEOF_PRANGE * n + 0x8000_0000 == 0x1_0000_0000 * k + (16 * m + 0x8000_0000);
  }

  lemma SmallCount(m: nat)
    requires m < 0x800_0000
    ensures MaxCount(16 * m) == m
  {
    assert 16 * m % WRAP == 16 * m;
    assert 16 * m / 16 == m;
  }

  lemma NegativeCount(m: nat)
    requires 0x800_0000 <= m < 0x1000_0000
    ensures MaxCount(16 * m - 0x1_0000_0000) == m - 0x1000_0000
  {
    var k := m - 0x1000_0000;
    assert (16 * k) % WRAP == WRAP + 16 * k;
    assert (WRAP + 16 * k) / 16 == WRAP / 16 + k;
    assert WRAP / 16 + k + 0x8000_0000 == 0x1_0000_0000 * 0x1000_0000 + (k + 0x8000_0000);
    assert (WRAP / 16 + k + 0x8000_0000) % 0x1_0000_0000 == k + 0x8000_0000;
  }

  /** The list is exactly the maximal runs of accessed pages, newest first. */
  ghost predicate ExactRuns(list: seq<PRange>, t: Tables) {
    && Maximal(list)
    && forall a: nat :: InList(list, a) <==> a / 4096 < MAX_PAGES && Accessed(t, a / 4096)
  }

  function Enumerate(t: Tables): Scan {
    StoreAll(t.mem, Leaves(t, MAX_PAGES))
  }

  function Mark(t: Tables): Tables {
    t.(mem := MarkAll(t.mem, Leaves(t, MAX_PAGES)))
  }

  lemma LeavesBelowMax(t: Tables, i: nat)
    requires i < |Leaves(t, MAX_PAGES)|
    ensures Leaves(t, MAX_PAGES)[i].end < MAX_ADDRESS
  {
    hide Up, In, Walk, LeafAt, Leaves;
    var c := LeafOrigin(t, MAX_PAGES, i);
    EndsBelow(t, c, 0x2000);
  }

  /** No page crosses a multiple of 1 GB. */
  lemma EndsBelow(t: Tables, c: nat, m: nat)
    requires c < 0x4_0000 * m && LeafAt(t, c).Some?
    ensures LeafAt(t, c).value.end < 0x4000_0000 * m
  {
    hide Up, In;
    if Walk(t, c).Huge? { assert c == 0x4_0000 * Up(Up(c)); } else if Walk(t, c).Large? { assert c == 512 * Up(c); }
  }

  lemma LeafAligned(t: Tables, n: nat, i: nat, a: nat)
    requires i < |Leaves(t, n)|
    ensures Leaves(t, n)[i].start <= a <= Leaves(t, n)[i].end
            <==> Leaves(t, n)[i].start <= 4096 * (a / 4096) <= Leaves(t, n)[i].end
  {
    hide Up, In, Walk, Leaves;
    var c := LeafOrigin(t, n, i);
    var k := a / 4096;
    assert Leaves(t, n)[i].start == 4096 * c;
    var size: int := if Walk(t, c).Huge? then 0x4_0000 else if Walk(t, c).Large? then 512 else 1;
    assert Leaves(t, n)[i].end == 4096 * (c + size) - 1;
  }

  lemma OnAccessedIs(t: Tables, a: nat)
    ensures OnAccessed(t.mem, Leaves(t, MAX_PAGES), a) <==> (a / 4096 < MAX_PAGES && Accessed(t, a / 4096))
  {
    hide Up, In, Walk, LeafAt, Leaves;
    var q, leaves := a / 4096, Leaves(t, MAX_PAGES);
    if k: nat :| k < |leaves| && ReadSlot(t.mem, leaves[k].slot).a && leaves[k].start <= a <= leaves[k].end {
      LeavesBelowMax(t, k);
      LeafAligned(t, MAX_PAGES, k, a);
      LeavesComplete(t, 0x2000, q, leaves[k].slot);
    }
    if q < MAX_PAGES && Accessed(t, q) {
      LeavesComplete(t, 0x2000, q, Walk(t, q).slot);
      var k: nat :| k < |leaves| && leaves[k].slot == Walk(t, q).slot && leaves[k].start <= 4096 * q <= leaves[k].end;
      LeafAligned(t, MAX_PAGES, k, a);
    }
  }

  lemma EnumerateExact(t: Tables)
    ensures var s := Enumerate(t);
            s.mem == t.mem && s.size == |s.list| && ExactRuns(s.list, t)
  {
    hide Up, In, Walk, LeafAt, Leaves, InList, OnAccessed, Maximal, Accessed;
    var leaves := Leaves(t, MAX_PAGES);
    LeavesAscending(t, MAX_PAGES);
    forall i | 0 <= i < |leaves| ensures leaves[i].end < WRAP { LeavesBelowMax(t, i); }
    StoreAllCollects(t.mem, leaves);
    forall a: nat ensures OnAccessed(t.mem, leaves, a) <==> (a / 4096 < MAX_PAGES && Accessed(t, a / 4096)) {
      OnAccessedIs(t, a);
    }
  }

  /** The 32-bit counter never overflows: between two ranges lies a page that was not accessed. */
  lemma {:induction false} CounterFits(t: Tables, list: seq<PRange>, i: nat)
    requires ExactRuns(list, t) && i < |list|
    ensures list[i].start / 4096 >= 2 * (|list| - 1 - i) && |list| - i <= 0x4000_0000
    decreases |list| - i
  {
    hide Accessed;
    assert InList(list, list[i].start);
    if i + 1 < |list| {
      CounterFits(t, list, i + 1);
      var e := list[i + 1].end + 1;
      assert InList(list, list[i + 1].end) && InList(list, list[i + 1].start);
      assert !InList(list, e) by {
        forall k | 0 <= k < |list| ensures !(list[k].start <= e <= list[k].end) {
          if k <= i { assert list[k].start >= list[i].start; }
        }
      }
      PagesBetween(list[i + 1].end, list[i].start);
    }
  }

  lemma PagesBetween(a: nat, b: nat)
    requires a + 1 < b
    ensures a / 4096 == (a + 1) / 4096 || b / 4096 == (a + 1) / 4096 || b / 4096 >= a / 4096 + 2
  {
  }

  /** One table that is its own at every level; the even pages were accessed. */
  const EVERY_OTHER := Tables(seq(512, i => Entry(true, true, i % 2 == 0, false, 0, 0)), 0)

  lemma EveryOtherAccessed(q: nat)
    ensures Accessed(EVERY_OTHER, q) <==> q % 2 == 0
  {
    hide Up, In;
    var t := EVERY_OTHER;
    assert forall i: nat | i < 512 :: t.mem[i] == Entry(true, true, i % 2 == 0, false, 0, 0);
    assert Walk(t, q) == Small(In(q));
    assert q == 2 * (256 * Up(q)) + In(q);
  }

  /** A range for each accessed page: page 2 * j is in none of the last j ranges. */
  lemma {:induction false} RangeOf(list: seq<PRange>, j: nat) returns (i: nat)
    requires ExactRuns(list, EVERY_OTHER) && j < 0x4000_0000
    ensures i < |list| && list[i].start <= 8192 * j <= list[i].end && i + j < |list|
  {
    hide Accessed, EVERY_OTHER;
    EveryOtherAccessed(2 * j);
    assert InList(list, 8192 * j) by { assert 8192 * j / 4096 == 2 * j; }
    i :| 0 <= i < |list| && list[i].start <= 8192 * j <= list[i].end;
    if j > 0 {
      var k := RangeOf(list, j - 1);
      var between := 8192 * j - 4096;
      EveryOtherAccessed(2 * j - 1);
      assert !InList(list, between) by { assert between / 4096 == 2 * j - 1; }
      NotInRange(list, between, k);
      NotInRange(list, between, i);
      assert list[k].end < list[i].start;
    }
  }

  lemma NotInRange(list: seq<PRange>, a: nat, i: nat)
    requires !InList(list, a) && i < |list|
    ensures a < list[i].start || list[i].end < a
  {
  }

  /** Tables on which the byte size of the list does not fit in 32 bits: it reads as 0, and nothing is fetched. */
  lemma TooManyRanges(list: seq<PRange>)
    requires ExactRuns(list, EVERY_OTHER)
    ensures |list| == 0x4000_0000 && ToInt32(SIZEOF_PRANGE * |list|) == 0 && Copied(|list|, 0) == 0
  {
    var i := RangeOf(list, 0x3FFF_FFFF);
    CounterFits(EVERY_OTHER, list, 0);
  }

  lemma LeafSlotsAre(t: Tables, slot: nat)
    ensures IsLeafSlot(Leaves(t, MAX_PAGES), slot) <==> exists q: nat | q < MAX_PAGES ::
        SlotOf(Walk(t, q)) == Some(slot)
  {
    hide Up, In, Walk, LeafAt, Leaves;
    var leaves := Leaves(t, MAX_PAGES);
    if k: nat :| k < |leaves| && leaves[k].slot == slot {
      var c := LeafOrigin(t, MAX_PAGES, k);
      LeafBounds(t, c);
      LeavesComplete(t, 0x2000, c, slot);
    }
    if q: nat :| q < MAX_PAGES && SlotOf(Walk(t, q)) == Some(slot) {
      LeavesComplete(t, 0x2000, q, slot);
    }
  }

  /** What hardware does on an access: it sets the accessed bit of some entries. */
  function Touch(t: Tables, slots: set<nat>): Tables {
    t.(mem := seq(|t.mem|, i requires 0 <= i < |t.mem| => if i in slots then t.mem[i].(a := true) else t.mem[i]))
  }

  /** The entries the walk of page q goes through. */
  function WalkSlots(t: Tables, q: nat): set<nat> {
    {Pml4Slot(t, Up(Up(Up(q))))}
    + (if Pml4e(t, Up(Up(Up(q)))).p then {PdpteSlot(t, Up(Up(q)))} else {})
    + (if HasPdpte(t, Up(Up(q))) && !Pdpte(t, Up(Up(q))).ps then {PdeSlot(t, Up(q))} else {})
    + (if HasPde(t, Up(q)) && !Pdpte(t, Up(Up(q))).ps && !Pde(t, Up(q)).ps then {PteSlot(t, q)} else {})
  }

  lemma MarkIs(t: Tables)
    ensures SameLayout(Mark(t).mem, t.mem)
    ensures forall q: nat | q < MAX_PAGES :: !Accessed(Mark(t), q)
    ensures forall i: nat | i < |t.mem| && !(exists q: nat | q < MAX_PAGES :: SlotOf(Walk(t, q)) == Some(i)) ::
              Mark(t).mem[i] == t.mem[i]
  {
    hide Up, In, Walk, Leaves, IsLeafSlot, CallAll;
    var leaves := Leaves(t, MAX_PAGES);
    MarkAllIs(t.mem, leaves, Scan(t.mem, [], 0));
    forall q: nat | q < MAX_PAGES ensures !Accessed(Mark(t), q) {
      SameWalk(Mark(t).mem, t.mem, t.root, q);
      if !Walk(t, q).Unmapped? {
        assert SlotOf(Walk(t, q)) == Some(Walk(t, q).slot);
        LeafSlotsAre(t, Walk(t, q).slot);
      }
    }
    forall i: nat | i < |t.mem| && !(exists q: nat | q < MAX_PAGES :: SlotOf(Walk(t, q)) == Some(i))
      ensures Mark(t).mem[i] == t.mem[i]
    {
      LeafSlotsAre(t, i);
    }
  }

  /** After marking and then touching some entries, exactly the pages whose entry was touched are listed. */
  lemma MarkTouchEnumerate(t: Tables, slots: set<nat>)
    ensures var u := Touch(Mark(t), slots);
            && SameLayout(u.mem, t.mem)
            && Maximal(Enumerate(u).list)
            && forall a: nat :: InList(Enumerate(u).list, a)
                 <==> (a / 4096 < MAX_PAGES && !Walk(t, a / 4096).Unmapped? && Walk(t, a / 4096).slot in slots)
  {
    hide Up, In, Walk, InList, Maximal, Mark, Enumerate, Pml4e, Pdpte, Pde, Pte;
    MarkIs(t);
    var u := Touch(Mark(t), slots);
    EnumerateExact(u);
    forall q: nat | q < MAX_PAGES ensures Accessed(u, q) <==> (!Walk(t, q).Unmapped? && Walk(t, q).slot in slots) {
      TouchedAccessed(t, slots, q);
    }
  }

  lemma TouchedAccessed(t: Tables, slots: set<nat>, q: nat)
    requires q < MAX_PAGES && SameLayout(Mark(t).mem, t.mem) && !Accessed(Mark(t), q)
    ensures Accessed(Touch(Mark(t), slots), q) <==> (!Walk(t, q).Unmapped? && Walk(t, q).slot in slots)
  {
    hide Up, In, MarkAll, Leaves, Touch, Walk, SameLayout;
    var m, u := Mark(t), Touch(Mark(t), slots);
    SameWalk(m.mem, t.mem, t.root, q);
    TouchIs(m, slots);
    SameWalk(u.mem, m.mem, t.root, q);
    if !Walk(m, q).Unmapped? { MappedInMemory(m, q); }
  }

  lemma TouchIs(m: Tables, slots: set<nat>)
    ensures var u := Touch(m, slots);
            && u.root == m.root && SameLayout(u.mem, m.mem)
            && forall i | 0 <= i < |m.mem| :: ReadSlot(u.mem, i).a == (ReadSlot(m.mem, i).a || i in slots)
  {
  }

  lemma MappedInMemory(t: Tables, q: nat)
    requires !Walk(t, q).Unmapped?
    ensures Walk(t, q).slot < |t.mem|
  {
    hide Up, In;
  }

  /** No access goes through an entry that maps a page of the user half without being an access to that page. */
  ghost predicate OwnLeaves(t: Tables, accesses: set<nat>) {
    forall q: nat, v: nat | q < MAX_PAGES && v in accesses && !Walk(t, q).Unmapped?
        && Walk(t, q).slot in WalkSlots(t, v) ::
      Walk(t, v) == Walk(t, q)
  }

  /** Marking, then accessing the given pages, then enumerating: the pages listed are those accessed. */
  lemma MarkAccessEnumerate(t: Tables, accesses: set<nat>, slots: set<nat>)
    requires forall i: nat :: i in slots <==> exists v | v in accesses :: i in WalkSlots(t, v)
    requires OwnLeaves(t, accesses)
    ensures forall a: nat :: InList(Enumerate(Touch(Mark(t), slots)).list, a)
              <==> (a / 4096 < MAX_PAGES && !Walk(t, a / 4096).Unmapped?
                    && exists v | v in accesses :: Walk(t, v) == Walk(t, a / 4096))
  {
    hide Up, In, Walk, WalkSlots, InList, Mark, Enumerate, Touch;
    MarkTouchEnumerate(t, slots);
    forall v: nat | !Walk(t, v).Unmapped? ensures Walk(t, v).slot in WalkSlots(t, v) { LeafInWalk(t, v); }
    forall a: nat | a / 4096 < MAX_PAGES && !Walk(t, a / 4096).Unmapped?
      ensures Walk(t, a / 4096).slot in slots <==> exists v | v in accesses :: Walk(t, v) == Walk(t, a / 4096)
    {
      var q := a / 4096;
      if v :| v in accesses && Walk(t, q).slot in WalkSlots(t, v) { assert Walk(t, v) == Walk(t, q); }
      if v :| v in accesses && Walk(t, v) == Walk(t, q) { assert Walk(t, q).slot in WalkSlots(t, v); }
    }
  }

  lemma LeafInWalk(t: Tables, v: nat)
    requires !Walk(t, v).Unmapped?
    ensures Walk(t, v).slot in WalkSlots(t, v)
  {
    hide Up, In;
  }

  // ----- Which accesses own their leaves -----

  /** A place in the tables: entry number n of level 4 (PML4) down to 1 (page table), counted over all of memory. */
  datatype Place = Place(level: nat, n: nat)

  /** The place is in a table, and the walk to it does not begin at PML4 slot s. */
  predicate InTable(t: Tables, s: nat, p: Place) {
    match p.level
    case 4 => p.n < 512
    case 3 => Up(p.n) < 512 && Up(p.n) != s && Pml4e(t, Up(p.n)).p
    case 2 => Up(Up(p.n)) < 512 && Up(Up(p.n)) != s && HasPdpte(t, Up(p.n)) && !Pdpte(t, Up(p.n)).ps
    case 1 =>
      Up(Up(Up(p.n))) < 512 && Up(Up(Up(p.n))) != s && HasPde(t, Up(p.n)) && !Pdpte(t, Up(Up(p.n))).ps
          && !Pde(t, Up(p.n)).ps
    case _ => false
  }

  function SlotAt(t: Tables, s: nat, p: Place): nat
    requires InTable(t, s, p)
  {
    match p.level
    case 4 => Pml4Slot(t, p.n)
    case 3 => PdpteSlot(t, p.n)
    case 2 => PdeSlot(t, p.n)
    case _ => PteSlot(t, p.n)
  }

  /** Apart from the window at PML4 slot s, the tables are a tree: no entry is in two places. */
  ghost predicate Tree(t: Tables, s: nat) {
    forall a, b | InTable(t, s, a) && InTable(t, s, b) && SlotAt(t, s, a) == SlotAt(t, s, b) :: a == b
  }

  /** Where the walk of page q ends. */
  function EndOfWalk(t: Tables, q: nat): (p: Place)
    requires !Walk(t, q).Unmapped?
  {
    match Walk(t, q)
    case Huge(_) => Place(3, Up(Up(q)))
    case Large(_) => Place(2, Up(q))
    case _ => Place(1, q)
  }

  lemma EndInTable(t: Tables, s: nat, q: nat)
    requires !Walk(t, q).Unmapped? && Up(Up(Up(q))) < 512 && Up(Up(Up(q))) != s
    ensures InTable(t, s, EndOfWalk(t, q)) && SlotAt(t, s, EndOfWalk(t, q)) == Walk(t, q).slot
  {
    hide Up, In;
  }

  /** Every entry on the walk of page v is at a place above it. */
  lemma PlaceOnWalk(t: Tables, s: nat, v: nat, slot: nat) returns (p: Place)
    requires slot in WalkSlots(t, v) && Up(Up(Up(v))) < 512 && Up(Up(Up(v))) != s
    ensures InTable(t, s, p) && SlotAt(t, s, p) == slot
    ensures p == Place(4, Up(Up(Up(v)))) || p == Place(3, Up(Up(v))) || p == Place(2, Up(v)) || p == Place(1, v)
  {
    hide Up, In;
    if slot == Pml4Slot(t, Up(Up(Up(v)))) {
      p := Place(4, Up(Up(Up(v))));
    } else if Pml4e(t, Up(Up(Up(v)))).p && slot == PdpteSlot(t, Up(Up(v))) {
      p := Place(3, Up(Up(v)));
    } else if HasPdpte(t, Up(Up(v))) && !Pdpte(t, Up(Up(v))).ps && slot == PdeSlot(t, Up(v)) {
      p := Place(2, Up(v));
    } else {
      p := Place(1, v);
    }
  }

  /** A walk that passes the end of another's walk ends there itself. */
  lemma SameEnd(t: Tables, q: nat, v: nat)
    requires !Walk(t, q).Unmapped?
    requires var p := EndOfWalk(t, q);
             p == Place(4, Up(Up(Up(v)))) || p == Place(3, Up(Up(v))) || p == Place(2, Up(v)) || p == Place(1, v)
    ensures Walk(t, v) == Walk(t, q)
  {
    hide Up, In;
  }

  /** Tables that are a tree apart from their window, accessed outside it, meet the condition of the result above. */
  lemma TreeOwnsLeaves(t: Tables, s: nat, accesses: set<nat>)
    requires Tree(t, s) && s >= 16
    requires forall v | v in accesses :: v < PAGES && Up(Up(Up(v))) != s
    ensures OwnLeaves(t, accesses)
  {
    hide Up, In, Walk, WalkSlots, InTable, SlotAt, EndOfWalk;
    forall q: nat, v: nat | q < MAX_PAGES && v in accesses && !Walk(t, q).Unmapped?
        && Walk(t, q).slot in WalkSlots(t, v)
      ensures Walk(t, v) == Walk(t, q)
    {
      assert Up(Up(Up(q))) < 16 && Up(Up(Up(v))) < 512;
      EndInTable(t, s, q);
      var p := PlaceOnWalk(t, s, v, Walk(t, q).slot);
      assert p == EndOfWalk(t, q);
      SameEnd(t, q, v);
    }
  }

  // ----- The walk reads the tables through their own window -----

  /** The pages of the window that one round of the walk reads, at the page of `address`. */
  function WindowReads(t: Tables, s: nat, address: nat): set<nat>
    requires s < 512
  {
    var q, p := PageIndex(address), SelfMap.VirtualAddressToPageEntries64(address, SelfMap.WindowBase(s));
    {PageIndex(p.pml4e)}
    + (if Pml4e(t, Up(Up(Up(q)))).p then {PageIndex(p.pdpte)} else {})
    + (if HasPdpte(t, Up(Up(q))) && !Pdpte(t, Up(Up(q))).ps then {PageIndex(p.pde)} else {})
    + (if HasPde(t, Up(q)) && !Pdpte(t, Up(Up(q))).ps && !Pde(t, Up(q)).ps then {PageIndex(p.pte)} else {})
  }

  /** The walk of the window page that shows the page table of region d. */
  lemma WindowSlots(t: Tables, s: nat, d: nat)
    requires SelfMap.SelfMapped(t, s) && SelfMap.NoHugePml4(t) && d < 0x800_0000
    requires HasPdpte(t, d / 512) && !Pdpte(t, d / 512).ps
    ensures WalkSlots(t, 0x800_0000 * s + d)
            == {Pml4Slot(t, s), Pml4Slot(t, d / 512 / 512), PdpteSlot(t, d / 512), PdeSlot(t, d)}
  {
    var w, g := 0x800_0000 * s + d, d / 512;
    var i := g / 512;
    WindowUps(s, d);
    SelfMap.WindowPte(t, s, d);
    SelfMap.WindowPde(t, s, g);
    SelfMap.WindowPdpte(t, s, i);
    assert Pml4e(t, s).p;
    NotHuge(t, i);
    hide Up, In, SelfMap.NoHugePml4, SelfMap.SelfMapped;
    assert Pdpte(t, 512 * s + i) == Pml4e(t, i);
    assert Pde(t, 0x4_0000 * s + g) == Pdpte(t, g);
    hide Pml4e, Pdpte, Pde, Pml4Slot, PdpteSlot, PdeSlot, PteSlot;
  }

  /** Where in the window that page is. */
  lemma WindowUps(s: nat, d: nat)
    requires d < 0x800_0000
    ensures var w := 0x800_0000 * s + d;
            && Up(w) == 0x4_0000 * s + d / 512 && Up(Up(w)) == 512 * s + d / 512 / 512 && Up(Up(Up(w))) == s
            && Up(0x4_0000 * s + d / 512) == 512 * s + d / 512 / 512 && Up(512 * s + d / 512 / 512) == s
            && Up(d) == d / 512 && Up(d / 512) == d / 512 / 512
  {
    hide Up, In;
    var g := d / 512;
    var i := g / 512;
    UpIs(d, g, d % 512);
    UpIs(g, i, g % 512);
    UpIs(0x800_0000 * s + d, 0x4_0000 * s + g, d % 512);
    UpIs(0x4_0000 * s + g, 512 * s + i, g % 512);
    UpIs(512 * s + i, s, i);
  }

  /** The entries those reads go through: PML4 entries, and PDPTEs and PDEs that map no page. */
  predicate OnTheWay(t: Tables, s: nat, q: nat, slot: nat) {
    || slot == Pml4Slot(t, s) || slot == Pml4Slot(t, Up(Up(Up(q))))
    || (HasPdpte(t, Up(Up(q))) && !Pdpte(t, Up(Up(q))).ps && slot == PdpteSlot(t, Up(Up(q))))
    || (HasPdpte(t, Up(Up(q))) && !Pdpte(t, Up(Up(q))).ps && HasPde(t, Up(q)) && !Pde(t, Up(q)).ps
        && slot == PdeSlot(t, Up(q)))
  }

  lemma ReadsOnTheWay(t: Tables, s: nat, address: nat, w: nat, slot: nat)
    requires SelfMap.SelfMapped(t, s) && SelfMap.NoHugePml4(t)
    requires w in WindowReads(t, s, address) && slot in WalkSlots(t, w)
    ensures OnTheWay(t, s, PageIndex(address), slot)
  {
    hide SelfMap.SelfMapped, SelfMap.NoHugePml4, WalkSlots, WindowReads, Up, In;
    var q := PageIndex(address);
    assert s < 512 by { Slotted(t, s); }
    var level := WindowPage(t, s, address, w);
    match level
    case 1 => PteReads(t, s, q, slot);
    case 2 => PdeReads(t, s, q, slot);
    case 3 => PdpteReads(t, s, q, slot);
    case _ => Pml4Reads(t, s, slot);
  }

  lemma Slotted(t: Tables, s: nat)
    requires SelfMap.SelfMapped(t, s)
    ensures s < 512
  {
  }

  /** Which page of the window each read goes to. */
  lemma WindowPage(t: Tables, s: nat, address: nat, w: nat) returns (level: nat)
    requires s < 512 && w in WindowReads(t, s, address)
    ensures var q := PageIndex(address);
            match level
            case 1 =>
              HasPde(t, Up(q)) && !Pdpte(t, Up(Up(q))).ps && !Pde(t, Up(q)).ps && w == 0x800_0000 * s + Up(q)
            case 2 =>
              && HasPdpte(t, Up(Up(q))) && !Pdpte(t, Up(Up(q))).ps
              && w == 0x800_0000 * s + (0x4_0000 * s + Up(Up(q)))
            case 3 =>
              Pml4e(t, Up(Up(Up(q)))).p && w == 0x800_0000 * s + (0x4_0000 * s + (512 * s + Up(Up(Up(q)))))
            case _ => w == 0x800_0000 * s + (0x4_0000 * s + (512 * s + s))
  {
    var q, p := PageIndex(address), SelfMap.VirtualAddressToPageEntries64(address, SelfMap.WindowBase(s));
    SelfMap.PointerPages(address, s);
    UpThree(q);
    hide Up, In, PageIndex, SelfMap.VirtualAddressToPageEntries64, SelfMap.WindowBase, Pde, Pdpte, Pml4e;
    if w == PageIndex(p.pml4e) {
      level := 4;
    } else if Pml4e(t, Up(Up(Up(q)))).p && w == PageIndex(p.pdpte) {
      level := 3;
    } else if HasPdpte(t, Up(Up(q))) && !Pdpte(t, Up(Up(q))).ps && w == PageIndex(p.pde) {
      level := 2;
    } else {
      level := 1;
    }
  }

  lemma Pml4Reads(t: Tables, s: nat, slot: nat)
    requires SelfMap.SelfMapped(t, s) && SelfMap.NoHugePml4(t)
    requires slot in WalkSlots(t, 0x800_0000 * s + (0x4_0000 * s + (512 * s + s)))
    ensures slot == Pml4Slot(t, s)
  {
    hide Up, In, WalkSlots, SelfMap.NoHugePml4;
    UpIs(0x800_0000 * s, 0x4_0000 * s, 0);
    UpIs(0x4_0000 * s, 512 * s, 0);
    UpIs(512 * s, s, 0);
    PdpteReads(t, s, 0x800_0000 * s, slot);
  }

  lemma UpThree(q: nat)
    ensures Up(q) == q / 512 && Up(Up(q)) == q / 512 / 512 && Up(Up(Up(q))) == q / 512 / 512 / 512
  {
  }

  lemma PteReads(t: Tables, s: nat, q: nat, slot: nat)
    requires SelfMap.SelfMapped(t, s) && SelfMap.NoHugePml4(t) && q < PAGES
    requires HasPde(t, Up(q)) && !Pdpte(t, Up(Up(q))).ps && !Pde(t, Up(q)).ps
    requires slot in WalkSlots(t, 0x800_0000 * s + Up(q))
    ensures OnTheWay(t, s, q, slot)
  {
    hide SelfMap.SelfMapped, SelfMap.NoHugePml4, WalkSlots;
    WindowSlots(t, s, Up(q));
    hide Up, In;
  }

  lemma PdeReads(t: Tables, s: nat, q: nat, slot: nat)
    requires SelfMap.SelfMapped(t, s) && SelfMap.NoHugePml4(t) && q < PAGES
    requires HasPdpte(t, Up(Up(q))) && !Pdpte(t, Up(Up(q))).ps
    requires slot in WalkSlots(t, 0x800_0000 * s + (0x4_0000 * s + Up(Up(q))))
    ensures OnTheWay(t, s, q, slot)
  {
    hide SelfMap.NoHugePml4, WalkSlots;
    var g := Up(Up(q));
    SelfMap.WindowPde(t, s, g);
    SelfMap.WindowPdpte(t, s, Up(g));
    NotHuge(t, Up(g));
    WindowSlots(t, s, 0x4_0000 * s + g);
    SelfMap.DivMod(512 * s + Up(g), s, Up(g));
  }

  lemma NotHuge(t: Tables, i: nat)
    requires SelfMap.NoHugePml4(t) && i < 512 && Pml4e(t, i).p
    ensures !Pml4e(t, i).ps
  {
  }

  lemma PdpteReads(t: Tables, s: nat, q: nat, slot: nat)
    requires SelfMap.SelfMapped(t, s) && SelfMap.NoHugePml4(t) && q < PAGES && Pml4e(t, Up(Up(Up(q)))).p
    requires slot in WalkSlots(t, 0x800_0000 * s + (0x4_0000 * s + (512 * s + Up(Up(Up(q))))))
    ensures slot == Pml4Slot(t, s) || slot == Pml4Slot(t, Up(Up(Up(q))))
  {
    hide SelfMap.NoHugePml4, WalkSlots;
    var i := Up(Up(Up(q)));
    SelfMap.WindowPdpte(t, s, s);
    SelfMap.WindowPdpte(t, s, i);
    SelfMap.WindowPde(t, s, 512 * s + i);
    NotHuge(t, s);
    NotHuge(t, i);
    WindowSlots(t, s, 0x4_0000 * s + (512 * s + i));
  }

  /** No page below the limit is mapped by such an entry. */
  lemma NoLeafOnTheWay(t: Tables, s: nat, c: nat, slot: nat, q: nat)
    requires Tree(t, s) && 16 <= s < 512 && c < MAX_PAGES && q < MAX_PAGES && OnTheWay(t, s, c, slot)
    requires !Walk(t, q).Unmapped?
    ensures Walk(t, q).slot != slot
  {
    hide Up, In, Walk, InTable, SlotAt;
    assert Up(Up(Up(q))) < 16 && Up(Up(Up(c))) < 16;
    EndInTable(t, s, q);
    var p := WayPlace(t, s, c, slot);
    if SlotAt(t, s, EndOfWalk(t, q)) == slot {
      assert p == EndOfWalk(t, q);
      EndMapsPage(t, q);
    }
  }

  lemma EndMapsPage(t: Tables, q: nat)
    requires !Walk(t, q).Unmapped?
    ensures var p := EndOfWalk(t, q);
            && p.level != 4 && (p.level == 3 ==> p.n == Up(Up(q)) && Pdpte(t, p.n).ps)
            && (p.level == 2 ==> p.n == Up(q) && Pde(t, p.n).ps)
  {
    hide Up, In;
  }

  lemma WayPlace(t: Tables, s: nat, c: nat, slot: nat) returns (p: Place)
    requires 16 <= s < 512 && Up(Up(Up(c))) < 16 && OnTheWay(t, s, c, slot)
    ensures InTable(t, s, p) && SlotAt(t, s, p) == slot
    ensures p.level == 4 || (p.level == 3 && HasPdpte(t, p.n) && !Pdpte(t, p.n).ps)
            || (p.level == 2 && HasPde(t, p.n) && !Pde(t, p.n).ps)
  {
    hide Up, In;
    if slot == Pml4Slot(t, s) {
      p := Place(4, s);
    } else if slot == Pml4Slot(t, Up(Up(Up(c)))) {
      p := Place(4, Up(Up(Up(c))));
    } else if slot == PdpteSlot(t, Up(Up(c))) {
      p := Place(3, Up(Up(c)));
    } else {
      p := Place(2, Up(c));
    }
  }

  /** What the driver's own reads do to the accessed bits is never seen by its walk: in a self-mapped address space
      whose tables are a tree apart from the window, they set the bit of no entry that maps a page below the limit. */
  lemma OwnReadsUnseen(t: Tables, s: nat, read: set<nat>)
    requires SelfMap.SelfMapped(t, s) && SelfMap.NoHugePml4(t) && Tree(t, s) && s >= 16
    requires s < 512 && forall r | r in read ::
               exists c: nat, w: nat | c < MAX_PAGES && w in WindowReads(t, s, 4096 * c) :: r in WalkSlots(t, w)
    ensures SameLayout(Touch(t, read).mem, t.mem)
    ensures forall q: nat | q < MAX_PAGES :: Accessed(Touch(t, read), q) == Accessed(t, q)
    ensures forall list :: ExactRuns(list, Touch(t, read)) <==> ExactRuns(list, t)
  {
    hide Up, In, Walk, WalkSlots, WindowReads, Tree, Touch, SameLayout, Maximal, InList;
    hide SelfMap.SelfMapped, SelfMap.NoHugePml4;
    var u := Touch(t, read);
    TouchIs(t, read);
    forall q: nat | q < MAX_PAGES ensures Accessed(u, q) == Accessed(t, q) {
      SameWalk(u.mem, t.mem, t.root, q);
      if !Walk(t, q).Unmapped? {
        MappedInMemory(t, q);
        var slot := Walk(t, q).slot;
        if slot in read {
          var c: nat, w: nat :| c < MAX_PAGES && w in WindowReads(t, s, 4096 * c) && slot in WalkSlots(t, w);
          ReadsOnTheWay(t, s, 4096 * c, w, slot);
          assert PageIndex(4096 * c) == c;
          NoLeafOnTheWay(t, s, c, slot, q);
        }
      }
    }
  }

  /** A small self-mapped address space: PML4 slot 256 is the window, and 512 pages are mapped from address 0 on. */
  const SMALL_SPACE := Tables(seq(2048, n =>
    if n == 256 then Entry(true, true, false, false, 0, 0)
    else if n == 0 || n == 512 || n == 1024 then Entry(true, true, false, false, n / 512 + 1, 0)
    else if n >= 1536 then Entry(true, true, false, false, n, 0)
    else ABSENT), 0)

  lemma SmallSpaceEntries(i: nat, g: nat, d: nat)
    ensures i < 512 ==> (Pml4e(SMALL_SPACE, i).p <==> i == 0 || i == 256)
    ensures Up(g) == 0 ==> PdpteSlot(SMALL_SPACE, g) == 512 + g && (Pdpte(SMALL_SPACE, g).p <==> g == 0)
    ensures Up(Up(d)) == 0 && Up(d) == 0 ==> PdeSlot(SMALL_SPACE, d) == 1024 + d && (Pde(SMALL_SPACE, d).p <==> d == 0)
  {
    hide Up, In;
    var t := SMALL_SPACE;
    UpIs(0, 0, 0);
    assert Pml4e(t, 0) == Entry(true, true, false, false, 1, 0);
    if i < 512 { UpIs(i, 0, i); }
    if Up(g) == 0 {
      UpIs(g, 0, g);
      assert Pdpte(t, 0) == Entry(true, true, false, false, 2, 0);
    }
    if Up(d) == 0 { UpIs(d, 0, d); }
  }

  /** Where the places of that space lie: four tables, one per level. */
  lemma SmallSpacePlace(p: Place)
    requires InTable(SMALL_SPACE, 256, p)
    ensures p.n < 512 && 1 <= p.level <= 4 && SlotAt(SMALL_SPACE, 256, p) == 512 * (4 - p.level) + p.n
  {
    hide Up, In;
    var t := SMALL_SPACE;
    match p.level
    case 4 => UpIs(p.n, 0, p.n);
    case 3 =>
      SmallSpaceEntries(Up(p.n), p.n, 0);
      UpIs(p.n, 0, p.n);
    case 2 =>
      var g := Up(p.n);
      SmallSpaceEntries(Up(g), g, 0);
      SmallSpaceEntries(0, 0, p.n);
      UpIs(p.n, 0, p.n);
    case _ =>
      var d := Up(p.n);
      var g := Up(d);
      SmallSpaceEntries(Up(g), g, 0);
      SmallSpaceEntries(0, 0, d);
      UpIs(p.n, 0, p.n);
      assert Pde(t, 0) == Entry(true, true, false, false, 3, 0);
  }

  /** The condition is met by address spaces the driver can walk: a self-mapped one, for every set of accesses
      outside its window. */
  lemma SelfMappedOwnsLeaves(accesses: set<nat>)
    requires forall v | v in accesses :: v < PAGES && Up(Up(Up(v))) != 256
    ensures SelfMap.SelfMapped(SMALL_SPACE, 256) && SelfMap.NoHugePml4(SMALL_SPACE) && Tree(SMALL_SPACE, 256)
    ensures OwnLeaves(SMALL_SPACE, accesses)
    ensures forall q: nat | q < 512 :: !Walk(SMALL_SPACE, q).Unmapped?
  {
    hide Up, In, OwnLeaves, InTable, SlotAt;
    var t := SMALL_SPACE;
    forall a, b | InTable(t, 256, a) && InTable(t, 256, b) && SlotAt(t, 256, a) == SlotAt(t, 256, b) ensures a == b {
      SmallSpacePlace(a);
      SmallSpacePlace(b);
    }
    TreeOwnsLeaves(t, 256, accesses);
    UpIs(256, 0, 256);
    UpIs(0, 0, 0);
    forall q: nat | q < 512 ensures !Walk(t, q).Unmapped? {
      UpIs(q, 0, q);
      SmallSpaceEntries(0, 0, 0);
      assert Pdpte(t, 0) == Entry(true, true, false, false, 2, 0) && Pde(t, 0) == Entry(true, true, false, false, 3, 0);
    }
  }

  class PageScanner {
    const root: nat
    var mem: seq<Entry>
    var accessedList: seq<PRange>
    var accessedListSize: int
    ghost var calls: seq<Leaf>   // every call of a callback, in order

    constructor (root: nat, mem: seq<Entry>)
      ensures this.root == root && this.mem == mem && accessedList == [] && accessedListSize == 0 && calls == []
    {
      this.root, this.mem, accessedList, accessedListSize, calls := root, mem, [], 0, [];
    }

    function Paging(): Tables
      reads this
    {
      Tables(mem, root)
    }

    function State(): Scan
      reads this
    {
      Scan(mem, accessedList, accessedListSize)
    }

    method StoreAccessedRange(start: nat, end: nat, slot: nat)
      modifies `accessedList, `accessedListSize
      ensures State() == Store(old(State()), Leaf(start, end, slot))
    {
      if ReadSlot(mem, slot).a {
        if |accessedList| > 0 && accessedList[0].end == (start - 1) % WRAP {
          accessedList := [accessedList[0].(end := end)] + accessedList[1..];
        } else {
          accessedList := [PRange(start, end)] + accessedList;
          accessedListSize := accessedListSize + 1;
        }
      }
    }

    method OnPresentPage(cb: Callback, start: nat, end: nat, slot: nat)
      modifies this
      ensures State() == Call(cb, old(State()), Leaf(start, end, slot))
      ensures calls == old(calls) + [Leaf(start, end, slot)]
    {
      calls := calls + [Leaf(start, end, slot)];
      match cb
      case StoreAccessedRanges => StoreAccessedRange(start, end, slot);
      case MarkPageAsNotAccessed =>
        if slot < |mem| { mem := mem[slot := mem[slot].(a := false)]; }
    }

    /** Calls `cb` once on every page that starts below maxAddress, in ascending order, and on nothing else. */
    method WalkPagingLayout(maxAddress: nat, cb: Callback)
      requires maxAddress < WRAP
      modifies this
      ensures calls == old(calls) + Leaves(old(Paging()), LimitPage(maxAddress))
      ensures State() == CallAll(cb, old(State()), Leaves(old(Paging()), LimitPage(maxAddress)))
    {
      hide Up, In, Walk, LeafAt, SameLayout, Boundary, Call, OneRound, Leaves, CallAll;
      ghost var t0, s0, calls0 := Paging(), State(), calls;
      ghost var limit := LimitPage(maxAddress);
      var currentAddress, lastAddress := 0, 0;
      ghost var c := 0;
      NextRegion(t0, 0);
      NoLeaves(t0, cb, s0, calls0);
      while currentAddress < maxAddress && lastAddress <= currentAddress
        invariant c <= PAGES64 && currentAddress == 4096 * c % WRAP
        invariant if c < PAGES64 then lastAddress <= currentAddress else 0 < lastAddress
        invariant Boundary(t0, c)
        invariant Leaves(t0, c) == Leaves(t0, if c < limit then c else limit)
        invariant State() == CallAll(cb, s0, Leaves(t0, c)) && calls == calls0 + Leaves(t0, c)
        decreases PAGES64 - c
      {
        lastAddress := currentAddress;
        CallAllKeepsLayout(cb, s0, Leaves(t0, c));
        ghost var before := c;
        currentAddress, c := NextAddress(currentAddress, cb, t0, s0, calls0, c);
        if limit <= c {
          LeavesBetween(t0, before, c, limit);
        }
      }
    }

    method CleanAccessedList()
      modifies `accessedList, `accessedListSize
      ensures State() == Scan(old(mem), [], 0)
    {
      accessedList := [];
      accessedListSize := 0;
    }

    /** Returns the byte size of the list it builds. */
    method EnumAllAccessedPages() returns (size: int)
      modifies this
      ensures mem == old(mem) && accessedListSize == |accessedList| && ExactRuns(accessedList, Paging())
      ensures calls == old(calls) + Leaves(Paging(), MAX_PAGES)
      ensures size == ToInt32(SIZEOF_PRANGE * |accessedList|)
    {
      hide Up, In, Walk, Leaves, ExactRuns;
      CleanAccessedList();
      WalkPagingLayout(MAX_ADDRESS, StoreAccessedRanges);
      EnumerateExact(old(Paging()));
      size := ToInt32(accessedListSize * SIZEOF_PRANGE);
    }

    /** Copies as much of the list as the buffer holds, and empties the list. */
    method GetAccessedPageList(list: array<PRange>, listSizeInBytes: int) returns (size: nat)
      requires MaxCount(listSizeInBytes) <= list.Length
      modifies `accessedList, `accessedListSize, list
      ensures var n := Copied(|old(accessedList)|, listSizeInBytes);
              && size == SIZEOF_PRANGE * n && n <= list.Length && list[..n] == old(accessedList)[..n]
              && list[n..] == old(list[n..])
      ensures State() == Scan(old(mem), [], 0)
    {
      var maxcount := MaxCount(listSizeInBytes);
      var i := 0;
      while i < |accessedList|
        invariant i <= |accessedList| && (i <= maxcount || i == 0) && accessedList == old(accessedList)
            && mem == old(mem)
        invariant i <= list.Length && list[..i] == accessedList[..i] && list[i..] == old(list[i..])
      {
        if i >= maxcount { break; }
        list[i] := accessedList[i];
        i := i + 1;
      }
      CleanAccessedList();
      size := i * SIZEOF_PRANGE;
    }

    /** The two requests as a client makes them: ask for the size, reserve that much, fetch. The whole list
        arrives exactly when it has fewer than 2^27 ranges; the byte size of more does not fit in 32 bits. */
    method EnumerateAndFetch() returns (list: array<PRange>, fetched: nat, ghost runs: seq<PRange>)
      modifies this
      ensures mem == old(mem) && ExactRuns(runs, Paging()) && accessedList == []
      ensures fetched <= |runs| && fetched <= list.Length && list[..fetched] == runs[..fetched]
      ensures fetched == |runs| <==> |runs| < 0x800_0000
    {
      hide ExactRuns, MaxCount, ToInt32;
      var size := EnumAllAccessedPages();
      runs := accessedList;
      MaxCountOf(|runs|);
      list := new PRange[if size > 0 then size / SIZEOF_PRANGE else 0](i => PRange(0, 0));
      SizeSuffices(|runs|);
      var bytes := GetAccessedPageList(list, size);
      fetched := bytes / SIZEOF_PRANGE;
    }

    method MarkAllPagesAsNeverAccessed()
      modifies this
      ensures Paging() == Mark(old(Paging()))
      ensures accessedList == old(accessedList) && accessedListSize == old(accessedListSize)
      ensures calls == old(calls) + Leaves(old(Paging()), MAX_PAGES)
    {
      hide Up, In, Walk, Leaves, IsLeafSlot;
      var leaves := Leaves(Paging(), MAX_PAGES);
      MarkAllIs(mem, leaves, State());
      MarkAllIs(mem, leaves, Scan(mem, [], 0));
      WalkPagingLayout(MAX_ADDRESS, MarkPageAsNotAccessed);
      assert mem == Mark(old(Paging())).mem;
    }

    /** One time round the loop, from page c; the addition wraps at the top of the address space. */
    method NextAddress(currentAddress: nat, cb: Callback, ghost t0: Tables, ghost s0: Scan, ghost calls0: seq<Leaf>,
                       ghost c: nat)
      returns (next: nat, ghost n: nat)
      requires currentAddress == 4096 * c && c < PAGES64 && Boundary(t0, c)
      requires t0 == Tables(s0.mem, root) && SameLayout(mem, s0.mem)
      requires State() == CallAll(cb, s0, Leaves(t0, c)) && calls == calls0 + Leaves(t0, c)
      modifies this
      ensures c < n <= PAGES64 && n <= c + 0x800_0000 && next == 4096 * n % WRAP && Boundary(t0, n)
          && OneRound(t0, c, n)
      ensures State() == CallAll(cb, s0, Leaves(t0, n)) && calls == calls0 + Leaves(t0, n)
    {
      hide Up, In, Walk, LeafAt, SameLayout, Boundary, Call, CallAll, Leaves;
      hide NextPml4Address, NextPdpteAddress, NextPdeAddress, NextPteAddress;
      var page := currentAddress / 4096;
      assert page == c;
      SameEntries(mem, s0.mem, root, c);
      WithinSpace(c);
      if !Pml4e(Paging(), Up(Up(Up(page)))).p {
        SkipPml4(t0, c);
        RoundPml4(c);
        return NextPml4Address(currentAddress) % WRAP, 0x800_0000 * (Up(Up(Up(c))) + 1);
      }
      if !Pdpte(Paging(), Up(Up(page))).p {
        SkipPdpte(t0, c);
        RoundPdpte(c);
        return NextPdpteAddress(currentAddress) % WRAP, 0x4_0000 * (Up(Up(c)) + 1);
      }
      if Pdpte(Paging(), Up(Up(page))).ps {
        VisitHuge(t0, c);
        var slot := PdpteSlot(Paging(), Up(Up(page)));
        CallOneMore(cb, s0, Leaves(t0, c), Leaf(4096 * c, 4096 * c + 0x4000_0000 - 1, slot));
        OnPresentPage(cb, currentAddress, currentAddress + 0x4000_0000 - 1, slot);
        return (currentAddress + 0x4000_0000) % WRAP, c + 0x4_0000;
      }
      if !Pde(Paging(), Up(page)).p {
        SkipPde(t0, c);
        RoundPde(c);
        return NextPdeAddress(currentAddress) % WRAP, 512 * (Up(c) + 1);
      }
      if Pde(Paging(), Up(page)).ps {
        VisitLarge(t0, c);
        var slot := PdeSlot(Paging(), Up(page));
        CallOneMore(cb, s0, Leaves(t0, c), Leaf(4096 * c, 4096 * c + 0x20_0000 - 1, slot));
        OnPresentPage(cb, currentAddress, currentAddress + 0x20_0000 - 1, slot);
        return (currentAddress + 0x20_0000) % WRAP, c + 512;
      }
      NextPage(t0, c);
      if !Pte(Paging(), page).p {
        SkipPte(t0, c);
        RoundPte(c);
        return NextPteAddress(currentAddress) % WRAP, c + 1;
      }
      VisitSmall(t0, c);
      var slot := PteSlot(Paging(), page);
      CallOneMore(cb, s0, Leaves(t0, c), Leaf(4096 * c, 4096 * c + 0x1000 - 1, slot));
      OnPresentPage(cb, currentAddress, currentAddress + 0xfff, slot);
      return (currentAddress + 0x1000) % WRAP, c + 1;
    }
  }

  lemma NoLeaves(t: Tables, cb: Callback, s: Scan, calls: seq<Leaf>)
    ensures CallAll(cb, s, Leaves(t, 0)) == s && calls + Leaves(t, 0) == calls
  {
  }

  lemma SkipPte(t: Tables, c: nat)
    requires HasPde(t, Up(c)) && !Pdpte(t, Up(Up(c))).ps && !Pde(t, Up(c)).ps && !Pte(t, c).p
    ensures Leaves(t, c + 1) == Leaves(t, c)
  {
    hide Up, In;
  }

  lemma VisitSmall(t: Tables, c: nat)
    requires HasPde(t, Up(c)) && !Pdpte(t, Up(Up(c))).ps && !Pde(t, Up(c)).ps && Pte(t, c).p
    ensures Leaves(t, c + 1) == Leaves(t, c) + [Leaf(4096 * c, 4096 * c + 0x1000 - 1, PteSlot(t, c))]
  {
    hide Up, In;
  }
}
