/** `FindFirstDifferentAddress` of DBKKernel/memscan.c: the skipping scan for the next
    page whose protection differs, against a linear scan over all later page indexes.
    Entries are read by region number; each read carries the precondition that the tables
    above it are present, which is what the pointers of SelfMap need. */
module RegionScan {
  import opened Paging
  import opened SelfMap

  /** `*protection`: 0, PAGE_NOACCESS, PAGE_EXECUTE_READ, PAGE_EXECUTE_READWRITE. */
  datatype Protection = Unset | NoAccess | ExecuteRead | ExecuteReadWrite

  /** The scan reads PDPTEs as plain table pointers. */
  ghost predicate NoHugePages(t: Tables) {
    forall g: nat | HasPdpte(t, g) :: !Pdpte(t, g).ps
  }

  /** Protection of a page as the page walk gives it: the RW bit of its leaf entry. */
  function PageProtection(t: Tables, q: nat): (r: Protection)
    ensures !r.Unset?
  {
    var w := Walk(t, q);
    if w.Unmapped? then NoAccess
    else if ReadSlot(t.mem, w.slot).rw then ExecuteReadWrite else ExecuteRead
  }

  /** Page q ends a region of protection `from`: leaving read-write for read-only does not. */
  predicate Differs(t: Tables, from: Protection, q: nat) {
    match from
    case NoAccess => PageProtection(t, q) != NoAccess
    case ExecuteRead => PageProtection(t, q) != ExecuteRead
    case _ => PageProtection(t, q) == NoAccess
  }

  predicate IsLarge(t: Tables, d: nat) {
    HasPde(t, d) && Pde(t, d).ps
  }

  /** Pages the scan jumps over when it starts at page p strictly inside a 2 MB page: the page
      table index is not reset, so in every following 2 MB region, up to and including the
      first that is not a 2 MB page, the pages below that index are never looked at. */
  ghost predicate Skipped(t: Tables, p: nat, q: nat) {
    && IsLarge(t, Up(p)) && Up(p) < Up(q) && In(q) < In(p)
    && forall d: nat | Up(p) < d < Up(q) :: IsLarge(t, d)
  }

  /** `r` is the address of the least later page that differs and is not skipped, or 0. */
  ghost predicate ScanResult(t: Tables, p: nat, r: nat) {
    if r == 0 then
      forall q: nat | p < q < PAGES && Differs(t, PageProtection(t, p), q) :: Skipped(t, p, q)
    else
      exists q: nat | p < q < PAGES && r == PageAddress(q) :: IsNext(t, p, q)
  }

  ghost predicate IsNext(t: Tables, p: nat, q: nat) {
    && Differs(t, PageProtection(t, p), q) && !Skipped(t, p, q)
    && forall m: nat | p < m < q && Differs(t, PageProtection(t, p), m) :: Skipped(t, p, m)
  }

  /** The linear scan: `r` is the address of the least later page that differs, or 0. */
  ghost predicate LinearResult(t: Tables, p: nat, r: nat) {
    if r == 0 then
      forall q: nat | p < q < PAGES :: !Differs(t, PageProtection(t, p), q)
    else
      exists q: nat | p < q < PAGES && r == PageAddress(q) :: IsLeast(t, p, q)
  }

  ghost predicate IsLeast(t: Tables, p: nat, q: nat) {
    && Differs(t, PageProtection(t, p), q)
    && forall m: nat | p < m < q :: !Differs(t, PageProtection(t, p), m)
  }

  // ----- Regions without a table or with one large page have one protection -----

  lemma AbsentPml4(t: Tables, i: nat, q: nat)
    requires Up(Up(Up(q))) == i && !Pml4e(t, i).p
    ensures PageProtection(t, q) == NoAccess
  {
    hide Up, In;
  }

  lemma AbsentPdpte(t: Tables, g: nat, q: nat)
    requires Up(Up(q)) == g && !HasPdpte(t, g)
    ensures PageProtection(t, q) == NoAccess
  {
    hide Up, In;
  }

  lemma AbsentPde(t: Tables, d: nat, q: nat)
    requires Up(q) == d && !HasPde(t, d) && NoHugePages(t)
    ensures PageProtection(t, q) == NoAccess
  {
    hide Up, In;
  }

  lemma LargePage(t: Tables, d: nat, q: nat)
    requires Up(q) == d && IsLarge(t, d) && NoHugePages(t)
    ensures PageProtection(t, q) == if Pde(t, d).rw then ExecuteReadWrite else ExecuteRead
  {
    hide Up, In;
  }

  lemma SmallPage(t: Tables, q: nat)
    requires HasPde(t, Up(q)) && !IsLarge(t, Up(q)) && NoHugePages(t)
    ensures PageProtection(t, q)
            == if !Pte(t, q).p then NoAccess else if Pte(t, q).rw then ExecuteReadWrite else ExecuteRead
  {
    hide Up, In;
  }

  // ----- Carries -----

  /** `pagedirindex++` and its carries; None at the end of the list. */
  function NextPde(x: Indexes): Option<Indexes> {
    if x.pd + 1 < 512 then Some(x.(pd := x.pd + 1)) else NextPdpte(x.(pd := 0))
  }

  function NextPdpte(x: Indexes): Option<Indexes> {
    if x.pdpt + 1 < 512 then Some(x.(pdpt := x.pdpt + 1)) else NextPml4e(x.(pdpt := 0))
  }

  function NextPml4e(x: Indexes): Option<Indexes> {
    if x.pml4 + 1 < 512 then Some(x.(pml4 := x.pml4 + 1)) else None
  }

  function NextPte(x: Indexes): Option<Indexes> {
    if x.pt + 1 < 512 then Some(x.(pt := x.pt + 1)) else NextPde(x.(pt := 0))
  }

  /** A carry moves the page index up by exactly one region, and stops only past the last one. */
  predicate Carried(x: Indexes, size: nat, next: Option<Indexes>) {
    if next.None? then PageOf(x) + size >= PAGES
    else Digits(next.value) && PageOf(next.value) == PageOf(x) + size
  }

  lemma Carries(x: Indexes)
    requires Digits(x)
    ensures Carried(x, 1, NextPte(x))
    ensures Carried(x, 512, NextPde(x))
    ensures Carried(x, 0x4_0000, NextPdpte(x))
    ensures Carried(x, 0x800_0000, NextPml4e(x))
  {
    hide Up, In;
  }

  // ----- The loops over the rest of one table -----
  // Each returns the index of the next present entry, or 512; the pages jumped over are absent.

  method ScanPml4(t: Tables, i: nat) returns (n: nat)
    requires i < 512
    ensures i < n <= 512
    ensures forall q: nat | i < Up(Up(Up(q))) < n :: PageProtection(t, q) == NoAccess
    ensures n < 512 ==> Pml4e(t, n).p
  {
    hide Up, In, PageProtection, Walk;
    n := i + 1;
    while n < 512
      invariant i < n <= 512
      invariant forall m: nat | i < m < n :: !Pml4e(t, m).p
    {
      if Pml4e(t, n).p { break; }
      n := n + 1;
    }
    forall q: nat | i < Up(Up(Up(q))) < n ensures PageProtection(t, q) == NoAccess {
      AbsentPml4(t, Up(Up(Up(q))), q);
    }
  }

  method ScanPdpt(t: Tables, i: nat, j: nat) returns (n: nat)
    requires i < 512 && j < 512 && Pml4e(t, i).p
    ensures j < n <= 512
    ensures forall q: nat | 512 * i + j < Up(Up(q)) < 512 * i + n :: PageProtection(t, q) == NoAccess
    ensures n < 512 ==> HasPdpte(t, 512 * i + n)
  {
    hide Up, In, PageProtection, Walk;
    n := j + 1;
    while n < 512
      invariant j < n <= 512
      invariant forall g: nat | 512 * i + j < g < 512 * i + n :: !HasPdpte(t, g)
    {
      DivMod(512 * i + n, i, n);
      if Pdpte(t, 512 * i + n).p { break; }
      n := n + 1;
    }
    forall q: nat | 512 * i + j < Up(Up(q)) < 512 * i + n ensures PageProtection(t, q) == NoAccess {
      AbsentPdpte(t, Up(Up(q)), q);
    }
  }

  method ScanPd(t: Tables, g: nat, k: nat) returns (n: nat)
    requires k < 512 && HasPdpte(t, g) && NoHugePages(t)
    ensures k < n <= 512
    ensures forall q: nat | 512 * g + k < Up(q) < 512 * g + n :: PageProtection(t, q) == NoAccess
    ensures n < 512 ==> HasPde(t, 512 * g + n)
  {
    hide Up, In, PageProtection, Walk;
    n := k + 1;
    while n < 512
      invariant k < n <= 512
      invariant forall d: nat | 512 * g + k < d < 512 * g + n :: !HasPde(t, d)
    {
      DivMod(512 * g + n, g, n);
      if Pde(t, 512 * g + n).p { break; }
      n := n + 1;
    }
    forall q: nat | 512 * g + k < Up(q) < 512 * g + n ensures PageProtection(t, q) == NoAccess {
      AbsentPde(t, Up(q), q);
    }
  }

  method ScanPt(t: Tables, d: nat, l: nat) returns (n: nat)
    requires l < 512 && HasPde(t, d) && !Pde(t, d).ps && NoHugePages(t)
    ensures l < n <= 512
    ensures forall q: nat | 512 * d + l < q < 512 * d + n :: PageProtection(t, q) == NoAccess
    ensures n < 512 ==> PageProtection(t, 512 * d + n) != NoAccess
  {
    hide Up, In, PageProtection, Walk;
    n := l + 1;
    while n < 512
      invariant l < n <= 512
      invariant forall q: nat | 512 * d + l < q < 512 * d + n :: PageProtection(t, q) == NoAccess
    {
      DivMod(512 * d + n, d, n);
      SmallPage(t, 512 * d + n);
      if Pte(t, 512 * d + n).p { break; }
      n := n + 1;
    }
  }

  // ----- What holds each time round -----

  /** Everything between the start and page c that differs was jumped over. */
  ghost predicate Cleared(t: Tables, p: nat, c: nat) {
    forall q: nat | p < q < c && Differs(t, PageProtection(t, p), q) :: Skipped(t, p, q)
  }

  /** Still in the run of 2 MB pages the start lies in: c is at the start's offset. */
  ghost predicate InRun(t: Tables, p: nat, c: nat) {
    && IsLarge(t, Up(p)) && Up(p) < Up(c) && In(c) == In(p)
    && forall d: nat | Up(p) < d < Up(c) :: IsLarge(t, d)
  }

  /** Nothing from c on is jumped over any more. */
  ghost predicate Live(t: Tables, p: nat, c: nat) {
    && (forall q: nat | c <= q < PAGES :: !Skipped(t, p, q))
    && (c < PAGES && IsLarge(t, Up(c)) ==> In(c) == 0)
  }

  ghost predicate Reached(t: Tables, p: nat, c: nat) {
    p < c && Cleared(t, p, c) && (InRun(t, p, c) || Live(t, p, c))
  }

  lemma Found(t: Tables, p: nat, c: nat)
    requires Reached(t, p, c) && c < PAGES && Differs(t, PageProtection(t, p), c)
    ensures ScanResult(t, p, PageAddress(c))
  {
    hide Up, In;
    assert IsNext(t, p, c);
  }

  lemma Exhausted(t: Tables, p: nat, c: nat)
    requires Cleared(t, p, c) && c >= PAGES
    ensures ScanResult(t, p, 0)
  {
    hide Up, In;
  }

  /** Moving on from c to e over pages that do not differ, once nothing is skipped any more. */
  lemma Advance(t: Tables, p: nat, c: nat, e: nat)
    requires p <= c < e && ((c == p && !IsLarge(t, Up(p))) || (Reached(t, p, c) && Live(t, p, c)))
    requires forall q: nat | c <= q < e && p < q :: !Differs(t, PageProtection(t, p), q)
    requires e < PAGES && IsLarge(t, Up(e)) ==> In(e) == 0
    ensures Reached(t, p, e) && Live(t, p, e)
  {
    hide Up, In;
  }

  /** Leaving a 2 MB page while in the run: the head of the next region is skipped. */
  lemma AdvanceLarge(t: Tables, p: nat, c: nat)
    requires NoHugePages(t) && IsLarge(t, Up(c)) && (c == p || (Reached(t, p, c) && InRun(t, p, c)))
    requires !Differs(t, PageProtection(t, p), c)
    ensures Reached(t, p, c + 512) && InRun(t, p, c + 512)
  {
    hide Up, In, PageProtection, Walk, Pde;
    forall q: nat | p < q < c + 512 && Differs(t, PageProtection(t, p), q)
      ensures Skipped(t, p, q)
    {
      if c <= q && Up(q) == Up(c) {
        LargePage(t, Up(c), c);
        LargePage(t, Up(c), q);
      }
    }
  }

  /** The run ends at a region that is not a 2 MB page. */
  lemma RunEnds(t: Tables, p: nat, c: nat)
    requires Reached(t, p, c) && InRun(t, p, c) && !IsLarge(t, Up(c))
    ensures Live(t, p, c)
  {
    hide Up, In;
  }

  // ----- Absent regions, as ranges of pages -----

  ghost predicate AllAbsent(t: Tables, c: nat, e: nat) {
    forall q: nat | c <= q < e :: PageProtection(t, q) == NoAccess
  }

  lemma GapPml4(t: Tables, c: nat, n: nat)
    requires !Pml4e(t, Up(Up(Up(c)))).p
    requires forall q: nat | Up(Up(Up(c))) < Up(Up(Up(q))) < n :: PageProtection(t, q) == NoAccess
    ensures AllAbsent(t, c, 0x800_0000 * n)
  {
    hide Up, In;
    forall q: nat | c <= q < 0x800_0000 * n ensures PageProtection(t, q) == NoAccess {
      if Up(Up(Up(q))) == Up(Up(Up(c))) { AbsentPml4(t, Up(Up(Up(c))), q); }
    }
  }

  lemma GapPdpte(t: Tables, c: nat, n: nat)
    requires !HasPdpte(t, Up(Up(c)))
    requires forall q: nat | Up(Up(c)) < Up(Up(q)) < n :: PageProtection(t, q) == NoAccess
    ensures AllAbsent(t, c, 0x4_0000 * n)
  {
    hide Up, In;
    forall q: nat | c <= q < 0x4_0000 * n ensures PageProtection(t, q) == NoAccess {
      if Up(Up(q)) == Up(Up(c)) { AbsentPdpte(t, Up(Up(c)), q); }
    }
  }

  lemma GapPde(t: Tables, c: nat, n: nat)
    requires !HasPde(t, Up(c)) && NoHugePages(t)
    requires forall q: nat | Up(c) < Up(q) < n :: PageProtection(t, q) == NoAccess
    ensures AllAbsent(t, c, 512 * n)
  {
    hide Up, In;
    forall q: nat | c <= q < 512 * n ensures PageProtection(t, q) == NoAccess {
      if Up(q) == Up(c) { AbsentPde(t, Up(c), q); }
    }
  }

  /** From an absent start, absent pages are passed over. */
  lemma AdvanceAbsent(t: Tables, p: nat, c: nat, e: nat)
    requires NoHugePages(t) && PageProtection(t, p) == NoAccess && (c == p || Reached(t, p, c))
    requires c < e && AllAbsent(t, c, e)
    requires e < PAGES && IsLarge(t, Up(e)) ==> In(e) == 0
    ensures Reached(t, p, e) && Live(t, p, e)
  {
    hide Up, In;
    StartNotLarge(t, p);
    Advance(t, p, c, e);
  }

  lemma StartNotLarge(t: Tables, p: nat)
    requires NoHugePages(t) && PageProtection(t, p) == NoAccess
    ensures !IsLarge(t, Up(p))
  {
    hide Up, In;
    if IsLarge(t, Up(p)) { LargePage(t, Up(p), p); }
  }

  function RegionOf1G(x: Indexes): nat { 512 * x.pml4 + x.pdpt }

  function RegionOf2M(x: Indexes): nat { 512 * RegionOf1G(x) + x.pd }

  /** The indexes of an address name its page and the regions around it. */
  lemma SplitIs(address: nat)
    ensures var x := VirtualAddressToIndexes(address); Digits(x) && PageOf(x) == PageIndex(address)
  {
    hide Up, In;
    var a := address / 4096;
    var n, q := a / PAGES, a % PAGES;
    var i := DigitsOf(q);
    SplitDigits(address, n, i, address % 4096);
  }

  lemma Regions(x: Indexes)
    requires Digits(x)
    ensures PageOf(x) < PAGES && PageOf(x) == 512 * RegionOf2M(x) + x.pt
    ensures Up(PageOf(x)) == RegionOf2M(x) && In(PageOf(x)) == x.pt
    ensures Up(Up(PageOf(x))) == RegionOf1G(x) && Up(RegionOf2M(x)) == RegionOf1G(x)
    ensures Up(Up(Up(PageOf(x)))) == x.pml4 && Up(RegionOf1G(x)) == x.pml4
  {
    hide Up, In;
    PageDigits(x);
  }

  lemma AddressOf(x: Indexes)
    requires Digits(x)
    ensures PageOf(x) < PAGES
    ensures IndexesToVirtualAddress(x, 0) == PageAddress(PageOf(x))
    ensures PageIndex(PageAddress(PageOf(x))) == PageOf(x)
  {
    hide Up, In;
    JoinDigits(x, 0);
    PageIndexIs(PageAddress(PageOf(x)), if PageOf(x) < PAGES / 2 then 0 else 0xFFFF, PageOf(x), 0);
  }

  /** `*protection` for the page the scan starts at. */
  method InitialProtection(t: Tables, x: Indexes) returns (protection: Protection)
    requires Digits(x) && NoHugePages(t)
    ensures protection == PageProtection(t, PageOf(x))
  {
    hide Up, In;
    Regions(x);
    if Pml4e(t, x.pml4).p && Pdpte(t, RegionOf1G(x)).p && Pde(t, RegionOf2M(x)).p
       && (Pde(t, RegionOf2M(x)).ps || Pte(t, PageOf(x)).p) {
      var writable := if Pde(t, RegionOf2M(x)).ps then Pde(t, RegionOf2M(x)).rw else Pte(t, PageOf(x)).rw;
      protection := if writable then ExecuteReadWrite else ExecuteRead;
    } else {
      protection := NoAccess;
    }
  }

  // ----- One time round, level by level -----

  /** How a level ends: the scan returns, starts over at an address, or looks one level down. */
  datatype Step = Return(result: nat) | Restart(next: nat) | Below(x: Indexes)

  /** The scan is at the page of x: the start itself, or a later page reached from it. */
  ghost predicate Here(t: Tables, p: nat, x: Indexes, address: nat) {
    && Digits(x)
    && (PageOf(x) == p || (Reached(t, p, PageOf(x)) && address == PageAddress(PageOf(x))))
  }

  ghost predicate Stepped(t: Tables, p: nat, x: Indexes, s: Step) {
    match s
    case Return(r) => ScanResult(t, p, r)
    case Restart(a) =>
      PageOf(x) < PageIndex(a) && Reached(t, p, PageIndex(a)) && a == PageAddress(PageIndex(a))
    case Below(y) => y == x || (PageOf(x) < PageOf(y) && Digits(y) && Reached(t, p, PageOf(y)))
  }

  /** `continue` at the next region, or return 0 past the last one. */
  method Onward(t: Tables, ghost p: nat, x: Indexes, from: Indexes, ghost size: nat, next: Option<Indexes>)
    returns (s: Step)
    requires Digits(x) && Digits(from) && Carried(from, size, next)
    requires PageOf(x) < PageOf(from) + size && Reached(t, p, PageOf(from) + size)
    ensures Stepped(t, p, x, s) && !s.Below?
  {
    hide Up, In;
    if next.None? {
      Exhausted(t, p, PageOf(from) + size);
      return Return(0);
    }
    AddressOf(next.value);
    return Restart(IndexesToVirtualAddress(next.value, 0));
  }

  /** Returning `address`: the page differs, so it is not the start. */
  lemma FoundHere(t: Tables, p: nat, x: Indexes, address: nat)
    requires Here(t, p, x, address) && Differs(t, PageProtection(t, p), PageOf(x))
    ensures ScanResult(t, p, address)
  {
    hide Up, In;
    PageOfBound(x);
    Found(t, p, PageOf(x));
  }

  lemma PageOfBound(x: Indexes)
    requires Digits(x)
    ensures PageOf(x) < PAGES
  {
    hide Up, In;
  }

  /** Passing over the absent pages from x up to 2 MB region m. */
  lemma AdvanceHere(t: Tables, p: nat, x: Indexes, address: nat, m: nat)
    requires NoHugePages(t) && Here(t, p, x, address) && PageProtection(t, p) == NoAccess
    requires PageOf(x) < 512 * m && AllAbsent(t, PageOf(x), 512 * m)
    ensures Reached(t, p, 512 * m)
    ensures 512 * m >= PAGES ==> ScanResult(t, p, 0)
  {
    hide Up, In, Reached, Walk, PageProtection;
    UpIs(512 * m, m, 0);
    AdvanceAbsent(t, p, PageOf(x), 512 * m);
    if 512 * m >= PAGES { NothingLeft(t, p, 512 * m); }
  }

  lemma NothingLeft(t: Tables, p: nat, c: nat)
    requires Reached(t, p, c) && c >= PAGES
    ensures ScanResult(t, p, 0)
  {
    hide Up, In, InRun, Live, Walk, PageProtection;
    Exhausted(t, p, c);
  }

  /** Passing over the absent pages from x up to entry n of the same page table. */
  lemma AdvanceInTable(t: Tables, p: nat, x: Indexes, address: nat, n: nat)
    requires NoHugePages(t) && Here(t, p, x, address) && PageProtection(t, p) == NoAccess
    requires !IsLarge(t, RegionOf2M(x)) && x.pt < n < 512
    requires AllAbsent(t, PageOf(x), 512 * RegionOf2M(x) + n)
    ensures Reached(t, p, 512 * RegionOf2M(x) + n)
  {
    hide Up, In;
    Regions(x);
    UpIs(512 * RegionOf2M(x) + n, RegionOf2M(x), n);
    hide Reached, AllAbsent, NoHugePages, PageProtection;
    AdvanceAbsent(t, p, PageOf(x), 512 * RegionOf2M(x) + n);
  }

  method Pml4Level(t: Tables, ghost p: nat, x: Indexes, address: nat, protection: Protection) returns (s: Step)
    requires NoHugePages(t) && Here(t, p, x, address) && protection == PageProtection(t, p)
    ensures Stepped(t, p, x, s) && !s.Restart?
    ensures s.Below? ==> Pml4e(t, s.x.pml4).p
  {
    hide Up, In, Reached, ScanResult, PageProtection, Walk, NoHugePages;
    if Pml4e(t, x.pml4).p { return Below(x); }
    Regions(x);
    AbsentPml4(t, x.pml4, PageOf(x));
    if protection != NoAccess { FoundHere(t, p, x, address); return Return(address); }
    var n := ScanPml4(t, x.pml4);
    GapPml4(t, PageOf(x), n);
    AdvanceHere(t, p, x, address, 0x4_0000 * n);
    if n == 512 { return Return(0); }
    s := Below(Indexes(n, 0, 0, 0));
    assert PageOf(s.x) == 0x800_0000 * n;
  }

  method PdptLevel(t: Tables, ghost p: nat, x: Indexes, address: nat, protection: Protection) returns (s: Step)
    requires NoHugePages(t) && Here(t, p, x, address) && protection == PageProtection(t, p)
    requires Pml4e(t, x.pml4).p
    ensures Stepped(t, p, x, s)
    ensures s.Below? ==> HasPdpte(t, RegionOf1G(s.x))
  {
    hide Up, In, Reached, ScanResult, PageProtection, Walk, NoHugePages;
    Regions(x);
    if Pdpte(t, RegionOf1G(x)).p { return Below(x); }
    AbsentPdpte(t, RegionOf1G(x), PageOf(x));
    if protection != NoAccess { FoundHere(t, p, x, address); return Return(address); }
    var n := ScanPdpt(t, x.pml4, x.pdpt);
    PdptPassed(t, p, x, address, n);
    if n < 512 { return Below(x.(pdpt := n, pd := 0, pt := 0)); }
    var from := x.(pdpt := 0, pd := 0, pt := 0);
    Carries(from);
    s := Onward(t, p, x, from, 0x800_0000, NextPml4e(from));
  }

  lemma PdptPassed(t: Tables, p: nat, x: Indexes, address: nat, n: nat)
    requires NoHugePages(t) && Here(t, p, x, address) && PageProtection(t, p) == NoAccess
    requires x.pdpt < n <= 512 && !HasPdpte(t, RegionOf1G(x))
    requires forall q: nat | RegionOf1G(x) < Up(Up(q)) < 512 * x.pml4 + n :: PageProtection(t, q) == NoAccess
    ensures PageOf(x) < PageOf(x.(pdpt := n, pd := 0, pt := 0))
    ensures Reached(t, p, PageOf(x.(pdpt := n, pd := 0, pt := 0)))
    ensures n == 512 ==> PageOf(x.(pdpt := n, pd := 0, pt := 0)) == PageOf(x.(pdpt := 0, pd := 0, pt := 0)) + 0x800_0000
  {
    hide Up, In, Reached, Walk, PageProtection;
    Regions(x);
    GapPdpte(t, PageOf(x), 512 * x.pml4 + n);
    AdvanceHere(t, p, x, address, 512 * (512 * x.pml4 + n));
  }

  method PdLevel(t: Tables, ghost p: nat, x: Indexes, address: nat, protection: Protection) returns (s: Step)
    requires NoHugePages(t) && Here(t, p, x, address) && protection == PageProtection(t, p)
    requires HasPdpte(t, RegionOf1G(x))
    ensures Stepped(t, p, x, s)
    ensures s.Below? ==> HasPde(t, RegionOf2M(s.x))
  {
    hide Up, In, Reached, ScanResult, PageProtection, Walk, NoHugePages;
    Regions(x);
    if Pde(t, RegionOf2M(x)).p { return Below(x); }
    AbsentPde(t, RegionOf2M(x), PageOf(x));
    if protection != NoAccess { FoundHere(t, p, x, address); return Return(address); }
    var n := ScanPd(t, RegionOf1G(x), x.pd);
    PdPassed(t, p, x, address, n);
    if n < 512 { return Below(x.(pd := n, pt := 0)); }
    var from := x.(pd := 0, pt := 0);
    Carries(from);
    s := Onward(t, p, x, from, 0x4_0000, NextPdpte(from));
  }

  lemma PdPassed(t: Tables, p: nat, x: Indexes, address: nat, n: nat)
    requires NoHugePages(t) && Here(t, p, x, address) && PageProtection(t, p) == NoAccess
    requires x.pd < n <= 512 && !HasPde(t, RegionOf2M(x))
    requires forall q: nat | RegionOf2M(x) < Up(q) < 512 * RegionOf1G(x) + n :: PageProtection(t, q) == NoAccess
    ensures PageOf(x) < PageOf(x.(pd := n, pt := 0))
    ensures Reached(t, p, PageOf(x.(pd := n, pt := 0)))
    ensures n == 512 ==> PageOf(x.(pd := n, pt := 0)) == PageOf(x.(pd := 0, pt := 0)) + 0x4_0000
  {
    hide Up, In, Reached, Walk, PageProtection;
    Regions(x);
    GapPde(t, PageOf(x), 512 * RegionOf1G(x) + n);
    AdvanceHere(t, p, x, address, 512 * RegionOf1G(x) + n);
  }

  method LargeLevel(t: Tables, ghost p: nat, x: Indexes, address: nat, protection: Protection) returns (s: Step)
    requires NoHugePages(t) && Here(t, p, x, address) && protection == PageProtection(t, p)
    requires HasPde(t, RegionOf2M(x)) && Pde(t, RegionOf2M(x)).ps
    ensures Stepped(t, p, x, s) && !s.Below?
  {
    hide Up, In, Reached, ScanResult, PageProtection, Walk, NoHugePages;
    Regions(x);
    LargePage(t, RegionOf2M(x), PageOf(x));
    if protection == NoAccess { FoundHere(t, p, x, address); return Return(address); }
    if Pde(t, RegionOf2M(x)).rw && protection != ExecuteReadWrite {
      FoundHere(t, p, x, address);
      return Return(address);
    }
    LeaveLarge(t, p, PageOf(x));
    Carries(x);
    s := Onward(t, p, x, x, 512, NextPde(x));
  }

  /** The last level: an absent page table entry. */
  method PtLevel(t: Tables, ghost p: nat, x: Indexes, address: nat, protection: Protection) returns (s: Step)
    requires NoHugePages(t) && Here(t, p, x, address) && protection == PageProtection(t, p)
    requires HasPde(t, RegionOf2M(x)) && !Pde(t, RegionOf2M(x)).ps && Up(PageOf(x)) == RegionOf2M(x)
    ensures Stepped(t, p, x, s)
    ensures s.Below? ==> RegionOf2M(s.x) == RegionOf2M(x) && Up(PageOf(s.x)) == RegionOf2M(x)
    ensures s.Below? ==> Pte(t, PageOf(s.x)).p
  {
    hide Up, In, Reached, ScanResult, PageProtection, Walk, NoHugePages;
    if Pte(t, PageOf(x)).p { return Below(x); }
    SmallPage(t, PageOf(x));
    if protection != NoAccess { FoundHere(t, p, x, address); return Return(address); }
    var n := ScanPt(t, RegionOf2M(x), x.pt);
    PtPassed(t, p, x, address, n);
    if n < 512 { return Below(x.(pt := n)); }
    var from := x.(pt := 0);
    Carries(from);
    s := Onward(t, p, x, from, 512, NextPde(from));
  }

  lemma PtPassed(t: Tables, p: nat, x: Indexes, address: nat, n: nat)
    requires NoHugePages(t) && Here(t, p, x, address) && PageProtection(t, p) == NoAccess
    requires HasPde(t, RegionOf2M(x)) && !Pde(t, RegionOf2M(x)).ps
    requires x.pt < n <= 512 && PageProtection(t, PageOf(x)) == NoAccess
    requires forall q: nat | 512 * RegionOf2M(x) + x.pt < q < 512 * RegionOf2M(x) + n ::
        PageProtection(t, q) == NoAccess
    requires n < 512 ==> PageProtection(t, 512 * RegionOf2M(x) + n) != NoAccess
    ensures PageOf(x) < PageOf(x.(pt := n))
    ensures Reached(t, p, PageOf(x.(pt := n)))
    ensures n == 512 ==> PageOf(x.(pt := n)) == PageOf(x.(pt := 0)) + 512
    ensures n < 512 ==> Up(PageOf(x.(pt := n))) == RegionOf2M(x) && Pte(t, PageOf(x.(pt := n))).p
  {
    hide Up, In, Reached, Walk, PageProtection, NoHugePages, Pte, Pde, PdeSlot, Here, IsLarge;
    var d := RegionOf2M(x);
    assert PageOf(x) == 512 * d + x.pt && PageOf(x.(pt := n)) == 512 * d + n;
    TableAbsent(t, d, x.pt, n);
    if n < 512 {
      NotLarge(t, d);
      AdvanceInTable(t, p, x, address, n);
      FoundInTable(t, d, n);
    } else {
      AdvanceHere(t, p, x, address, d + 1);
    }
  }

  lemma NotLarge(t: Tables, d: nat)
    requires HasPde(t, d) && !Pde(t, d).ps
    ensures !IsLarge(t, d)
  {
  }

  lemma TableAbsent(t: Tables, d: nat, l: nat, n: nat)
    requires PageProtection(t, 512 * d + l) == NoAccess
    requires forall q: nat | 512 * d + l < q < 512 * d + n :: PageProtection(t, q) == NoAccess
    ensures AllAbsent(t, 512 * d + l, 512 * d + n)
  {
    hide Up, In, Walk, PageProtection;
  }

  lemma FoundInTable(t: Tables, d: nat, n: nat)
    requires NoHugePages(t) && HasPde(t, d) && !Pde(t, d).ps && n < 512
    requires PageProtection(t, 512 * d + n) != NoAccess
    ensures Up(512 * d + n) == d && Pte(t, 512 * d + n).p
  {
    DivMod(512 * d + n, d, n);
    SmallPage(t, 512 * d + n);
  }

  /** The innermost level: the page has a present page-table entry. */
  method PresentPage(t: Tables, ghost p: nat, x: Indexes, address: nat, protection: Protection) returns (s: Step)
    requires NoHugePages(t) && Here(t, p, x, address) && protection == PageProtection(t, p)
    requires HasPde(t, RegionOf2M(x)) && !Pde(t, RegionOf2M(x)).ps && Up(PageOf(x)) == RegionOf2M(x)
    requires Pte(t, PageOf(x)).p
    ensures Stepped(t, p, x, s) && !s.Below?
  {
    hide Up, In, Reached, ScanResult, PageProtection, Walk, NoHugePages;
    Regions(x);
    SmallPage(t, PageOf(x));
    if protection == NoAccess { FoundHere(t, p, x, address); return Return(address); }
    if Pte(t, PageOf(x)).rw && protection != ExecuteReadWrite {
      FoundHere(t, p, x, address);
      return Return(address);
    }
    InTableOrNext(t, RegionOf2M(x), x.pt + 1);
    AdvanceSmall(t, p, PageOf(x));
    Carries(x);
    s := Onward(t, p, x, x, 1, NextPte(x));
  }

  /** One time round the loop, from the indexes of `start`. */
  method Round(t: Tables, ghost p: nat, x0: Indexes, start: nat, protection: Protection) returns (s: Step)
    requires NoHugePages(t) && Here(t, p, x0, start) && protection == PageProtection(t, p)
    ensures Stepped(t, p, x0, s) && !s.Below?
  {
    hide Up, In, Reached, ScanResult, PageProtection, Walk, NoHugePages, PageAddress, PageIndex, PageOf, Digits, Pml4e,
        Pdpte, Pde, Pte, RegionOf1G, RegionOf2M;
    var x, address := x0, start;
    s := Pml4Level(t, p, x, address, protection);
    if s.Return? { return; }
    x, address := s.x, At(s.x, x, address);
    s := PdptLevel(t, p, x, address, protection);
    if !s.Below? { return; }
    x, address := s.x, At(s.x, x, address);
    s := PdLevel(t, p, x, address, protection);
    if !s.Below? { return; }
    x, address := s.x, At(s.x, x, address);
    Regions(x);
    if Pde(t, RegionOf2M(x)).ps {
      s := LargeLevel(t, p, x, address, protection);
      return;
    }
    s := PtLevel(t, p, x, address, protection);
    if !s.Below? { return; }
    x, address := s.x, At(s.x, x, address);
    s := PresentPage(t, p, x, address, protection);
  }

  method FindFirstDifferentAddress(t: Tables, start: nat) returns (r: nat, protection: Protection)
    requires NoHugePages(t)
    ensures protection == PageProtection(t, PageIndex(start))
    ensures ScanResult(t, PageIndex(start), r)
  {
    hide Up, In, Reached, ScanResult, PageProtection, Walk, NoHugePages, PageAddress, PageIndex;
    ghost var p := PageIndex(start);
    var address := start;
    protection := Unset;
    while true
      invariant protection == if protection.Unset? then Unset else PageProtection(t, p)
      invariant if protection.Unset? then address == start
                else Reached(t, p, PageIndex(address)) && address == PageAddress(PageIndex(address))
      decreases PAGES - PageIndex(address)
    {
      var x := VirtualAddressToIndexes(address);
      SplitIs(address);
      if protection.Unset? {
        protection := InitialProtection(t, x);
      }
      var s := Round(t, p, x, address, protection);
      if s.Return? { return s.result, protection; }
      address := s.next;
    }
  }

  /** `address` is only written when a loop found another table entry. */
  function At(y: Indexes, x: Indexes, address: nat): (r: nat)
    requires Digits(y)
    ensures y == x ==> r == address
    ensures y != x ==> r == PageAddress(PageOf(y))
  {
    AddressOf(y);
    if y == x then address else IndexesToVirtualAddress(y, 0)
  }

  /** A 4 KB page that does not differ is left behind. */
  lemma AdvanceSmall(t: Tables, p: nat, c: nat)
    requires !IsLarge(t, Up(c)) && (c == p || Reached(t, p, c))
    requires !Differs(t, PageProtection(t, p), c)
    requires IsLarge(t, Up(c + 1)) ==> In(c + 1) == 0
    ensures Reached(t, p, c + 1)
  {
    hide Up, In;
    if c != p && InRun(t, p, c) { RunEnds(t, p, c); }
    Advance(t, p, c, c + 1);
  }

  /** One page further is in the same page table or starts the next region. */
  lemma InTableOrNext(t: Tables, d: nat, n: nat)
    requires 0 < n <= 512 && !IsLarge(t, d)
    ensures IsLarge(t, Up(512 * d + n)) ==> In(512 * d + n) == 0
  {
    hide Up, In;
    if n < 512 { UpIs(512 * d + n, d, n); } else { UpIs(512 * d + n, d + 1, 0); }
  }

  /** A 2 MB page that does not differ is left behind, in the run or after it. */
  lemma LeaveLarge(t: Tables, p: nat, c: nat)
    requires NoHugePages(t) && IsLarge(t, Up(c)) && (c == p || Reached(t, p, c)) && c < PAGES
    requires !Differs(t, PageProtection(t, p), c)
    ensures Reached(t, p, c + 512)
  {
    hide Up, In, Live, InRun, PageProtection, Walk;
    if c == p || InRun(t, p, c) {
      AdvanceLarge(t, p, c);
    } else {
      LeaveLargeLive(t, p, c);
    }
  }

  lemma LeaveLargeLive(t: Tables, p: nat, c: nat)
    requires NoHugePages(t) && IsLarge(t, Up(c)) && Reached(t, p, c) && Live(t, p, c) && c < PAGES
    requires !Differs(t, PageProtection(t, p), c)
    ensures Reached(t, p, c + 512)
  {
    hide Up, In, InRun, Skipped, PageProtection, Walk;
    forall q: nat | c <= q < c + 512 ensures !Differs(t, PageProtection(t, p), q) {
      LargePage(t, Up(c), c);
      LargePage(t, Up(c), q);
    }
    Advance(t, p, c, c + 512);
  }

  // ----- The scan against the linear scan -----

  lemma LinearResultUnique(t: Tables, p: nat, r: nat, s: nat)
    requires LinearResult(t, p, r) && LinearResult(t, p, s)
    ensures r == s
  {
    hide Up, In, PageProtection;
    if r != 0 && s != 0 {
      var q: nat :| p < q < PAGES && r == PageAddress(q) && IsLeast(t, p, q);
      var m: nat :| p < m < PAGES && s == PageAddress(m) && IsLeast(t, p, m);
      assert q == m;
    }
  }

  /** From a start that is not strictly inside a 2 MB page, the scan is the linear scan. */
  lemma ScanIsLinear(t: Tables, p: nat, r: nat)
    requires ScanResult(t, p, r) && (In(p) == 0 || !IsLarge(t, Up(p)))
    ensures LinearResult(t, p, r)
  {
    hide Up, In, PageProtection;
    if r != 0 {
      var q: nat :| p < q < PAGES && r == PageAddress(q) && IsNext(t, p, q);
      assert IsLeast(t, p, q);
    }
  }

  lemma LinearIsScan(t: Tables, p: nat, r: nat)
    requires LinearResult(t, p, r) && In(p) == 0
    ensures ScanResult(t, p, r)
  {
    hide Up, In, PageProtection;
    if r != 0 {
      var q: nat :| p < q < PAGES && r == PageAddress(q) && IsLeast(t, p, q);
      assert IsNext(t, p, q);
    }
  }

  /** From any start, the two agree exactly when the first differing page is not one jumped over. */
  lemma ScanIsLinearExactly(t: Tables, p: nat, r: nat)
    requires ScanResult(t, p, r)
    ensures LinearResult(t, p, r) <==> forall q: nat | p < q < PAGES && IsLeast(t, p, q) :: !Skipped(t, p, q)
  {
    hide Up, In, PageProtection;
    if LinearResult(t, p, r) {
      forall q: nat | p < q < PAGES && IsLeast(t, p, q) ensures !Skipped(t, p, q) {
        assert LinearResult(t, p, PageAddress(q));
        LinearResultUnique(t, p, r, PageAddress(q));
        var m: nat :| p < m < PAGES && r == PageAddress(m) && IsNext(t, p, m);
        assert m == q;
      }
    } else {
      var q := FirstDiffering(t, p, r);
      assert Skipped(t, p, q);
    }
  }

  /** A scan that misses the linear result has a first differing page, and jumped over it. */
  lemma FirstDiffering(t: Tables, p: nat, r: nat) returns (q: nat)
    requires ScanResult(t, p, r) && !LinearResult(t, p, r)
    ensures p < q < PAGES && IsLeast(t, p, q) && Skipped(t, p, q)
  {
    hide Up, In, PageProtection, Skipped;
    var last: nat;
    if r == 0 {
      last :| p < last < PAGES && Differs(t, PageProtection(t, p), last);
    } else {
      last :| p < last < PAGES && r == PageAddress(last) && IsNext(t, p, last);
    }
    q := p + 1;
    while !Differs(t, PageProtection(t, p), q)
      invariant p < q <= last
      invariant forall m: nat | p < m < q :: !Differs(t, PageProtection(t, p), m)
      decreases last - q
    {
      q := q + 1;
    }
    assert IsLeast(t, p, q);
  }

  /** Tables holding one 2 MB page, at region d, and nothing else. */
  function OneLargePage(d: nat): Tables
    requires d < 0x800_0000
  {
    Tables(seq(1536, n =>
      if n == Up(Up(d)) then Entry(true, true, false, false, 1, 0)
      else if n == 512 + In(Up(d)) then Entry(true, true, false, false, 2, 0)
      else if n == 1024 + In(d) then Entry(true, true, false, true, 0, 0)
      else ABSENT), 0)
  }

  lemma OneLargePageIs(d: nat, e: nat)
    requires d < 0x800_0000 && e < 0x800_0000
    ensures Up(Up(d)) < 512
    ensures HasPde(OneLargePage(d), e) <==> e == d
    ensures IsLarge(OneLargePage(d), d)
  {
    hide Up, In;
    var t := OneLargePage(d);
    var g, h := Up(d), Up(e);
    assert In(Up(g)) == Up(g) && In(Up(h)) == Up(h) by { assert Up(Up(g)) == 0 && Up(Up(h)) == 0; }
    assert Pml4e(t, Up(g)).p && PdpteSlot(t, g) == 512 + In(g);
    assert HasPdpte(t, g) && PdeSlot(t, d) == 1024 + In(d);
    if HasPde(t, e) {
      assert Up(h) == Up(g);
      assert PdpteSlot(t, h) == 512 + In(h);
      assert In(h) == In(g);
      assert PdeSlot(t, e) == 1024 + In(e);
      assert In(e) == In(d);
    }
  }

  /** For which starts the scan is the linear scan whatever the tables hold: those on a 2 MB
      boundary, and those in the last 2 MB, where nothing is left to jump over. */
  lemma StartsExactly(p: nat)
    requires p < PAGES
    ensures (forall t, r | NoHugePages(t) && ScanResult(t, p, r) :: LinearResult(t, p, r))
            <==> In(p) == 0 || Up(p) == 0x7FF_FFFF
  {
    hide Up, In, ScanResult, LinearResult, PageProtection, NoHugePages, OneLargePage;
    if In(p) == 0 || Up(p) == 0x7FF_FFFF {
      forall t, r | NoHugePages(t) && ScanResult(t, p, r) ensures LinearResult(t, p, r) {
        if In(p) == 0 { ScanIsLinear(t, p, r); } else { LastRegion(t, p, r); }
      }
    } else {
      InsideLargePage(p);
    }
  }

  lemma LastRegion(t: Tables, p: nat, r: nat)
    requires ScanResult(t, p, r) && Up(p) == 0x7FF_FFFF
    ensures LinearResult(t, p, r)
  {
    hide Up, In, PageProtection, LinearResult, ScanResult;
    ScanIsLinearExactly(t, p, r);
  }

  /** A concrete failure for every other start: one 2 MB page around it, and nothing after. */
  lemma InsideLargePage(p: nat)
    requires In(p) != 0 && Up(p) < 0x7FF_FFFF
    ensures var t := OneLargePage(Up(p));
            var r := PageAddress(512 * (Up(p) + 1) + In(p));
            NoHugePages(t) && ScanResult(t, p, r) && !LinearResult(t, p, r)
            && LinearResult(t, p, PageAddress(512 * (Up(p) + 1)))
  {
    hide Up, In, PageProtection, Walk, OneLargePage;
    var d := Up(p);
    var t := OneLargePage(d);
    OneLargePageIs(d, d);
    OneLargePageFlat(d);
    var q, head := 512 * (d + 1) + In(p), 512 * (d + 1);
    LargePage(t, d, p);
    forall m: nat | p < m < PAGES
      ensures PageProtection(t, m) == if Up(m) == d then PageProtection(t, p) else NoAccess
    {
      assert Up(m) < 0x800_0000;
      OneLargePageIs(d, Up(m));
      if Up(m) == d { LargePage(t, d, m); } else { AbsentPde(t, Up(m), m); }
    }
    assert Up(q) == d + 1 && In(q) == In(p) && Up(head) == d + 1;
    assert IsLeast(t, p, head);
    assert IsNext(t, p, q) by {
      forall m: nat | p < m < q && Differs(t, PageProtection(t, p), m) ensures Skipped(t, p, m) {
        assert Up(m) == d + 1;
      }
    }
    assert PageAddress(q) != PageAddress(head);
    if LinearResult(t, p, PageAddress(q)) { LinearResultUnique(t, p, PageAddress(q), PageAddress(head)); }
  }

  lemma OneLargePageFlat(d: nat)
    requires d < 0x800_0000
    ensures NoHugePages(OneLargePage(d))
  {
    hide Up, In;
    var t := OneLargePage(d);
    OneLargePageIs(d, d);
    forall g: nat | HasPdpte(t, g) ensures !Pdpte(t, g).ps {
      assert PdpteSlot(t, g) == 512 + In(g);
    }
  }

  // ----- The scan against the first change of protection -----

  /** One table that is its own at every level: page 0 is read-write, page 1 read-only, page 2 not mapped. */
  const LOSING_WRITE := Tables([Entry(true, true, false, false, 0, 0), Entry(true, false, false, false, 0, 0)], 0)

  lemma LosingWriteEntry(slot: nat)
    ensures !ReadSlot(LOSING_WRITE.mem, slot).ps
  {
  }

  lemma LosingWriteIs()
    ensures NoHugePages(LOSING_WRITE)
    ensures PageProtection(LOSING_WRITE, 0) == ExecuteReadWrite && PageProtection(LOSING_WRITE, 1) == ExecuteRead
    ensures PageProtection(LOSING_WRITE, 2) == NoAccess
  {
    hide Up, In, Walk, NoHugePages;
    LosingWriteNoHuge();
    OwnTable(LOSING_WRITE, LOSING_WRITE.mem[0], 0);
    OwnTable(LOSING_WRITE, LOSING_WRITE.mem[0], 1);
    OwnTable(LOSING_WRITE, LOSING_WRITE.mem[0], 2);
  }

  /** The walk of a page whose tables are all the one in frame 0. */
  lemma OwnTable(t: Tables, e: Entry, q: nat)
    requires t.root == 0 && ReadSlot(t.mem, 0) == e && e.p && !e.ps && e.frame == 0 && q < 512
    ensures Walk(t, q) == if ReadSlot(t.mem, q).p then Small(q) else Unmapped
  {
    hide Up, In, ReadSlot;
    UpIs(0, 0, 0);
    UpIs(q, 0, q);
    assert Pml4Slot(t, 0) == 0 && Pml4e(t, 0) == e;
    assert PdpteSlot(t, 0) == 0 && Pdpte(t, 0) == e;
    assert PdeSlot(t, 0) == 0 && Pde(t, 0) == e;
    assert PteSlot(t, q) == q;
  }

  lemma LosingWriteNoHuge()
    ensures NoHugePages(LOSING_WRITE)
  {
    hide Up, In, LOSING_WRITE, ReadSlot;
    forall g: nat | HasPdpte(LOSING_WRITE, g) ensures !Pdpte(LOSING_WRITE, g).ps {
      LosingWriteEntry(PdpteSlot(LOSING_WRITE, g));
    }
  }

  /** What a scan stops at is a change of protection for all tables and all its starts, unless it starts on a
      read-write page; then a read-only page is a change it does not stop at. */
  lemma StopsAtChangesExactly(from: Protection)
    requires !from.Unset?
    ensures (forall t, p, q | NoHugePages(t) && PageProtection(t, p) == from ::
               Differs(t, from, q) <==> PageProtection(t, q) != from)
            <==> from != ExecuteReadWrite
  {
    hide PageProtection, NoHugePages, LOSING_WRITE;
    LosingWriteIs();
    if from == ExecuteReadWrite {
      assert PageProtection(LOSING_WRITE, 0) == from;
      assert !Differs(LOSING_WRITE, from, 1) && PageProtection(LOSING_WRITE, 1) != from;
    }
  }

  /** Page q is the first after p whose protection is another. */
  ghost predicate FirstChange(t: Tables, p: nat, q: nat) {
    && p < q < PAGES && PageProtection(t, q) != PageProtection(t, p)
    && forall m: nat | p < m < q :: PageProtection(t, m) == PageProtection(t, p)
  }

  /** `r` is the address of the first page whose protection is another, or 0. */
  ghost predicate ChangeResult(t: Tables, p: nat, r: nat) {
    if r == 0 then forall q: nat | p < q < PAGES :: !FirstChange(t, p, q)
    else exists q: nat | p < q < PAGES && r == PageAddress(q) :: FirstChange(t, p, q)
  }

  /** The first change is one from read-write to read-only. */
  ghost predicate LosesWriteFirst(t: Tables, p: nat) {
    exists q: nat :: FirstChange(t, p, q) && PageProtection(t, p) == ExecuteReadWrite
        && PageProtection(t, q) == ExecuteRead
  }

  /** A linear result is the first change of protection exactly when that change is not the loss of write access. */
  lemma ReportsChangeExactly(t: Tables, p: nat, r: nat)
    requires LinearResult(t, p, r)
    ensures ChangeResult(t, p, r) <==> !LosesWriteFirst(t, p)
  {
    hide PageProtection;
    if LosesWriteFirst(t, p) {
      var q: nat :| FirstChange(t, p, q) && PageProtection(t, p) == ExecuteReadWrite
          && PageProtection(t, q) == ExecuteRead;
      if r != 0 {
        var m: nat :| p < m < PAGES && r == PageAddress(m) && IsLeast(t, p, m);
        forall n: nat | FirstChange(t, p, n) ensures n == q { OneFirstChange(t, p, n, q); }
        assert m != q;
      }
    } else if r == 0 {
      forall q: nat | p < q < PAGES ensures !FirstChange(t, p, q) {
        assert !Differs(t, PageProtection(t, p), q);
      }
    } else {
      var m: nat :| p < m < PAGES && r == PageAddress(m) && IsLeast(t, p, m);
      var q := EarliestChange(t, p, m);
      assert Differs(t, PageProtection(t, p), q);
    }
  }

  /** Tables on which the scan from address 0 misses the first change and returns the second. */
  lemma MissesLostWrite()
    ensures var t := LOSING_WRITE;
            && NoHugePages(t) && LosesWriteFirst(t, 0) && !ChangeResult(t, 0, PageAddress(2))
            && forall r: nat :: ScanResult(t, 0, r) <==> r == PageAddress(2)
  {
    hide PageProtection, NoHugePages, LOSING_WRITE, Up, In, ScanResult, LinearResult, ChangeResult, PageAddress;
    var t := LOSING_WRITE;
    LosingWriteIs();
    assert FirstChange(t, 0, 1);
    LosingWriteLinear();
    ReportsChangeExactly(t, 0, PageAddress(2));
    UpIs(0, 0, 0);
    forall r: nat ensures ScanResult(t, 0, r) <==> r == PageAddress(2) {
      if ScanResult(t, 0, r) {
        ScanIsLinear(t, 0, r);
        LinearResultUnique(t, 0, r, PageAddress(2));
      }
      if r == PageAddress(2) {
        LinearIsScan(t, 0, PageAddress(2));
      }
    }
  }

  lemma LosingWriteLinear()
    ensures LinearResult(LOSING_WRITE, 0, PageAddress(2))
  {
    hide PageProtection, LOSING_WRITE;
    LosingWriteIs();
    assert IsLeast(LOSING_WRITE, 0, 2);
  }

  lemma OneFirstChange(t: Tables, p: nat, q: nat, m: nat)
    requires FirstChange(t, p, q) && FirstChange(t, p, m)
    ensures q == m
  {
    hide PageProtection;
  }

  lemma EarliestChange(t: Tables, p: nat, m: nat) returns (q: nat)
    requires p < m < PAGES && Differs(t, PageProtection(t, p), m)
    ensures FirstChange(t, p, q) && q <= m
  {
    hide PageProtection;
    q := p + 1;
    while PageProtection(t, q) == PageProtection(t, p)
      invariant p < q <= m
      invariant forall n: nat | p < n < q :: PageProtection(t, n) == PageProtection(t, p)
      decreases m - q
    {
      q := q + 1;
    }
  }
}
