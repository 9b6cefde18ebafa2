/** The tables of physical addresses DBKKernel/ultimap2.c builds for Intel Processor Trace
    (Intel SDM Volume 3C, "Table of Physical Addresses (ToPA)"), the hardware that walks them,
    and the byte count the writer thread recovers from the hardware's two pointers. */
module TopaLayout {
  import Paging

  /** ToPA_ENTRY; size s stands for a region of 4096 << s bytes. */
  datatype Entry = Entry(end: bool, int_: bool, stop: bool, size: nat, frame: nat)

  /** Table number and place in the table of entry e. */
  function TableOf(e: nat): (t: nat)
    ensures 512 * t <= e < 512 * t + 512
  {
    e / 512
  }

  predicate IsLink(e: nat) { (e + 1) % 512 == 0 }

  lemma Place(t: nat, j: nat)
    requires j < 512
    ensures TableOf(512 * t + j) == t && (IsLink(512 * t + j) <==> j == 511)
  {
  }

  /** The buffer page entry e stands for, links not counted. */
  function PageOf(e: nat): (k: int)
    ensures k >= 0
  {
    e - TableOf(e)
  }

  function HeaderCount(bufferSize: nat): (n: nat)
    ensures n > 0
  {
    1 + bufferSize / 4096 / 511
  }

  function HeaderSize(bufferSize: nat): nat { HeaderCount(bufferSize) * 4096 }

  /** Pages the buffer occupies. */
  function Pages(bufferSize: nat): nat { (bufferSize + 4095) / 4096 }

  lemma LoopGuard(bufferSize: nat, out: nat)
    ensures 4096 * out < bufferSize <==> out < Pages(bufferSize)
  {
  }

  /** One table for every started 511 whole pages, and one to spare when there is nothing over. */
  lemma HeaderCountIs(bufferSize: nat)
    ensures 511 * 4096 * (HeaderCount(bufferSize) - 1) <= bufferSize < 511 * 4096 * HeaderCount(bufferSize)
    ensures HeaderSize(bufferSize) == 4096 * HeaderCount(bufferSize)
  {
    var k, n := bufferSize / 4096, HeaderCount(bufferSize);
    assert 4096 * k <= bufferSize < 4096 * (k + 1);
    assert 511 * (n - 1) <= k < 511 * n;
  }

  /** The tables reserved are enough for every page the loop still has to list. */
  lemma HeaderFits(bufferSize: nat, out: nat, t: nat)
    requires 4096 * out < bufferSize && 511 * t <= out
    ensures t < HeaderCount(bufferSize) && 512 * (t + 1) <= HeaderSize(bufferSize) / 8
  {
    assert out <= bufferSize / 4096;
    var n := HeaderCount(bufferSize);
    assert t <= bufferSize / 4096 / 511;
    assert HeaderSize(bufferSize) / 8 == 512 * n;
  }

  /** Index of the entry the first interrupt is asked for, `last` being the final entry. */
  function FirstInterrupt(last: nat): (i: nat)
  {
    var i := last * 90 / 100;
    var i := if i == last && i > 0 then i - 1 else i;
    if i > 0 && (i + 1) % 512 == 0 then i - 1 else i
  }

  /** Entries that raise the buffer interrupt: one at about 90%, then every second one that is no link. */
  predicate Interrupts(e: int, last: nat, noPMI: bool) {
    var i := FirstInterrupt(last);
    !noPMI && (e == i || (i <= e < last - 1 && (e - i) % 2 == 0 && (e + 1) % 512 != 0))
  }

  /** No interrupt on a link, nor on the final entry unless it is the only one, and at least one unless PMIs are off. */
  lemma InterruptsWellPlaced(last: nat, noPMI: bool)
    ensures forall e: nat | Interrupts(e, last, noPMI) :: e <= last && !IsLink(e) && (last > 0 ==> e < last)
    ensures !noPMI ==> Interrupts(FirstInterrupt(last), last, noPMI)
  {
  }

  /** The first of them is at 90% of the entries, rounded down, or one before where that is a link. */
  lemma FirstInterruptAt(last: nat)
    requires last > 0
    ensures var i := FirstInterrupt(last);
            && !IsLink(i)
            && (10 * i <= 9 * last < 10 * (i + 1) || (10 * (i + 1) <= 9 * last < 10 * (i + 2) && IsLink(i + 1)))
  {
    var i := last * 90 / 100;
    assert 100 * i <= 90 * last < 100 * (i + 1);
  }

  /** RtlInsertElementGenericTable: an element with an equal key stays. */
  function Insert(table: map<nat, nat>, key: nat, index: nat): map<nat, nat> {
    if key in table then table else table[key := index]
  }

  // ----- What setupToPA builds -----

  /** Where the header and buffer pages lie in physical memory. */
  datatype Memory = Memory(headers: seq<nat>, buffer: seq<nat>)

  predicate Distinct(s: seq<nat>) {
    forall i, j | 0 <= i < j < |s| :: s[i] != s[j]
  }

  predicate Allocated(m: Memory, bufferSize: nat) {
    && |m.headers| == HeaderCount(bufferSize) && |m.buffer| == Pages(bufferSize)
    && Distinct(m.headers) && Distinct(m.buffer)
  }

  /** Entry e as it should be, its interrupt and stop bits aside. */
  predicate Lists(x: Entry, m: Memory, e: nat) {
    if IsLink(e) then x.end && TableOf(e) + 1 < |m.headers| && x.frame == m.headers[TableOf(e) + 1]
    else !x.end && x.size == 0 && PageOf(e) < |m.buffer| && x.frame == m.buffer[PageOf(e)]
  }

  /** The lookup table holds exactly the first n tables' addresses, each with its number. */
  ghost predicate Indexed(table: map<nat, nat>, headers: seq<nat>, n: nat) {
    && n <= |headers|
    && (forall t | 0 <= t < n :: 4096 * headers[t] in table && table[4096 * headers[t]] == t)
    && forall key | key in table :: exists t :: 0 <= t < n && key == 4096 * headers[t]
  }

  lemma IndexedMore(table: map<nat, nat>, headers: seq<nat>, n: nat)
    requires Indexed(table, headers, n) && n < |headers| && Distinct(headers)
    ensures Indexed(Insert(table, 4096 * headers[n], n), headers, n + 1)
  {
    assert 4096 * headers[n] !in table;
    var after := Insert(table, 4096 * headers[n], n);
    forall key | key in after ensures exists t :: 0 <= t < n + 1 && key == 4096 * headers[t] {
      if key in table {
        var t :| 0 <= t < n && key == 4096 * headers[t];
      }
    }
  }

  /** Everything setupToPA promises about its tables; entry `last` is the final one. */
  ghost predicate Layout(r: seq<Entry>, m: Memory, table: map<nat, nat>, last: nat, noPMI: bool) {
    && last < |r| && |r| == 512 * |m.headers|
    && !IsLink(last) && PageOf(last) == |m.buffer| - 1
    && (forall e: nat | e <= last :: Lists(r[e], m, e))
    && (forall e: nat | e <= last :: (r[e].stop <==> e == last) && (r[e].int_ <==> Interrupts(e, last, noPMI)))
    && Indexed(table, m.headers, TableOf(last) + 1)
  }

  lemma Next(e: nat)
    ensures if IsLink(e) then TableOf(e + 1) == TableOf(e) + 1 && PageOf(e + 1) == PageOf(e) && !IsLink(e + 1)
            else TableOf(e + 1) == TableOf(e) && PageOf(e + 1) == PageOf(e) + 1
    ensures 511 * TableOf(e) <= PageOf(e)
  {
    var t := TableOf(e);
    Place(t, e - 512 * t);
    if IsLink(e) { Place(t + 1, 0); } else { Place(t, e + 1 - 512 * t); }
  }

  /** One table entry per page of the buffer, and one link after every 511 of them. */
  method FillEntries(r: array<Entry>, m: Memory, bufferSize: nat) returns (table: map<nat, nat>, last: nat)
    requires bufferSize > 0 && Allocated(m, bufferSize) && r.Length == HeaderSize(bufferSize) / 8
    modifies r
    ensures last < r.Length && !IsLink(last) && PageOf(last) == |m.buffer| - 1
    ensures forall e: nat | e <= last :: Lists(r[e], m, e) && !r[e].stop && !r[e].int_
    ensures Indexed(table, m.headers, TableOf(last) + 1)
  {
    hide TableOf, IsLink, PageOf, HeaderCount, HeaderSize, Pages, Indexed, Insert;
    var index, output, tl := 0, 0, 0;
    table := Insert(map[], 4096 * m.headers[0], 0);
    Start(table, m.headers);
    LoopGuard(bufferSize, 0);
    while 4096 * output < bufferSize
      invariant output == PageOf(index) <= |m.buffer| && tl == TableOf(index) && index <= r.Length
      invariant forall e: nat | e < index :: Lists(r[e], m, e) && !r[e].stop && !r[e].int_
      invariant Indexed(table, m.headers, tl + 1)
      invariant index > 0 && 4096 * output >= bufferSize ==>
          !IsLink(index - 1) && PageOf(index - 1) == output - 1 && TableOf(index - 1) == tl
      decreases |m.buffer| - output, if IsLink(index) then 1 else 0
    {
      Next(index);
      HeaderFits(bufferSize, output, tl);
      LoopGuard(bufferSize, output);
      if (index + 1) % 512 == 0 {
        assert IsLink(index);
        LinkFits(bufferSize, output, index);
        r[index] := Entry(true, false, false, 0, m.headers[tl + 1]);
        tl := tl + 1;
        IndexedMore(table, m.headers, tl);
        table := Insert(table, 4096 * m.headers[tl], tl);
      } else {
        r[index] := Entry(false, false, false, 0, m.buffer[output]);
        output := output + 1;
        LoopGuard(bufferSize, output);
      }
      index := index + 1;
    }
    LoopGuard(bufferSize, output);
    last := index - 1;
  }

  lemma Start(table: map<nat, nat>, headers: seq<nat>)
    requires |headers| > 0 && table == Insert(map[], 4096 * headers[0], 0)
    ensures Indexed(table, headers, 1) && TableOf(0) == 0 && PageOf(0) == 0
  {
  }

  /** A link is written only when there is another page, and then another table. */
  lemma LinkFits(bufferSize: nat, out: nat, e: nat)
    requires 4096 * out < bufferSize && IsLink(e) && out == PageOf(e)
    ensures TableOf(e) + 1 < HeaderCount(bufferSize)
  {
    var t := TableOf(e);
    Place(t, e - 512 * t);
    HeaderFits(bufferSize, out, t + 1);
  }

  /** The state of the interrupt loop: entries before `upTo` have been decided. */
  ghost predicate Marked(r: seq<Entry>, before: seq<Entry>, last: nat, noPMI: bool, upTo: int) {
    && last < |r| == |before|
    && (forall e: nat | e <= last :: r[e].(int_ := false) == before[e].(int_ := false))
    && forall e: nat | e <= last :: r[e].int_ <==>
         Interrupts(e, last, noPMI) && (e == FirstInterrupt(last) || e < upTo)
  }

  /** One round of the interrupt loop: entry i is decided, and i + 1 is not asked for. */
  lemma MarkedStep(r: seq<Entry>, after: seq<Entry>, before: seq<Entry>, last: nat, noPMI: bool, i: nat)
    requires Marked(r, before, last, noPMI, i) && FirstInterrupt(last) <= i < last - 1
        && (i - FirstInterrupt(last)) % 2 == 0
    requires after == if (i + 1) % 512 != 0 && !noPMI then r[i := r[i].(int_ := true)] else r
    ensures Marked(after, before, last, noPMI, i + 2)
  {
    hide FirstInterrupt;
    assert !Interrupts(i + 1, last, noPMI);
    forall e: nat | e <= last
      ensures after[e].(int_ := false) == before[e].(int_ := false)
      ensures after[e].int_ <==> Interrupts(e, last, noPMI) && (e == FirstInterrupt(last) || e < i + 2)
    {
      assert r[e].(int_ := false) == before[e].(int_ := false);
    }
  }

  lemma MarkedFirst(before: seq<Entry>, last: nat, noPMI: bool)
    requires last < |before| && forall e: nat | e <= last :: !before[e].int_
    ensures var i := FirstInterrupt(last);
            i <= last && Marked(before[i := before[i].(int_ := !noPMI)], before, last, noPMI, i)
  {
    InterruptsWellPlaced(last, noPMI);
    InterruptsWellPlaced(last, false);
  }

  lemma MarkedAll(r: seq<Entry>, before: seq<Entry>, last: nat, noPMI: bool, i: nat)
    requires Marked(r, before, last, noPMI, i) && (last == 0 || i >= last - 1)
    ensures Marked(r, before, last, noPMI, last + 1)
  {
    hide FirstInterrupt;
    InterruptsWellPlaced(last, noPMI);
  }

  method RequestInterrupts(r: array<Entry>, last: nat, noPMI: bool)
    requires last < r.Length
    requires forall e: nat | e <= last :: !r[e].int_
    modifies r
    ensures Marked(r[..], old(r[..]), last, noPMI, last + 1)
  {
    hide Marked, Interrupts, FirstInterrupt;
    ghost var before := r[..];
    MarkedFirst(before, last, noPMI);
    var i := FirstInterrupt(last);
    r[i] := r[i].(int_ := !noPMI);
    assert r[..] == before[i := before[i].(int_ := !noPMI)];
    if last > 0 {
      while i < last - 1
        invariant FirstInterrupt(last) <= i <= last && (i - FirstInterrupt(last)) % 2 == 0
        invariant Marked(r[..], before, last, noPMI, i)
        decreases last - i
      {
        ghost var now := r[..];
        if (i + 1) % 512 != 0 && !noPMI {
          r[i] := r[i].(int_ := true);
        }
        assert r[..] == if (i + 1) % 512 != 0 && !noPMI then now[i := now[i].(int_ := true)] else now;
        MarkedStep(now, r[..], before, last, noPMI, i);
        i := i + 2;
      }
    }
    MarkedAll(r[..], before, last, noPMI, i);
  }

  method SetupToPA(r: array<Entry>, m: Memory, bufferSize: nat, noPMI: bool)
    returns (table: map<nat, nat>, ghost last: nat)
    requires bufferSize > 0 && Allocated(m, bufferSize) && r.Length == HeaderSize(bufferSize) / 8
    modifies r
    ensures Layout(r[..], m, table, last, noPMI)
  {
    hide TableOf, IsLink, PageOf, HeaderCount, HeaderSize, Pages, Indexed, Interrupts, FirstInterrupt;
    var toPAIndex: nat;
    table, toPAIndex := FillEntries(r, m, bufferSize);
    last := toPAIndex;
    r[toPAIndex] := r[toPAIndex].(stop := true);
    ghost var filled := r[..];
    RequestInterrupts(r, toPAIndex, noPMI);
    HeaderWords(bufferSize);
    Finished(filled, r[..], m, table, last, noPMI);
  }

  lemma HeaderWords(bufferSize: nat)
    ensures HeaderSize(bufferSize) / 8 == 512 * HeaderCount(bufferSize)
  {
  }

  lemma Finished(filled: seq<Entry>, r: seq<Entry>, m: Memory, table: map<nat, nat>, last: nat, noPMI: bool)
    requires Marked(r, filled, last, noPMI, last + 1) && |r| == 512 * |m.headers|
    requires !IsLink(last) && PageOf(last) == |m.buffer| - 1 && Indexed(table, m.headers, TableOf(last) + 1)
    requires forall e: nat | e <= last :: Lists(filled[e], m, e) && (filled[e].stop <==> e == last)
    ensures Layout(r, m, table, last, noPMI)
  {
    hide TableOf, IsLink, PageOf, Indexed, Interrupts, FirstInterrupt;
    forall e: nat | e <= last ensures Lists(r[e], m, e) && r[e].stop == filled[e].stop {
      assert r[e].(int_ := false) == filled[e].(int_ := false);
    }
    InterruptsWellPlaced(last, noPMI);
  }

  /** Which entries of a finished table raise the interrupt: the one at 90%, or the one before if that is a link, and
      from there up to the last but one every second one that is no link; none at all if PMIs are off. */
  lemma InterruptsFrom(r: seq<Entry>, m: Memory, table: map<nat, nat>, last: nat, noPMI: bool) returns (i: nat)
    requires Layout(r, m, table, last, noPMI)
    ensures i <= last && !IsLink(i)
    ensures last > 0 ==>
              10 * i <= 9 * last < 10 * (i + 1) || (10 * (i + 1) <= 9 * last < 10 * (i + 2) && IsLink(i + 1))
    ensures forall e: nat | e <= last ::
              r[e].int_ <==> !noPMI && (e == i || (i <= e <= last - 2 && (e - i) % 2 == 0 && !IsLink(e)))
  {
    i := FirstInterrupt(last);
    InterruptsWellPlaced(last, false);
    if last > 0 {
      FirstInterruptAt(last);
    }
    hide FirstInterrupt, Indexed, Lists, PageOf, TableOf;
  }

  // ----- What the layout means -----

  /** Entry number of buffer page k. */
  function EntryOf(k: nat): nat { k + k / 511 }

  lemma PageEntry(t: nat, j: nat)
    requires j < 511
    ensures EntryOf(511 * t + j) == 512 * t + j && PageOf(512 * t + j) == 511 * t + j
  {
    Place(t, j);
  }

  /** Non-link entries, in order, are the buffer's pages, each once. */
  lemma EveryPageOnce(r: seq<Entry>, m: Memory, table: map<nat, nat>, last: nat, noPMI: bool, k: nat)
    requires Layout(r, m, table, last, noPMI) && k < |m.buffer|
    ensures EntryOf(k) <= last && !IsLink(EntryOf(k)) && r[EntryOf(k)].frame == m.buffer[k]
    ensures forall e: nat | e <= last && !IsLink(e) && PageOf(e) == k :: e == EntryOf(k)
    ensures forall j: nat | j < k :: EntryOf(j) < EntryOf(k)
  {
    hide IsLink, TableOf, PageOf, Interrupts, FirstInterrupt, Indexed;
    SplitPage(k);
    SplitEntry(last);
    forall e: nat | e <= last && !IsLink(e) && PageOf(e) == k ensures e == EntryOf(k) {
      SplitEntry(e);
    }
  }

  lemma SplitPage(k: nat)
    ensures EntryOf(k) == 512 * (k / 511) + k % 511 && !IsLink(EntryOf(k)) && PageOf(EntryOf(k)) == k
    ensures TableOf(EntryOf(k)) == k / 511
  {
    PageEntry(k / 511, k % 511);
    Place(k / 511, k % 511);
  }

  lemma SplitEntry(e: nat)
    requires !IsLink(e)
    ensures e == EntryOf(PageOf(e))
  {
    var t := TableOf(e);
    Place(t, e - 512 * t);
    PageEntry(t, e - 512 * t);
  }

  // ----- The hardware -----

  /** IA32_RTIT_OUTPUT_BASE, the table offset and output offset of IA32_RTIT_OUTPUT_MASK_PTRS, and the Stopped flag. */
  datatype Pointers = Pointers(base: nat, index: nat, offset: nat, stopped: bool)

  /** The header page in the given frame. */
  function Find(headers: seq<nat>, frame: nat): (t: nat)
    ensures t <= |headers|
    ensures t < |headers| ==> headers[t] == frame
  {
    if headers == [] then 0 else if headers[0] == frame then 0 else 1 + Find(headers[1..], frame)
  }

  lemma {:induction false} Finds(headers: seq<nat>, t: nat)
    requires Distinct(headers) && t < |headers|
    ensures Find(headers, headers[t]) == t
  {
    if t > 0 {
      assert headers[0] != headers[t];
      Finds(headers[1..], t - 1);
    }
  }

  const NOTHING := Entry(true, false, false, 0, 0)

  /** The entry at physical address base + 8 * index. */
  function Fetch(r: seq<Entry>, headers: seq<nat>, base: nat, index: nat): Entry {
    var e := 512 * Find(headers, base / 4096) + index;
    if e < |r| then r[e] else NOTHING
  }

  function RegionSize(size: nat): nat { if size == 0 then 4096 else 2 * RegionSize(size - 1) }

  /** Physical address the next trace byte goes to. */
  function Target(r: seq<Entry>, headers: seq<nat>, s: Pointers): nat {
    4096 * Fetch(r, headers, s.base, s.index).frame + s.offset
  }

  /** One trace byte has been stored: a full region moves on to the next entry, or stops the trace. */
  function Stored(r: seq<Entry>, headers: seq<nat>, s: Pointers): Pointers {
    var e := Fetch(r, headers, s.base, s.index);
    if s.offset + 1 < RegionSize(e.size) then s.(offset := s.offset + 1)
    else if e.stop then s.(offset := s.offset + 1, stopped := true)
    else s.(index := s.index + 1, offset := 0)
  }

  /** An entry with its END bit set sends the hardware to another table. */
  function Followed(r: seq<Entry>, headers: seq<nat>, s: Pointers): Pointers {
    var e := Fetch(r, headers, s.base, s.index);
    if e.end && s.offset == 0 then Pointers(4096 * e.frame, 0, 0, s.stopped) else s
  }

  /** The pointers after n bytes, the last table switch made. */
  function AfterBytes(r: seq<Entry>, headers: seq<nat>, n: nat): Pointers
    requires |headers| > 0
  {
    if n == 0 then Pointers(4096 * headers[0], 0, 0, false)
    else Followed(r, headers, Stored(r, headers, AfterBytes(r, headers, n - 1)))
  }

  /** Byte o of buffer page 511 * t + j. */
  function At(m: Memory, t: nat, j: nat, o: nat): Pointers
    requires t < |m.headers|
  {
    Pointers(4096 * m.headers[t], j, o, false)
  }

  lemma FetchAt(r: seq<Entry>, headers: seq<nat>, t: nat, j: nat)
    requires |r| == 512 * |headers| && Distinct(headers) && t < |headers| && j < 512
    ensures Fetch(r, headers, 4096 * headers[t], j) == r[512 * t + j]
  {
    hide Distinct, Find;
    Finds(headers, t);
    assert 4096 * headers[t] / 4096 == headers[t];
  }

  /** Page 511 * t + j of the buffer has an entry, and the one after it is where the layout says. */
  lemma PageInLayout(r: seq<Entry>, m: Memory, table: map<nat, nat>, last: nat, noPMI: bool, t: nat, j: nat)
    requires Layout(r, m, table, last, noPMI) && j < 511 && 511 * t + j < |m.buffer|
    ensures t < |m.headers| && 512 * t + j <= last && r[512 * t + j]
        == Entry(false, r[512 * t + j].int_, 512 * t + j == last, 0, m.buffer[511 * t + j])
    ensures 512 * t + j == last <==> 511 * t + j == |m.buffer| - 1
    ensures j == 510 && 512 * t + j < last ==>
              t + 1 < |m.headers| && r[512 * t + 511].end
              && r[512 * t + 511].frame == m.headers[t + 1]
  {
    hide TableOf, IsLink, PageOf, EntryOf, Interrupts, FirstInterrupt, Indexed;
    EveryPageOnce(r, m, table, last, noPMI, 511 * t + j);
    EveryPageOnce(r, m, table, last, noPMI, |m.buffer| - 1);
    PageEntry(t, j);
    SplitEntry(last);
    Place(t, j);
    Place(t, 511);
    assert Lists(r[512 * t + j], m, 512 * t + j);
    if j == 510 && 512 * t + j < last {
      assert Lists(r[512 * t + 511], m, 512 * t + 511);
    }
  }

  lemma LayoutLength(r: seq<Entry>, m: Memory, table: map<nat, nat>, last: nat, noPMI: bool)
    requires Layout(r, m, table, last, noPMI)
    ensures |r| == 512 * |m.headers|
  {
  }

  /** One byte further, within the page or into the next one. */
  lemma OneByte(r: seq<Entry>, m: Memory, table: map<nat, nat>, last: nat, noPMI: bool, t: nat, j: nat, o: nat)
    requires Layout(r, m, table, last, noPMI) && Distinct(m.headers)
    requires j < 511 && o < 4096 && 511 * t + j < |m.buffer| && t < |m.headers|
    ensures var next := Followed(r, m.headers, Stored(r, m.headers, At(m, t, j, o)));
            if o < 4095 then next == At(m, t, j, o + 1)
            else if 511 * t + j == |m.buffer| - 1 then next == At(m, t, j, 4096).(stopped := true)
            else if j < 510 then next == At(m, t, j + 1, 0)
            else t + 1 < |m.headers| && next == At(m, t + 1, 0, 0)
  {
    hide Layout, Fetch;
    assert |r| == 512 * |m.headers| by { LayoutLength(r, m, table, last, noPMI); }
    PageInLayout(r, m, table, last, noPMI, t, j);
    FetchAt(r, m.headers, t, j);
    if o == 4095 && 511 * t + j < |m.buffer| - 1 {
      FetchAt(r, m.headers, t, j + 1);
      if j < 510 {
        PageInLayout(r, m, table, last, noPMI, t, j + 1);
      }
    }
  }

  /** Trace byte number 4096 * (511 * t + j) + o goes to byte o of buffer page 511 * t + j. */
  lemma {:induction false} HardwareAt(r: seq<Entry>, m: Memory, table: map<nat, nat>, last: nat, noPMI: bool, t: nat,
                                      j: nat, o: nat)
    requires Layout(r, m, table, last, noPMI) && Distinct(m.headers)
    requires j < 511 && o < 4096 && 511 * t + j < |m.buffer|
    ensures t < |m.headers| && AfterBytes(r, m.headers, 4096 * (511 * t + j) + o) == At(m, t, j, o)
    ensures Target(r, m.headers, At(m, t, j, o)) == 4096 * m.buffer[511 * t + j] + o
    decreases 4096 * (511 * t + j) + o
  {
    hide Layout, Fetch, Distinct, Followed, Stored;
    if o > 0 {
      HardwareAt(r, m, table, last, noPMI, t, j, o - 1);
      OneByte(r, m, table, last, noPMI, t, j, o - 1);
    } else if j > 0 {
      HardwareAt(r, m, table, last, noPMI, t, j - 1, 4095);
      OneByte(r, m, table, last, noPMI, t, j - 1, 4095);
    } else if t > 0 {
      HardwareAt(r, m, table, last, noPMI, t - 1, 510, 4095);
      OneByte(r, m, table, last, noPMI, t - 1, 510, 4095);
    }
    PageInLayout(r, m, table, last, noPMI, t, j);
    LayoutLength(r, m, table, last, noPMI);
    FetchAt(r, m.headers, t, j);
  }

  /** The last byte of the buffer stops the trace where it is. */
  lemma StoppedAt(r: seq<Entry>, m: Memory, table: map<nat, nat>, last: nat, noPMI: bool)
    requires Layout(r, m, table, last, noPMI) && Distinct(m.headers)
    ensures |m.buffer| > 0 && |m.headers| > 0
    ensures var p := AfterBytes(r, m.headers, 4096 * |m.buffer|); p.stopped && p.index == (|m.buffer| - 1) % 511
  {
    hide Fetch, Distinct, Interrupts, FirstInterrupt, IsLink, TableOf, Indexed, Lists, Followed, Stored;
    assert |m.buffer| > 0;
    hide Layout;
    var k := |m.buffer| - 1;
    var t, j := k / 511, k % 511;
    HardwareAt(r, m, table, last, noPMI, t, j, 4095);
    OneByte(r, m, table, last, noPMI, t, j, 4095);
    assert 4096 * k + 4095 == 4096 * |m.buffer| - 1;
  }

  // ----- The size the writer thread recovers -----

  /** IA32_RTIT_OUTPUT_MASK_PTRS: bits 0 to 6 are ones, 7 to 31 the table offset, 32 to 63 the output offset. */
  function MaskPointers(s: Pointers): nat {
    s.offset * 0x1_0000_0000 + s.index * 128 + 127
  }

  function RecoveredSize(table: map<nat, nat>, base: nat, mask: nat): Paging.Option<nat> {
    if base in table then
      Paging.Some((table[base] * 511 + mask % 0x1_0000_0000 / 128) * 4096 + mask / 0x1_0000_0000)
    else Paging.None
  }

  lemma MaskFields(s: Pointers)
    requires s.index < 0x200_0000
    ensures MaskPointers(s) / 0x1_0000_0000 == s.offset && MaskPointers(s) % 0x1_0000_0000 / 128 == s.index
  {
    var low := s.index * 128 + 127;
    assert low < 0x1_0000_0000;
    assert low / 128 == s.index;
  }

  lemma RecoveredAt(r: seq<Entry>, m: Memory, table: map<nat, nat>, last: nat, noPMI: bool, t: nat, s: Pointers)
    requires Layout(r, m, table, last, noPMI) && 512 * t <= last && t < |m.headers| && s.base == 4096 * m.headers[t]
        && s.index < 512
    ensures RecoveredSize(table, s.base, MaskPointers(s)) == Paging.Some(4096 * (511 * t + s.index) + s.offset)
  {
    hide Lists, Interrupts, PageOf, IsLink, MaskPointers;
    MaskFields(s);
    assert t < TableOf(last) + 1;
    assert s.base in table && table[s.base] == t;
  }

  /** After n bytes, for every n up to the whole buffer, the recovered size is n,
      whether or not the hardware has already followed a link it stands on. */
  lemma SizeRecovered(r: seq<Entry>, m: Memory, table: map<nat, nat>, last: nat, noPMI: bool, n: nat)
    requires Layout(r, m, table, last, noPMI) && Distinct(m.headers) && 0 < n <= 4096 * |m.buffer|
    ensures |m.headers| > 0
    ensures var s := Stored(r, m.headers, AfterBytes(r, m.headers, n - 1));
            && RecoveredSize(table, s.base, MaskPointers(s)) == Paging.Some(n)
            && Followed(r, m.headers, s) == AfterBytes(r, m.headers, n)
            && RecoveredSize(table, AfterBytes(r, m.headers, n).base, MaskPointers(AfterBytes(r, m.headers, n)))
                == Paging.Some(n)
  {
    hide Layout, Fetch, Distinct, RecoveredSize, MaskPointers;
    var k, o := (n - 1) / 4096, (n - 1) % 4096;
    var t, j := k / 511, k % 511;
    HardwareAt(r, m, table, last, noPMI, t, j, o);
    PageInLayout(r, m, table, last, noPMI, t, j);
    LayoutLength(r, m, table, last, noPMI);
    FetchAt(r, m.headers, t, j);
    OneByte(r, m, table, last, noPMI, t, j, o);
    RecoveredAt(r, m, table, last, noPMI, t, Stored(r, m.headers, At(m, t, j, o)));
    var next := AfterBytes(r, m.headers, n);
    if o == 4095 && j == 510 && k < |m.buffer| - 1 {
      PageInLayout(r, m, table, last, noPMI, t + 1, 0);
      RecoveredAt(r, m, table, last, noPMI, t + 1, next);
    } else {
      RecoveredAt(r, m, table, last, noPMI, t, next);
    }
  }
}
