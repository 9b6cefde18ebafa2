/** The region lists of Cheat Engine/ceserver/api.c: VirtualQueryExFull goes through a process's mappings, in paged
    mode through the page map of each of them 512 pages at a time, and adds what it finds to a growing array. */
module PagedRegions {
  const PAGESIZE := 4096
  const BATCH := 512

  datatype RegionInfo = RegionInfo(baseaddress: nat, size: nat, protection: nat, mapped: bool)

  /** One entry of /proc/pid/smaps, in pages; `shared` stands for MEM_MAPPED, `dirty` for a dirty count above zero. */
  datatype Mapping = Mapping(first: nat, stop: nat, protection: nat, shared: bool, dirty: bool)

  datatype Flags = Flags(pagedOnly: bool, dirtyOnly: bool, noShared: bool)

  /** Pages lo to hi - 1. */
  datatype Run = Run(lo: nat, hi: nat)

  function Entry(r: Run, m: Mapping): RegionInfo
    requires r.lo <= r.hi
  {
    RegionInfo(r.lo * PAGESIZE, (r.hi - r.lo) * PAGESIZE, m.protection, m.shared)
  }

  // ----- What the list should hold -----

  predicate Proper(runs: seq<Run>) { forall i | 0 <= i < |runs| :: runs[i].lo < runs[i].hi }

  /** One page more at the end: it joins the run before it if the two touch. */
  function Joined(runs: seq<Run>, q: nat): (r: seq<Run>)
    requires Proper(runs)
    ensures Proper(r)
  {
    if |runs| > 0 && runs[|runs| - 1].hi == q then runs[..|runs| - 1] + [Run(runs[|runs| - 1].lo, q + 1)]
    else runs + [Run(q, q + 1)]
  }

  /** The runs of present pages in [a, b). */
  function RunsIn(present: nat -> bool, a: nat, b: nat): (runs: seq<Run>)
    ensures Proper(runs)
  {
    if a >= b then []
    else if present(b - 1) then Joined(RunsIn(present, a, b - 1), b - 1)
    else RunsIn(present, a, b - 1)
  }

  /** The runs of [a, b), taken 512 pages at a time. */
  function Batches(present: nat -> bool, a: nat, b: nat): (runs: seq<Run>)
    ensures Proper(runs)
    decreases b - a
  {
    if a + BATCH >= b then RunsIn(present, a, b)
    else RunsIn(present, a, a + BATCH) + Batches(present, a + BATCH, b)
  }

  predicate Passes(m: Mapping, flags: Flags) {
    m.first > 0 && !(flags.noShared && m.shared) && (flags.dirtyOnly ==> m.dirty)
  }

  function RunsOf(m: Mapping, flags: Flags, present: nat -> bool): (runs: seq<Run>)
    requires m.first < m.stop
    ensures Proper(runs)
  {
    if !Passes(m, flags) then []
    else if flags.pagedOnly then Batches(present, m.first, m.stop)
    else [Run(m.first, m.stop)]
  }

  function Entries(runs: seq<Run>, m: Mapping): (e: seq<RegionInfo>)
    requires Proper(runs)
    ensures |e| == |runs| && forall i | 0 <= i < |runs| :: e[i] == Entry(runs[i], m)
  {
    seq(|runs|, i requires 0 <= i < |runs| => Entry(runs[i], m))
  }

  predicate ValidMaps(maps: seq<Mapping>) {
    && (forall i | 0 <= i < |maps| :: maps[i].first < maps[i].stop)
    && forall i, j | 0 <= i < j < |maps| :: maps[i].stop <= maps[j].first
  }

  function FullList(maps: seq<Mapping>, flags: Flags, present: nat -> bool, n: nat): seq<RegionInfo>
    requires ValidMaps(maps) && n <= |maps|
  {
    if n == 0 then []
    else FullList(maps, flags, present, n - 1) + Entries(RunsOf(maps[n - 1], flags, present), maps[n - 1])
  }

  // ----- The growing array -----

  class RegionList {
    var list: array<RegionInfo>
    var pos: nat
    var max: nat

    ghost predicate Valid()
      reads this
    {
      max == list.Length && pos < max
    }

    ghost function Contents(): (c: seq<RegionInfo>)
      requires Valid()
      reads this, list
      ensures |c| == pos
    {
      list[..pos]
    }

    constructor (capacity: nat)
      requires capacity > 0
      ensures Valid() && Contents() == [] && fresh(list)
    {
      list := new RegionInfo[capacity](i => RegionInfo(0, 0, 0, false));
      pos, max := 0, capacity;
    }

    /** There is always room for one more: the array doubles as soon as it is full. */
    method AddToRegionList(r: RegionInfo)
      requires Valid()
      modifies this, list
      ensures Valid() && Contents() == old(Contents()) + [r]
      ensures list == old(list) || fresh(list)
      ensures max == if old(pos) + 1 >= old(max) then 2 * old(max) else old(max)
    {
      list[pos] := r;
      pos := pos + 1;
      if pos >= max {
        max := max * 2;
        var bigger := new RegionInfo[max](i => r);
        forall i | 0 <= i < list.Length { bigger[i] := list[i]; }
        assert bigger[..pos] == list[..pos];
        list := bigger;
      }
    }

    /** One read of the page map, `pagemap` being what was read: each run is added when the page after it is seen. */
    method AddBatch(m: Mapping, current: nat, pagemap: seq<bool>, ghost present: nat -> bool)
      requires Valid() && forall i | 0 <= i < |pagemap| :: pagemap[i] == present(current + i)
      modifies this, list
      ensures Valid() && (list == old(list) || fresh(list))
      ensures Contents() == old(Contents()) + Entries(RunsIn(present, current, current + |pagemap|), m)
    {
      hide RunsIn, Joined, Entries, Scanned, Contents, Valid, Entry;
      var currentstart: int := -1;
      var i := 0;
      ghost var before := Contents();
      ghost var done: seq<Run> := [];
      NoRuns(present, current, m, before);
      while i < |pagemap|
        invariant 0 <= i <= |pagemap| && -1 <= currentstart < i && Proper(done)
            && Scanned(present, current, i, done, currentstart)
        invariant Valid() && (list == old(list) || fresh(list))
        invariant Contents() == before + Entries(done, m)
      {
        NextRun(present, current, i, done, currentstart);
        if pagemap[i] {
          if currentstart == -1 {
            currentstart := i;
          }
        } else {
          if currentstart != -1 {
            EntriesMore(done, Run(current + currentstart, current + i), m, before, Contents());
            EntryIs(current + currentstart, current + i, m);
            AddToRegionList(RegionInfo((current + currentstart) * PAGESIZE, (i - currentstart) * PAGESIZE, m.protection,
                m.shared));
            done := done + [Run(current + currentstart, current + i)];
          }
          currentstart := -1;
        }
        i := i + 1;
      }
      AllScanned(present, current, i, done, currentstart);
      if currentstart != -1 {
        var count := |pagemap| - currentstart;
        EntriesMore(done, Run(current + currentstart, current + i), m, before, Contents());
        EntryIs(current + currentstart, current + i, m);
        AddToRegionList(RegionInfo((current + currentstart) * PAGESIZE, count * PAGESIZE, m.protection, m.shared));
      }
    }

    /** pread of `count` page map entries, bit 63 of each. */
    static method ReadPageMap(present: nat -> bool, page: nat, count: nat) returns (pagemap: seq<bool>)
      ensures |pagemap| == count && forall i | 0 <= i < count :: pagemap[i] == present(page + i)
    {
      pagemap := seq(count, i requires i >= 0 => present(page + i));
    }

    /** The pages of one mapping that are in memory. */
    method AddPresentPages(m: Mapping, present: nat -> bool)
      requires Valid() && m.first < m.stop
      modifies this, list
      ensures Valid() && (list == old(list) || fresh(list))
      ensures Contents() == old(Contents()) + Entries(Batches(present, m.first, m.stop), m)
    {
      hide RunsIn, Joined, Entries, Batches, Taken, Contents, Valid;
      var current := m.first;
      ghost var before := Contents();
      ghost var done: seq<Run> := [];
      NoRuns(present, current, m, before);
      NothingTaken(present, m);
      while current < m.stop
        invariant m.first <= current <= m.stop && Proper(done) && Taken(present, m, done, current)
        invariant Valid() && (list == old(list) || fresh(list))
        invariant Contents() == before + Entries(done, m)
      {
        var pagecount := m.stop - current;
        if pagecount > BATCH {
          pagecount := BATCH;
        }
        var pagemap := ReadPageMap(present, current, pagecount);
        NextBatch(present, m, done, current, pagecount);
        EntriesJoin(done, RunsIn(present, current, current + pagecount), m, before);
        AddBatch(m, current, pagemap, present);
        done := done + RunsIn(present, current, current + pagecount);
        current := current + pagecount;
      }
      AllTaken(present, m, done);
    }

    /** The loop of VirtualQueryExFull over the mappings of the process. */
    method VirtualQueryExFull(maps: seq<Mapping>, flags: Flags, present: nat -> bool)
      requires Valid() && ValidMaps(maps)
      modifies this, list
      ensures Valid() && Contents() == old(Contents()) + FullList(maps, flags, present, |maps|)
    {
      hide Batches, Entries, FullList, ValidMaps;
      NothingListed(maps, flags, present, Contents());
      for i := 0 to |maps|
        invariant Valid() && (list == old(list) || fresh(list))
        invariant Contents() == old(Contents()) + FullList(maps, flags, present, i)
      {
        var m := maps[i];
        NonEmpty(maps, i);
        NextMapping(maps, flags, present, i, old(Contents()));
        if m.first > 0 {
          var passed := true;
          if flags.noShared && m.shared {
            passed := false;
          }
          if flags.dirtyOnly && !m.dirty {
            passed := false;
          }
          if passed {
            if flags.pagedOnly {
              AddPresentPages(m, present);
            } else {
              WholeMapping(m);
              AddToRegionList(RegionInfo(m.first * PAGESIZE, (m.stop - m.first) * PAGESIZE, m.protection, m.shared));
            }
          }
        }
      }
    }
  }

  /** The runs of the first i pages of a batch: those done, and the one that has not ended. */
  predicate Scanned(present: nat -> bool, a: nat, i: nat, done: seq<Run>, currentstart: int)
    requires -1 <= currentstart < i || i == 0 || currentstart == -1
  {
    && RunsIn(present, a, a + i) == (if currentstart < 0 then done else done + [Run(a + currentstart, a + i)])
    && (currentstart < 0 ==> |done| == 0 || done[|done| - 1].hi < a + i)
  }

  lemma NoRuns(present: nat -> bool, a: nat, m: Mapping, contents: seq<RegionInfo>)
    ensures Scanned(present, a, 0, [], -1) && contents == contents + Entries([], m)
  {
  }

  lemma AllScanned(present: nat -> bool, a: nat, i: nat, done: seq<Run>, currentstart: int)
    requires -1 <= currentstart < i && Scanned(present, a, i, done, currentstart)
    ensures RunsIn(present, a, a + i) == if currentstart < 0 then done else done + [Run(a + currentstart, a + i)]
  {
  }

  lemma EntryIs(lo: nat, hi: nat, m: Mapping)
    requires lo <= hi
    ensures Entry(Run(lo, hi), m) == RegionInfo(lo * PAGESIZE, (hi - lo) * PAGESIZE, m.protection, m.shared)
  {
  }

  lemma EntriesMore(done: seq<Run>, r: Run, m: Mapping, before: seq<RegionInfo>, now: seq<RegionInfo>)
    requires Proper(done) && r.lo < r.hi && now == before + Entries(done, m)
    ensures Proper(done + [r]) && now + [Entry(r, m)] == before + Entries(done + [r], m)
  {
  }

  /** One page more: it extends the open run, opens one, or ends it. */
  lemma NextRun(present: nat -> bool, a: nat, i: nat, done: seq<Run>, currentstart: int)
    requires -1 <= currentstart < i && Proper(done) && Scanned(present, a, i, done, currentstart)
    ensures present(a + i) ==> Scanned(present, a, i + 1, done, if currentstart == -1 then i else currentstart)
    ensures !present(a + i) ==>
              Scanned(present, a, i + 1, if currentstart == -1 then done else done + [Run(a + currentstart, a + i)], -1)
  {
  }

  /** The batches before `current` gave the runs done. */
  predicate Taken(present: nat -> bool, m: Mapping, done: seq<Run>, current: nat) {
    Batches(present, m.first, m.stop) == if current < m.stop then done + Batches(present, current, m.stop) else done
  }

  lemma NothingTaken(present: nat -> bool, m: Mapping)
    requires m.first < m.stop
    ensures Taken(present, m, [], m.first)
  {
  }

  lemma AllTaken(present: nat -> bool, m: Mapping, done: seq<Run>)
    requires Taken(present, m, done, m.stop)
    ensures Batches(present, m.first, m.stop) == done
  {
  }

  lemma NextBatch(present: nat -> bool, m: Mapping, done: seq<Run>, current: nat, pagecount: nat)
    requires current < m.stop && Taken(present, m, done, current)
    requires pagecount == if m.stop - current > BATCH then BATCH else m.stop - current
    ensures Taken(present, m, done + RunsIn(present, current, current + pagecount), current + pagecount)
  {
    if m.stop - current > BATCH {
      assert done + (RunsIn(present, current, current + BATCH) + Batches(present, current + BATCH, m.stop))
          == (done + RunsIn(present, current, current + BATCH)) + Batches(present, current + BATCH, m.stop);
    }
  }

  lemma EntriesJoin(r: seq<Run>, s: seq<Run>, m: Mapping, before: seq<RegionInfo>)
    requires Proper(r) && Proper(s)
    ensures Proper(r + s) && before + Entries(r + s, m) == before + Entries(r, m) + Entries(s, m)
  {
  }

  lemma NothingListed(maps: seq<Mapping>, flags: Flags, present: nat -> bool, contents: seq<RegionInfo>)
    requires ValidMaps(maps)
    ensures contents == contents + FullList(maps, flags, present, 0)
  {
  }

  lemma NonEmpty(maps: seq<Mapping>, i: nat)
    requires ValidMaps(maps) && i < |maps|
    ensures maps[i].first < maps[i].stop
  {
  }

  lemma NextMapping(maps: seq<Mapping>, flags: Flags, present: nat -> bool, i: nat, before: seq<RegionInfo>)
    requires ValidMaps(maps) && i < |maps|
    ensures before + FullList(maps, flags, present, i + 1)
         == before + FullList(maps, flags, present, i) + Entries(RunsOf(maps[i], flags, present), maps[i])
    ensures Entries([], maps[i]) == []
  {
  }

  lemma WholeMapping(m: Mapping)
    requires m.first < m.stop
    ensures Entries([Run(m.first, m.stop)], m) == [RegionInfo(m.first * PAGESIZE, (m.stop - m.first) * PAGESIZE,
        m.protection, m.shared)]
  {
  }

  // ----- What the functions mean -----

  /** In order, without overlap, inside [a, b). */
  predicate Ordered(runs: seq<Run>, a: nat, b: nat) {
    && (forall i | 0 <= i < |runs| :: a <= runs[i].lo < runs[i].hi <= b)
    && forall i, j | 0 <= i < j < |runs| :: runs[i].hi <= runs[j].lo
  }

  ghost predicate Covered(runs: seq<Run>, q: nat) {
    exists i :: 0 <= i < |runs| && runs[i].lo <= q < runs[i].hi
  }

  /** Nothing present lies directly before or after the run inside [a, b). */
  predicate Maximal(r: Run, present: nat -> bool, a: nat, b: nat) {
    && (r.lo > a ==> !present(r.lo - 1))
    && (r.hi < b ==> !present(r.hi))
  }

  lemma JoinedOrdered(runs: seq<Run>, a: nat, q: nat)
    requires Ordered(runs, a, q) && a <= q
    ensures Ordered(Joined(runs, q), a, q + 1)
  {
    var n, after := |runs|, Joined(runs, q);
    forall i | 0 <= i < |after| ensures a <= after[i].lo < after[i].hi <= q + 1 {
      assert i < n ==> a <= runs[i].lo < runs[i].hi <= q;
    }
    forall i, j | 0 <= i < j < |after| ensures after[i].hi <= after[j].lo {
      assert j < n ==> runs[i].hi <= runs[j].lo;
      assert i < n ==> runs[i].hi <= q;
    }
  }

  lemma {:induction false} RunsInOrdered(present: nat -> bool, a: nat, b: nat)
    requires a <= b
    ensures Ordered(RunsIn(present, a, b), a, b)
  {
    hide Joined;
    if a < b {
      RunsInOrdered(present, a, b - 1);
      JoinedOrdered(RunsIn(present, a, b - 1), a, b - 1);
    }
  }

  lemma JoinedCovers(runs: seq<Run>, q: nat, p: nat)
    requires Proper(runs)
    ensures Covered(Joined(runs, q), p) <==> Covered(runs, p) || p == q
  {
    var n, after := |runs|, Joined(runs, q);
    if i :| 0 <= i < n && runs[i].lo <= p < runs[i].hi {
      assert after[i].lo <= p < after[i].hi;
    }
    if p == q {
      assert after[|after| - 1].lo <= p < after[|after| - 1].hi;
    }
    if i :| 0 <= i < |after| && after[i].lo <= p < after[i].hi && p != q {
      assert i < n && runs[i].lo <= p < runs[i].hi;
    }
  }

  lemma {:induction false} RunsInCover(present: nat -> bool, a: nat, b: nat, q: nat)
    requires a <= b
    ensures Covered(RunsIn(present, a, b), q) <==> a <= q < b && present(q)
  {
    hide Covered, Joined;
    if a == b {
      EmptyCovers(q);
    } else {
      RunsInCover(present, a, b - 1, q);
      JoinedCovers(RunsIn(present, a, b - 1), b - 1, q);
    }
  }

  lemma EmptyCovers(q: nat)
    ensures !Covered([], q)
  {
  }

  /** A run ends at b exactly when the page before b is present. */
  lemma LastRun(present: nat -> bool, a: nat, b: nat)
    requires a < b
    ensures var runs := RunsIn(present, a, b); present(b - 1) <==> |runs| > 0 && runs[|runs| - 1].hi == b
  {
    RunsInOrdered(present, a, b - 1);
  }

  lemma NextPage(present: nat -> bool, a: nat, b: nat)
    requires a < b
    ensures RunsIn(present, a, b) == if present(b - 1) then Joined(RunsIn(present, a, b - 1), b - 1)
        else RunsIn(present, a, b - 1)
    ensures a == b - 1 ==> RunsIn(present, a, b - 1) == []
  {
  }

  /** Joining page q keeps what could not be extended, and extends the run that could. */
  lemma JoinedMaximal(runs: seq<Run>, present: nat -> bool, a: nat, q: nat, i: nat)
    requires Proper(runs) && a <= q && present(q) && i < |Joined(runs, q)|
    requires i < |runs| ==> Maximal(runs[i], present, a, q) && runs[i].hi <= q && (runs[i].hi == q ==> i == |runs| - 1)
    requires a < q ==> (present(q - 1) <==> |runs| > 0 && runs[|runs| - 1].hi == q)
    ensures Maximal(Joined(runs, q)[i], present, a, q + 1)
  {
  }

  lemma KeptMaximal(r: Run, present: nat -> bool, a: nat, q: nat)
    requires Maximal(r, present, a, q) && r.hi <= q && !present(q)
    ensures Maximal(r, present, a, q + 1)
  {
  }

  lemma InsideRange(runs: seq<Run>, a: nat, b: nat, i: nat)
    requires Ordered(runs, a, b) && i < |runs|
    ensures runs[i].hi <= b
  {
  }

  lemma {:induction false} RunsInMaximal(present: nat -> bool, a: nat, b: nat, i: nat)
    requires a <= b && i < |RunsIn(present, a, b)|
    ensures Maximal(RunsIn(present, a, b)[i], present, a, b)
  {
    hide RunsIn, Joined, Maximal, Ordered, Proper;
    if a < b {
      NextPage(present, a, b);
      RunsInOrdered(present, a, b - 1);
      var before := RunsIn(present, a, b - 1);
      if i < |before| {
        RunsInMaximal(present, a, b - 1, i);
        EndsAtLast(before, a, b - 1, i);
        InsideRange(before, a, b - 1, i);
      }
      if !present(b - 1) {
        KeptMaximal(before[i], present, a, b - 1);
      } else {
        if a < b - 1 {
          LastRun(present, a, b - 1);
        }
        JoinedMaximal(before, present, a, b - 1, i);
      }
    } else {
      NothingIn(present, a);
    }
  }

  lemma NothingIn(present: nat -> bool, a: nat)
    ensures RunsIn(present, a, a) == []
  {
  }

  lemma EndsAtLast(runs: seq<Run>, a: nat, b: nat, i: nat)
    requires Ordered(runs, a, b) && i < |runs|
    ensures runs[i].hi == b ==> i == |runs| - 1
  {
    if i < |runs| - 1 {
      assert runs[i].hi <= runs[i + 1].lo < runs[i + 1].hi <= b;
    }
  }

  /** The runs of [a, b): in order, covering exactly the present pages, none of them extensible. */
  lemma RunsInMeans(present: nat -> bool, a: nat, b: nat)
    requires a <= b
    ensures var runs := RunsIn(present, a, b);
            && Ordered(runs, a, b)
            && (forall q: nat :: Covered(runs, q) <==> a <= q < b && present(q))
            && forall i: nat | i < |runs| :: Maximal(runs[i], present, a, b)
  {
    hide RunsIn, Covered, Maximal;
    RunsInOrdered(present, a, b);
    forall q: nat ensures Covered(RunsIn(present, a, b), q) <==> a <= q < b && present(q) {
      RunsInCover(present, a, b, q);
    }
    forall i: nat | i < |RunsIn(present, a, b)| ensures Maximal(RunsIn(present, a, b)[i], present, a, b) {
      RunsInMaximal(present, a, b, i);
    }
  }

  // ----- A whole mapping, and a whole process -----

  lemma OrderedJoin(r: seq<Run>, s: seq<Run>, a: nat, b: nat, c: nat)
    requires Ordered(r, a, b) && Ordered(s, b, c) && a <= b <= c
    ensures Ordered(r + s, a, c)
  {
  }

  lemma CoveredJoin(r: seq<Run>, s: seq<Run>, q: nat)
    ensures Covered(r + s, q) <==> Covered(r, q) || Covered(s, q)
  {
    var t := r + s;
    if i :| 0 <= i < |r| && r[i].lo <= q < r[i].hi { assert t[i].lo <= q < t[i].hi; }
    if i :| 0 <= i < |s| && s[i].lo <= q < s[i].hi { assert t[|r| + i].lo <= q < t[|r| + i].hi; }
    if i :| 0 <= i < |t| && t[i].lo <= q < t[i].hi {
      assert if i < |r| then r[i].lo <= q < r[i].hi else s[i - |r|].lo <= q < s[i - |r|].hi;
    }
  }

  /** A run that cannot be extended inside its own batch of 512 pages, counted from page a. */
  predicate MaximalInBatch(r: Run, present: nat -> bool, a: nat, b: nat) {
    && a <= r.lo < r.hi <= b
    && (r.lo - a) / BATCH == (r.hi - 1 - a) / BATCH
    && ((r.lo - a) % BATCH != 0 ==> !present(r.lo - 1))
    && ((r.hi - a) % BATCH != 0 && r.hi < b ==> !present(r.hi))
  }

  lemma MaximalIsInBatch(r: Run, present: nat -> bool, a: nat, b: nat, end: nat)
    requires a <= r.lo < r.hi <= b <= end && b - a <= BATCH && Maximal(r, present, a, b) && (b == end || b == a + BATCH)
    ensures MaximalInBatch(r, present, a, end)
  {
  }

  lemma LaterBatch(r: Run, present: nat -> bool, a: nat, b: nat)
    requires MaximalInBatch(r, present, a + BATCH, b)
    ensures MaximalInBatch(r, present, a, b)
  {
    assert (r.lo - a) == (r.lo - (a + BATCH)) + BATCH && (r.hi - 1 - a) == (r.hi - 1 - (a + BATCH)) + BATCH;
  }

  lemma NextBatches(present: nat -> bool, a: nat, b: nat)
    requires a <= b
    ensures Batches(present, a, b)
         == if a + BATCH >= b then RunsIn(present, a, b)
            else RunsIn(present, a, a + BATCH) + Batches(present, a + BATCH, b)
  {
  }

  lemma {:induction false} BatchMaximal(present: nat -> bool, a: nat, b: nat, i: nat)
    requires a <= b && i < |Batches(present, a, b)|
    ensures MaximalInBatch(Batches(present, a, b)[i], present, a, b)
    decreases b - a
  {
    hide RunsIn, Batches, MaximalInBatch, Covered;
    NextBatches(present, a, b);
    var e := if a + BATCH >= b then b else a + BATCH;
    RunsInMeans(present, a, e);
    var first := RunsIn(present, a, e);
    if i < |first| {
      MaximalIsInBatch(first[i], present, a, e, b);
    } else {
      BatchMaximal(present, a + BATCH, b, i - |first|);
      LaterBatch(Batches(present, a + BATCH, b)[i - |first|], present, a, b);
    }
  }

  lemma {:induction false} BatchesCover(present: nat -> bool, a: nat, b: nat, q: nat)
    requires a <= b
    ensures Ordered(Batches(present, a, b), a, b)
    ensures Covered(Batches(present, a, b), q) <==> a <= q < b && present(q)
    decreases b - a
  {
    hide RunsIn, Batches, Covered, Ordered;
    NextBatches(present, a, b);
    var e := if a + BATCH >= b then b else a + BATCH;
    RunsInMeans(present, a, e);
    if a + BATCH < b {
      BatchesCover(present, e, b, q);
      OrderedJoin(RunsIn(present, a, e), Batches(present, e, b), a, e, b);
      CoveredJoin(RunsIn(present, a, e), Batches(present, e, b), q);
    }
  }

  /** Paged extraction of a mapping: runs in order, exactly its present pages, split only where a batch of 512 ends. */
  lemma BatchesMean(present: nat -> bool, a: nat, b: nat)
    requires a <= b
    ensures var runs := Batches(present, a, b);
            && Ordered(runs, a, b)
            && (forall q: nat :: Covered(runs, q) <==> a <= q < b && present(q))
            && forall i: nat | i < |runs| :: MaximalInBatch(runs[i], present, a, b)
  {
    hide Batches, Covered, MaximalInBatch, Ordered;
    BatchesCover(present, a, b, 0);
    forall q: nat ensures Covered(Batches(present, a, b), q) <==> a <= q < b && present(q) {
      BatchesCover(present, a, b, q);
    }
    forall i: nat | i < |Batches(present, a, b)| ensures MaximalInBatch(Batches(present, a, b)[i], present, a, b) {
      BatchMaximal(present, a, b, i);
    }
  }

  /** Entries in order and without overlap, all of them between two addresses. */
  predicate Sorted(e: seq<RegionInfo>, lo: nat, hi: nat) {
    && (forall i | 0 <= i < |e| :: e[i].size > 0 && lo <= e[i].baseaddress && e[i].baseaddress + e[i].size <= hi)
    && forall i, j | 0 <= i < j < |e| :: e[i].baseaddress + e[i].size <= e[j].baseaddress
  }

  ghost predicate Listed(e: seq<RegionInfo>, q: nat) {
    exists i :: 0 <= i < |e| && e[i].baseaddress <= q * PAGESIZE < e[i].baseaddress + e[i].size
  }

  lemma EntriesSorted(runs: seq<Run>, m: Mapping, a: nat, b: nat)
    requires Ordered(runs, a, b) && Proper(runs)
    ensures Sorted(Entries(runs, m), a * PAGESIZE, b * PAGESIZE)
  {
  }

  lemma EntriesListed(runs: seq<Run>, m: Mapping, q: nat)
    requires Proper(runs)
    ensures Listed(Entries(runs, m), q) <==> Covered(runs, q)
  {
    var e := Entries(runs, m);
    if i :| 0 <= i < |runs| && runs[i].lo <= q < runs[i].hi {
      assert e[i].baseaddress <= q * PAGESIZE < e[i].baseaddress + e[i].size;
    }
    if i :| 0 <= i < |e| && e[i].baseaddress <= q * PAGESIZE < e[i].baseaddress + e[i].size {
      assert runs[i].lo <= q < runs[i].hi;
    }
  }

  lemma ListedJoin(r: seq<RegionInfo>, s: seq<RegionInfo>, q: nat)
    ensures Listed(r + s, q) <==> Listed(r, q) || Listed(s, q)
  {
    var t := r + s;
    if i :| 0 <= i < |r| && r[i].baseaddress <= q * PAGESIZE < r[i].baseaddress + r[i].size { assert t[i] == r[i]; }
    if i :| 0 <= i < |s| && s[i].baseaddress <= q * PAGESIZE < s[i].baseaddress + s[i].size {
      assert t[|r| + i] == s[i];
    }
    if i :| 0 <= i < |t| && t[i].baseaddress <= q * PAGESIZE < t[i].baseaddress + t[i].size {
      assert t[i] == if i < |r| then r[i] else s[i - |r|];
    }
  }

  lemma SortedJoin(r: seq<RegionInfo>, s: seq<RegionInfo>, lo: nat, mid: nat, next: nat, hi: nat)
    requires Sorted(r, lo, mid) && Sorted(s, next, hi) && lo <= mid <= next <= hi
    ensures Sorted(r + s, lo, hi)
  {
  }

  /** Page q belongs in the list. */
  predicate Wanted(m: Mapping, flags: Flags, present: nat -> bool, q: nat) {
    Passes(m, flags) && m.first <= q < m.stop && (flags.pagedOnly ==> present(q))
  }

  lemma RunsOfMean(m: Mapping, flags: Flags, present: nat -> bool, q: nat)
    requires m.first < m.stop
    ensures Ordered(RunsOf(m, flags, present), m.first, m.stop)
    ensures Covered(RunsOf(m, flags, present), q) <==> Wanted(m, flags, present, q)
  {
    hide Batches, Covered;
    BatchesCover(present, m.first, m.stop, q);
    EmptyCovers(q);
    OneCovers(m.first, m.stop, q);
  }

  lemma OneCovers(lo: nat, hi: nat, q: nat)
    ensures Covered([Run(lo, hi)], q) <==> lo <= q < hi
  {
    assert [Run(lo, hi)][0].lo == lo;
  }

  function EndOf(maps: seq<Mapping>, n: nat): nat
    requires n <= |maps|
  {
    if n == 0 then 0 else maps[n - 1].stop
  }

  /** The whole list is in order and without overlap, and a page is in it exactly when its mapping does not begin at
      address 0, is not shared if those are unwanted, is dirty if only such are wanted, and the page itself is present
      if only those are wanted. */
  lemma FullListMeans(maps: seq<Mapping>, flags: Flags, present: nat -> bool, n: nat, q: nat)
    requires ValidMaps(maps) && n <= |maps|
    ensures Sorted(FullList(maps, flags, present, n), 0, EndOf(maps, n) * PAGESIZE)
    ensures Listed(FullList(maps, flags, present, n), q) <==>
        exists i :: 0 <= i < n && 0 < maps[i].first <= q < maps[i].stop && (flags.noShared ==> !maps[i].shared)
                    && (flags.dirtyOnly ==> maps[i].dirty) && (flags.pagedOnly ==> present(q))
  {
    ListsWanted(maps, flags, present, n, q);
    hide Listed, Sorted, FullList;
    if i :| 0 <= i < n && Wanted(maps[i], flags, present, q) {
      assert 0 < maps[i].first <= q < maps[i].stop;
    }
    if i :| 0 <= i < n && 0 < maps[i].first <= q < maps[i].stop && (flags.noShared ==> !maps[i].shared)
            && (flags.dirtyOnly ==> maps[i].dirty) && (flags.pagedOnly ==> present(q)) {
      assert Wanted(maps[i], flags, present, q);
    }
  }

  lemma {:induction false} ListsWanted(maps: seq<Mapping>, flags: Flags, present: nat -> bool, n: nat, q: nat)
    requires ValidMaps(maps) && n <= |maps|
    ensures Sorted(FullList(maps, flags, present, n), 0, EndOf(maps, n) * PAGESIZE)
    ensures Listed(FullList(maps, flags, present, n), q) <==>
        exists i :: 0 <= i < n && Wanted(maps[i], flags, present, q)
  {
    hide RunsOf, Entries, Covered, Listed, Sorted, Ordered, Wanted;
    if n == 0 {
      EmptyList(q);
    } else {
      var m := maps[n - 1];
      var before, runs := FullList(maps, flags, present, n - 1), RunsOf(m, flags, present);
      ListsWanted(maps, flags, present, n - 1, q);
      RunsOfMean(m, flags, present, q);
      EntriesSorted(runs, m, m.first, m.stop);
      EntriesListed(runs, m, q);
      ListedJoin(before, Entries(runs, m), q);
      SortedJoin(before, Entries(runs, m), 0, EndOf(maps, n - 1) * PAGESIZE, m.first * PAGESIZE, m.stop * PAGESIZE);
      if i :| 0 <= i < n && Wanted(maps[i], flags, present, q) {
        assert i == n - 1 || i < n - 1;
      }
    }
  }

  /** The entry lies in the mapping and has its protection and type; unless only present pages are listed it is the
      whole mapping. */
  predicate Describes(e: RegionInfo, m: Mapping, flags: Flags) {
    && m.first * 4096 <= e.baseaddress && e.baseaddress + e.size <= m.stop * 4096
    && e.baseaddress % 4096 == 0 && e.size % 4096 == 0 && e.size > 0
    && e.protection == m.protection && e.mapped == m.shared
    && (!flags.pagedOnly ==> e.baseaddress == m.first * 4096 && e.size == (m.stop - m.first) * 4096)
  }

  /** Every entry describes one of the mappings; with noShared none is of type MEM_MAPPED. */
  lemma {:induction false} EntriesDescribe(maps: seq<Mapping>, flags: Flags, present: nat -> bool, n: nat, k: nat)
    requires ValidMaps(maps) && n <= |maps| && k < |FullList(maps, flags, present, n)|
    ensures exists i :: 0 <= i < n && Describes(FullList(maps, flags, present, n)[k], maps[i], flags)
    ensures flags.noShared ==> !FullList(maps, flags, present, n)[k].mapped
  {
    hide RunsOf, Describes, Batches;
    var before, m := FullList(maps, flags, present, n - 1), maps[n - 1];
    if k < |before| {
      EntriesDescribe(maps, flags, present, n - 1, k);
    } else {
      EntryDescribes(m, flags, present, k - |before|);
    }
  }

  lemma EntryDescribes(m: Mapping, flags: Flags, present: nat -> bool, k: nat)
    requires m.first < m.stop && k < |RunsOf(m, flags, present)|
    ensures Describes(Entries(RunsOf(m, flags, present), m)[k], m, flags)
    ensures flags.noShared ==> !Entries(RunsOf(m, flags, present), m)[k].mapped
  {
    hide Batches;
    RunsOfMean(m, flags, present, 0);
  }

  lemma EmptyList(q: nat)
    ensures Sorted([], 0, 0) && !Listed([], q)
  {
  }
}
