/** The chunked masked pattern scan of Cheat Engine/ceserver/native-api.c against a scan that
    looks at every address once. */
module PatternScan {
  const CHUNK := 0x10_0000
  const MAX_HIT_COUNT := 5000000
  const MAX_AOB_PATTERN_SIZE := 0x10_0000
  const WORD := 0x1_0000_0000_0000_0000   // 2^64
  const PAGE_NOACCESS: bv32 := 1

  /** One line of /proc/pid/maps; `readable` says whether reads of it succeed. */
  datatype Mapping = Mapping(start: nat, stop: nat, protection: bv32, readable: bool)

  datatype RegionInfo = RegionInfo(baseaddress: nat, size: nat, protection: bv32)

  predicate ValidMapping(m: Mapping) {
    m.start < m.stop < WORD && m.start % 4096 == 0 && m.stop % 4096 == 0
  }

  /** Sorted, disjoint, page-aligned lines, as the kernel prints them. */
  predicate ValidMaps(maps: seq<Mapping>) {
    && (forall i | 0 <= i < |maps| :: ValidMapping(maps[i]))
    && forall i, j | 0 <= i < j < |maps| :: maps[i].stop <= maps[j].start
  }

  function PageOf(address: nat): (base: nat)
    ensures base <= address < base + 4096
    ensures base % 4096 == 0
  {
    address / 4096 * 4096
  }

  predicate Covers(m: Mapping, address: nat) {
    m.start <= address < m.stop
  }

  /** What the region oracle answers about `address`, stated without its loop. */
  ghost predicate Describes(maps: seq<Mapping>, address: nat, found: bool, r: RegionInfo) {
    if !found then forall m | m in maps :: m.stop <= address
    else
      && r.baseaddress == PageOf(address) && address < r.baseaddress + r.size < WORD
      && (if exists m :: m in maps && Covers(m, address) then
            exists m :: m in maps && Covers(m, address) && r.baseaddress + r.size == m.stop
                && r.protection == m.protection
          else
            && r.protection == PAGE_NOACCESS
            && (exists m :: m in maps && r.baseaddress + r.size == m.start)
            && forall m | m in maps :: m.stop <= address || r.baseaddress + r.size <= m.start)
  }

  lemma AlignedAbove(stop: nat, base: nat, address: nat)
    requires stop % 4096 == 0 && base % 4096 == 0 && base <= address < base + 4096
    ensures stop > base <==> stop > address
  {
  }

  method VirtualQueryEx(maps: seq<Mapping>, lpAddress: nat) returns (found: bool, r: RegionInfo)
    requires ValidMaps(maps)
    ensures Describes(maps, lpAddress, found, r)
  {
    hide PageOf;
    var base := PageOf(lpAddress);
    r := RegionInfo(base, 0, 0);
    found := false;
    var i := 0;
    while i < |maps|
      invariant 0 <= i <= |maps| && !found
      invariant forall j | 0 <= j < i :: maps[j].stop <= lpAddress
    {
      var m := maps[i];
      assert ValidMapping(m);
      AlignedAbove(m.stop, base, lpAddress);
      if m.stop > base {
        found := true;
        AlignedAbove(m.start, base, lpAddress);
        if base >= m.start {
          r := RegionInfo(base, m.stop - base, m.protection);
          assert Covers(m, lpAddress) && m in maps;
        } else {
          r := RegionInfo(base, m.start - base, PAGE_NOACCESS);
        }
        return;
      }
      i := i + 1;
    }
  }

  /** The process, and what to look for where. A '?' in the mask matches every byte. */
  datatype Search = Search(maps: seq<Mapping>, byteAt: nat -> bv8, pattern: seq<bv8>, mask: seq<char>,
                           start: nat, end: nat, inc: int, protection: bv32)

  /** Reading at the null pointer gives nothing; elsewhere the bytes of one readable mapping are read. */
  function ReadProcessMemory(s: Search, address: nat, size: nat): (buffer: seq<bv8>)
    ensures |buffer| <= size
    ensures forall i | 0 <= i < |buffer| :: buffer[i] == s.byteAt(address + i)
  {
    if address == 0 then [] else ReadFrom(s, s.maps, address, size)
  }

  function ReadFrom(s: Search, maps: seq<Mapping>, address: nat, size: nat): (buffer: seq<bv8>)
    ensures |buffer| <= size
    ensures forall i | 0 <= i < |buffer| :: buffer[i] == s.byteAt(address + i)
  {
    if maps == [] then []
    else if Covers(maps[0], address) then
      seq(if !maps[0].readable then 0 else if size <= maps[0].stop - address then size else maps[0].stop - address,
          i requires i >= 0 => s.byteAt(address + i))
    else ReadFrom(s, maps[1..], address, size)
  }

  lemma {:induction false} ReadsMapping(s: Search, maps: seq<Mapping>, m: Mapping, address: nat, size: nat)
    requires ValidMaps(maps) && m in maps && Covers(m, address) && address + size <= m.stop
    ensures |ReadFrom(s, maps, address, size)| == if m.readable then size else 0
  {
    if maps[0] != m {
      ReadsMapping(s, maps[1..], m, address, size);
    }
  }

  lemma {:induction false} ReadsNothing(s: Search, maps: seq<Mapping>, address: nat, size: nat)
    requires forall m | m in maps :: !Covers(m, address)
    ensures ReadFrom(s, maps, address, size) == []
  {
    if maps != [] {
      ReadsNothing(s, maps[1..], address, size);
    }
  }

  function Min(a: nat, b: nat): nat { if a < b then a else b }

  /** The cursor one page on, in 64 bits. */
  function NextPage(cursor: int): int { (cursor + 4096) % WORD }

  // ----- The simple scan -----

  predicate Matches(s: Search, c: nat)
    requires |s.mask| >= |s.pattern|
  {
    forall i | 0 <= i < |s.pattern| :: s.mask[i] == '?' || s.pattern[i] == s.byteAt(c + i)
  }

  predicate Wanted(s: Search, protection: bv32) { protection & s.protection != 0 }

  /** The pattern at c lies inside mapping m and below the end of the search. */
  predicate Inside(s: Search, m: Mapping, c: nat) {
    m.readable && Wanted(s, m.protection) && m.start <= c && c + |s.pattern| <= m.stop && c + |s.pattern| <= s.end
  }

  ghost predicate Hit(s: Search, c: nat)
    requires Sensible(s)
  {
    s.start <= c && (c - s.start) % s.inc == 0 && Matches(s, c) && exists m :: m in s.maps && Inside(s, m, c)
  }

  /** The first chunk of a search that starts at address 0 inside a mapping cannot be read. */
  ghost predicate Lost(s: Search, c: nat) {
    s.start == 0 && c < CHUNK && exists m :: m in s.maps && m.start == 0 && c < m.stop
  }

  /** Ascending list of the addresses below hi that match, all of them or those not lost. */
  ghost function Hits(s: Search, all: bool, hi: nat): seq<nat>
    requires Sensible(s)
  {
    if hi == 0 then []
    else Hits(s, all, hi - 1) + if Hit(s, hi - 1) && (all || !Lost(s, hi - 1)) then [hi - 1] else []
  }

  predicate Sensible(s: Search) {
    && ValidMaps(s.maps) && 0 < |s.pattern| <= MAX_AOB_PATTERN_SIZE && |s.mask| >= |s.pattern|
    && s.inc > 0 && s.start < s.end < WORD
  }

  /** The list is strictly ascending and holds exactly the wanted addresses. */
  lemma {:induction false} HitsExact(s: Search, all: bool, hi: nat)
    requires Sensible(s)
    ensures var h := Hits(s, all, hi);
            && (forall c: nat :: c in h <==> c < hi && Hit(s, c) && (all || !Lost(s, c)))
            && forall i, j | 0 <= i < j < |h| :: h[i] < h[j]
  {
    hide Hit, Lost;
    if hi > 0 {
      HitsExact(s, all, hi - 1);
      var before := Hits(s, all, hi - 1);
      assert forall i | 0 <= i < |before| :: before[i] in before;
    }
  }

  /** One bit of a protection mask. */
  predicate IsFlag(b: bv32) { b != 0 && b & (b - 1) == 0 }

  predicate Has(mask: bv32, b: bv32) { mask & b == b }

  ghost predicate ShareFlag(x: bv32, y: bv32) {
    exists b :: IsFlag(b) && Has(x, b) && Has(y, b)
  }

  function LowestFlag(x: bv32): bv32 { x & (0 - x) }

  lemma LowestIsFlag(x: bv32)
    requires x != 0
    ensures IsFlag(LowestFlag(x)) && Has(x, LowestFlag(x))
  {
  }

  lemma InBoth(x: bv32, y: bv32, b: bv32)
    requires Has(x & y, b)
    ensures Has(x, b) && Has(y, b)
  {
  }

  lemma LowestShared(x: bv32, y: bv32) returns (b: bv32)
    requires x & y != 0
    ensures IsFlag(b) && Has(x, b) && Has(y, b)
  {
    hide IsFlag, Has, LowestFlag;
    b := LowestFlag(x & y);
    LowestIsFlag(x & y);
    InBoth(x, y, b);
  }

  lemma OnlyIfShared(x: bv32, y: bv32, b: bv32)
    requires IsFlag(b) && Has(x, b) && Has(y, b)
    ensures x & y != 0
  {
  }

  lemma SharedIf(x: bv32, y: bv32, b: bv32)
    requires IsFlag(b) && Has(x, b) && Has(y, b)
    ensures ShareFlag(x, y)
  {
    hide IsFlag, Has;
  }

  lemma SharedFlag(x: bv32, y: bv32) returns (b: bv32)
    requires ShareFlag(x, y)
    ensures IsFlag(b) && Has(x, b) && Has(y, b)
  {
    hide IsFlag, Has;
    b :| IsFlag(b) && Has(x, b) && Has(y, b);
  }

  /** A mapping is searched exactly when its protection shares a flag with the one asked for. */
  lemma WantedExactly(s: Search, protection: bv32)
    ensures Wanted(s, protection) <==> ShareFlag(protection, s.protection)
  {
    hide IsFlag, Has, ShareFlag;
    if Wanted(s, protection) {
      var b := LowestShared(protection, s.protection);
      SharedIf(protection, s.protection, b);
    } else if ShareFlag(protection, s.protection) {
      var b := SharedFlag(protection, s.protection);
      OnlyIfShared(protection, s.protection, b);
    }
  }

  /** What a hit is: an address on the raster whose bytes are those of the pattern except under '?', inside one readable
      mapping that has one of the protection flags asked for, and below the end. */
  lemma HitMeans(s: Search, c: nat)
    requires Sensible(s)
    ensures Hit(s, c) <==>
            && s.start <= c && (c - s.start) % s.inc == 0 && c + |s.pattern| <= s.end
            && (forall i | 0 <= i < |s.pattern| :: s.mask[i] != '?' ==> s.byteAt(c + i) == s.pattern[i])
            && exists m :: m in s.maps && m.readable && m.start <= c && c + |s.pattern| <= m.stop
                           && ShareFlag(m.protection, s.protection)
  {
    hide ShareFlag, Wanted, Sensible;
    forall m | m in s.maps
      ensures Inside(s, m, c) <==>
              m.readable && m.start <= c && c + |s.pattern| <= m.stop && c + |s.pattern| <= s.end
              && ShareFlag(m.protection, s.protection)
    {
      WantedExactly(s, m.protection);
    }
  }

  lemma Widened(x: bv32, y: bv32, more: bv32)
    requires x & y != 0
    ensures x & (y | more) != 0
  {
  }

  lemma WantedStill(s: Search, more: bv32, protection: bv32)
    requires Wanted(s, protection)
    ensures Wanted(s.(protection := s.protection | more), protection)
  {
    Widened(protection, s.protection, more);
  }

  /** Asking for more protections loses no hit. */
  lemma WideningKeeps(s: Search, more: bv32, all: bool, hi: nat, c: nat)
    requires Sensible(s) && c in Hits(s, all, hi)
    ensures Sensible(s.(protection := s.protection | more)) && c in Hits(s.(protection := s.protection | more), all, hi)
  {
    var wider := s.protection | more;
    hide Wanted, Hits;
    var t := s.(protection := wider);
    HitsExact(s, all, hi);
    HitsExact(t, all, hi);
    var m :| m in s.maps && Inside(s, m, c);
    WantedStill(s, more, m.protection);
    assert Inside(t, m, c);
    assert Lost(t, c) <==> Lost(s, c);
  }

  lemma {:induction false} NoHits(s: Search, all: bool, lo: nat, hi: nat)
    requires Sensible(s) && lo <= hi
    requires forall c | lo <= c < hi :: !Hit(s, c) || (!all && Lost(s, c))
    ensures Hits(s, all, lo) == Hits(s, all, hi)
  {
    hide Hit, Lost;
    if lo < hi {
      NoHits(s, all, lo, hi - 1);
    }
  }

  lemma {:induction false} HitsGrow(s: Search, all: bool, lo: nat, hi: nat)
    requires Sensible(s) && lo <= hi
    ensures Hits(s, all, lo) <= Hits(s, all, hi)
  {
    hide Hit, Lost;
    if lo < hi {
      HitsGrow(s, all, lo, hi - 1);
    }
  }

  // ----- The chunked scan -----

  /** [lo, hi) is one answer of the region oracle, clipped to the search. */
  ghost predicate Region(s: Search, lo: nat, hi: nat, readable: bool)
    requires Sensible(s)
  {
    && s.start <= lo < hi <= s.end
    && (forall a, n | lo <= a && 0 < n && a + n <= hi :: |ReadFrom(s, s.maps, a, n)| == if readable then n else 0)
    && (forall c | lo <= c < hi ::
          Hit(s, c) <==> readable && c + |s.pattern| <= hi && (c - s.start) % s.inc == 0 && Matches(s, c))
    && forall c | lo <= c < hi && Hit(s, c) :: Lost(s, c) <==> lo == 0 && c < CHUNK
  }

  /** Everything below `frontier` has been looked at, and there is room for more. */
  ghost predicate Progress(s: Search, matches: seq<nat>, count: nat, frontier: nat)
    requires Sensible(s)
  {
    count < MAX_HIT_COUNT <= |matches| && matches[..count] == Hits(s, false, frontier)
  }

  ghost predicate Full(s: Search, matches: seq<nat>, count: nat)
    requires Sensible(s)
  {
    count == MAX_HIT_COUNT <= |matches| && matches[..count] <= Hits(s, false, s.end)
  }

  method MatchesAt(s: Search, buffer: seq<bv8>, offset: nat, ghost address: nat) returns (matched: bool)
    requires |s.mask| >= |s.pattern| && offset + |s.pattern| <= |buffer|
    requires forall i | 0 <= i < |buffer| :: buffer[i] == s.byteAt(address + i)
    ensures matched == Matches(s, address + offset)
  {
    matched := true;
    for patternIndex := 0 to |s.pattern|
      invariant matched
      invariant forall i | 0 <= i < patternIndex :: s.mask[i] == '?' || s.pattern[i] == s.byteAt(address + offset + i)
    {
      if s.mask[patternIndex] != '?' && s.pattern[patternIndex] != buffer[offset + patternIndex] {
        assert buffer[offset + patternIndex] == s.byteAt(address + offset + patternIndex);
        matched := false;
        break;
      }
    }
  }

  /** The candidates of one chunk; every one of them fits the region. */
  method TryCandidates(s: Search, address: nat, candidateCount: nat, buffer: seq<bv8>, match_addr: array<nat>,
                       resultCount: nat,
                       ghost lo: nat, ghost hi: nat)
    returns (count: nat, full: bool)
    requires Sensible(s) && Region(s, lo, hi, true) && lo <= address && address != 0
    requires candidateCount + |s.pattern| - 1 <= |buffer| && address + |buffer| <= hi
    requires lo == 0 ==> address >= CHUNK
    requires forall i | 0 <= i < |buffer| :: buffer[i] == s.byteAt(address + i)
    requires Progress(s, match_addr[..], resultCount, address)
    modifies match_addr
    ensures if full then Full(s, match_addr[..], count)
            else Progress(s, match_addr[..], count, address + candidateCount)
  {
    hide Matches, Lost, Hit;
    count := resultCount;
    full := false;
    var offset := 0;
    while offset < candidateCount
      invariant 0 <= offset <= candidateCount && !full
      invariant Progress(s, match_addr[..], count, address + offset)
    {
      var candidate := address + offset;
      assert Hits(s, false, candidate + 1)
          == Hits(s, false, candidate) + if (candidate - s.start) % s.inc == 0 && Matches(s, candidate) then [candidate]
              else [];
      if (candidate - s.start) % s.inc == 0 {
        var matched := MatchesAt(s, buffer, offset, address);
        if matched {
          match_addr[count] := candidate;
          count := count + 1;
          assert match_addr[..count] == Hits(s, false, candidate + 1);
          if count >= MAX_HIT_COUNT {
            HitsGrow(s, false, candidate + 1, s.end);
            full := true;
            return;
          }
        }
      }
      offset := offset + 1;
    }
  }

  /** One chunk: read it, try its candidates; what lies between the last candidate and the next chunk cannot match. */
  method ScanChunk(s: Search, address: nat, regionEnd: nat, match_addr: array<nat>, resultCount: nat,
                   ghost regionStart: nat, ghost readable: bool)
    returns (count: nat, full: bool)
    requires Sensible(s) && Region(s, regionStart, regionEnd, readable) && regionStart <= address < regionEnd
    requires regionStart == 0 ==> address == 0 || address >= CHUNK
    requires Progress(s, match_addr[..], resultCount, address)
    modifies match_addr
    ensures if full then Full(s, match_addr[..], count)
            else Progress(s, match_addr[..], count, Min(address + CHUNK, regionEnd))
  {
    hide Matches, Lost, Hit, Full;
    count, full := resultCount, false;
    var remaining := regionEnd - address;
    var requested := CHUNK + |s.pattern| - 1;
    if requested > remaining {
      requested := remaining;
    }
    var buffer := ReadProcessMemory(s, address, requested);
    ghost var frontier := address;
    if |buffer| >= |s.pattern| {
      var candidateCount := |buffer| - |s.pattern| + 1;
      if candidateCount > CHUNK {
        candidateCount := CHUNK;
      }
      count, full := TryCandidates(s, address, candidateCount, buffer, match_addr, count, regionStart, regionEnd);
      frontier := address + candidateCount;
    }
    if !full {
      NoHits(s, false, frontier, Min(address + CHUNK, regionEnd));
    }
  }

  method ScanRegion(s: Search, regionStart: nat, regionEnd: nat, match_addr: array<nat>, resultCount: nat,
                    ghost readable: bool)
    returns (count: nat, full: bool)
    requires Sensible(s) && Region(s, regionStart, regionEnd, readable)
    requires Progress(s, match_addr[..], resultCount, regionStart)
    modifies match_addr
    ensures if full then Full(s, match_addr[..], count) else Progress(s, match_addr[..], count, regionEnd)
  {
    hide Matches, Lost, Hit, Progress, Full, Hits;
    assert regionEnd < WORD;
    count, full := resultCount, false;
    var address := regionStart;
    while address < regionEnd
      invariant regionStart <= address && !full
      invariant regionStart == 0 ==> address == 0 || address >= CHUNK
      invariant Progress(s, match_addr[..], count, Min(address, regionEnd))
      decreases regionEnd - address
    {
      count, full := ScanChunk(s, address, regionEnd, match_addr, count, regionStart, readable);
      if full {
        return;
      }
      var next := (address + CHUNK) % WORD;
      if next <= address {
        break;
      }
      address := next;
    }
  }

  /** No mapping that begins at address 0 reaches the cursor, unless the search is still there. */
  ghost predicate PastZero(s: Search, cursor: nat) {
    cursor == 0 || s.start > 0 || cursor >= s.end || forall m | m in s.maps && m.start == 0 :: m.stop <= cursor
  }

  lemma SameMapping(maps: seq<Mapping>, m: Mapping, n: Mapping, a: nat, b: nat)
    requires ValidMaps(maps) && m in maps && n in maps && Covers(m, a) && Covers(n, a)
    ensures m == n
  {
  }

  lemma MappedHit(s: Search, m: Mapping, c: nat)
    requires Sensible(s) && m in s.maps && Covers(m, c) && Wanted(s, m.protection) && s.start <= c < s.end
    ensures Hit(s, c) <==> m.readable && c + |s.pattern| <= m.stop && c + |s.pattern| <= s.end
                           && (c - s.start) % s.inc == 0 && Matches(s, c)
  {
    hide Matches, ValidMaps;
    assert Inside(s, m, c) ==> m in s.maps;
    forall n | n in s.maps && Inside(s, n, c) ensures n == m {
      assert Covers(n, c);
      SameMapping(s.maps, m, n, c, c);
    }
  }

  lemma MappedLost(s: Search, cursor: nat, m: Mapping, c: nat)
    requires Sensible(s) && s.start <= cursor <= c < s.end && PastZero(s, cursor)
    requires m in s.maps && Covers(m, cursor) && Covers(m, c)
    ensures Lost(s, c) <==> cursor == 0 && c < CHUNK
  {
    hide ValidMaps;
    forall n | n in s.maps && n.start == 0 && c < n.stop ensures n == m {
      assert Covers(n, c);
      SameMapping(s.maps, m, n, c, c);
    }
  }

  /** A mapping around the cursor is a region of the scan. */
  lemma MappedRegion(s: Search, cursor: nat, hi: nat, m: Mapping)
    requires Sensible(s) && s.start <= cursor < s.end && PastZero(s, cursor)
    requires m in s.maps && Covers(m, cursor) && Wanted(s, m.protection)
    requires hi == Min(m.stop, s.end)
    ensures Region(s, cursor, hi, m.readable)
  {
    hide Matches, Hit, Lost, ReadFrom, ValidMaps, PastZero;
    forall a, n | cursor <= a && 0 < n && a + n <= hi
      ensures |ReadFrom(s, s.maps, a, n)| == if m.readable then n else 0
    {
      ReadsMapping(s, s.maps, m, a, n);
    }
    forall c | cursor <= c < hi
      ensures Hit(s, c) <==> m.readable && c + |s.pattern| <= hi && (c - s.start) % s.inc == 0 && Matches(s, c)
    {
      MappedHit(s, m, c);
    }
    forall c | cursor <= c < hi && Hit(s, c) ensures Lost(s, c) <==> cursor == 0 && c < CHUNK {
      MappedLost(s, cursor, m, c);
    }
  }

  /** A gap: nothing can be read and nothing matches. */
  lemma GapRegion(s: Search, lo: nat, hi: nat)
    requires Sensible(s) && s.start <= lo < hi <= s.end
    requires forall m | m in s.maps :: m.stop <= lo || hi <= m.start
    ensures Region(s, lo, hi, false) && PastZero(s, hi) && forall c | lo <= c < hi :: !Hit(s, c)
  {
    forall a, n | lo <= a && 0 < n && a + n <= hi ensures ReadFrom(s, s.maps, a, n) == [] {
      ReadsNothing(s, s.maps, a, n);
    }
  }

  /** No address of a mapping whose protection is not asked for matches. */
  lemma UnwantedRegion(s: Search, lo: nat, hi: nat, m: Mapping)
    requires Sensible(s) && m in s.maps && m.start <= lo < hi <= m.stop && !Wanted(s, m.protection)
    ensures forall c | lo <= c < hi :: !Hit(s, c)
  {
    forall c, n | lo <= c < hi && n in s.maps && Inside(s, n, c) ensures false {
      SameMapping(s.maps, m, n, c, c);
    }
  }

  /** What an answer that describes mapping m means for the stretch it covers. */
  lemma AnsweredMapping(s: Search, cursor: nat, m: Mapping, hi: nat)
    requires Sensible(s) && s.start <= cursor < s.end && PastZero(s, cursor)
    requires m in s.maps && Covers(m, cursor) && hi == Min(m.stop, s.end)
    ensures cursor < hi && PastZero(s, hi)
    ensures Wanted(s, m.protection) ==> Region(s, cursor, hi, m.readable)
    ensures !Wanted(s, m.protection) ==> forall c | cursor <= c < hi :: !Hit(s, c)
  {
    hide Region, Hit, Lost, PastZero, ValidMaps, Wanted;
    if Wanted(s, m.protection) {
      MappedRegion(s, cursor, hi, m);
    } else {
      UnwantedRegion(s, cursor, hi, m);
    }
    PastMapping(s, m, hi);
  }

  /** What one answer of the oracle means for the stretch it covers. */
  lemma Answered(s: Search, cursor: nat, r: RegionInfo, hi: nat) returns (readable: bool)
    requires Sensible(s) && s.start <= cursor < s.end && PastZero(s, cursor) && Describes(s.maps, cursor, true, r)
    requires hi == Min(r.baseaddress + r.size, s.end)
    ensures cursor < hi && PastZero(s, hi)
    ensures Wanted(s, r.protection) ==> Region(s, cursor, hi, readable)
    ensures !Wanted(s, r.protection) ==> forall c | cursor <= c < hi :: !Hit(s, c)
  {
    hide Region, Hit, Lost, PastZero, Sensible, Wanted;
    if m :| m in s.maps && Covers(m, cursor) && r.baseaddress + r.size == m.stop && r.protection == m.protection {
      readable := m.readable;
      AnsweredMapping(s, cursor, m, hi);
    } else {
      readable := false;
      GapRegion(s, cursor, hi);
    }
  }

  lemma AnswerInRange(maps: seq<Mapping>, cursor: nat, r: RegionInfo)
    requires Describes(maps, cursor, true, r)
    ensures r.baseaddress <= cursor < r.baseaddress + r.size < WORD
  {
  }

  lemma PastMapping(s: Search, m: Mapping, hi: nat)
    requires ValidMaps(s.maps) && m in s.maps && (hi == m.stop || hi >= s.end)
    ensures PastZero(s, hi)
  {
    forall n | n in s.maps && n.start == 0 ensures n.stop <= m.stop {
      if n != m && m.stop < n.stop { SameMapping(s.maps, m, n, m.start, m.start); }
    }
  }

  predicate Rejected(s: Search, match_addr: array?<nat>) {
    match_addr == null || |s.pattern| == 0 || |s.pattern| > MAX_AOB_PATTERN_SIZE || s.inc <= 0 || s.end <= s.start
  }

  /** The scan stores the first MAX_HIT_COUNT hits, in ascending order, and returns their number. */
  method AOBScan(s: Search, match_addr: array?<nat>) returns (resultCount: nat)
    requires ValidMaps(s.maps) && |s.mask| >= |s.pattern| && s.start < WORD && s.end < WORD
    requires match_addr != null ==> match_addr.Length >= MAX_HIT_COUNT
    modifies match_addr
    ensures if match_addr == null || |s.pattern| == 0 || |s.pattern| > 0x10_0000 || s.inc <= 0 || s.end <= s.start then
              resultCount == 0
            else
              var h := Hits(s, false, s.end);
              && resultCount == (if |h| < 5000000 then |h| else 5000000) && resultCount <= match_addr.Length
              && match_addr[..resultCount] == h[..resultCount]
  {
    hide Hit, Lost, Region, Describes, Hits, PastZero, ValidMaps;
    resultCount := 0;
    if Rejected(s, match_addr) {
      return;
    }
    var cursor: int := s.start;
    BeforeStart(s);
    var full := false;
    while cursor < s.end
      invariant s.start <= cursor < WORD
      invariant PastZero(s, cursor) && Progress(s, match_addr[..], resultCount, Min(cursor, s.end))
      decreases s.end - cursor
    {
      var found, rinfo := VirtualQueryEx(s.maps, cursor);
      if !found || rinfo.size == 0 {
        BeyondMaps(s, cursor, found, rinfo);
        var next := NextPage(cursor);
        if next <= cursor {
          break;
        }
        cursor := next;
        continue;
      }
      AnswerInRange(s.maps, cursor, rinfo);
      var regionStart := if rinfo.baseaddress > cursor then rinfo.baseaddress else cursor;
      var regionEnd := if WORD - 1 - rinfo.baseaddress < rinfo.size then WORD - 1 else rinfo.baseaddress + rinfo.size;
      if regionEnd > s.end {
        regionEnd := s.end;
      }
      ghost var readable := Answered(s, cursor, rinfo, regionEnd);
      if Wanted(s, rinfo.protection) && regionEnd > regionStart && regionEnd - regionStart >= |s.pattern| {
        resultCount, full := ScanRegion(s, regionStart, regionEnd, match_addr, resultCount, readable);
        if full {
          return;
        }
      } else {
        NothingFits(s, cursor, regionEnd, Wanted(s, rinfo.protection), readable);
      }
      if regionEnd <= cursor {
        var next := NextPage(cursor);
        if next <= cursor {
          break;
        }
        cursor := next;
      } else {
        cursor := regionEnd;
      }
    }
  }

  lemma BeforeStart(s: Search)
    requires Sensible(s)
    ensures Hits(s, false, s.start) == [] && PastZero(s, s.start)
  {
    NoHits(s, false, 0, s.start);
  }

  lemma BeyondMaps(s: Search, cursor: nat, found: bool, r: RegionInfo)
    requires Sensible(s) && s.start <= cursor < s.end && Describes(s.maps, cursor, found, r) && (!found || r.size == 0)
    ensures Hits(s, false, cursor) == Hits(s, false, Min(cursor + 4096, s.end)) == Hits(s, false, s.end)
    ensures PastZero(s, cursor + 4096)
  {
    NoHits(s, false, cursor, Min(cursor + 4096, s.end));
    NoHits(s, false, cursor, s.end);
  }

  lemma NothingFits(s: Search, cursor: nat, hi: nat, wanted: bool, readable: bool)
    requires Sensible(s) && s.start <= cursor < hi <= s.end
    requires wanted ==> hi - cursor < |s.pattern| && Region(s, cursor, hi, readable)
    requires !wanted ==> forall c | cursor <= c < hi :: !Hit(s, c)
    ensures Hits(s, false, cursor) == Hits(s, false, hi)
  {
    hide Hit, Lost;
    NoHits(s, false, cursor, hi);
  }

  // ----- Chunked against simple -----

  lemma {:induction false} NoneLost(s: Search, hi: nat)
    requires Sensible(s) && forall c: nat | c < hi && Hit(s, c) :: !Lost(s, c)
    ensures Hits(s, false, hi) == Hits(s, true, hi)
  {
    hide Hit, Lost;
    if hi > 0 {
      NoneLost(s, hi - 1);
    }
  }

  lemma LostDown(s: Search, c: nat, d: nat)
    requires Lost(s, c) && d <= c
    ensures Lost(s, d)
  {
    var m :| m in s.maps && m.start == 0 && c < m.stop;
    assert d < m.stop;
  }

  function First(s: seq<nat>): seq<nat> { s[..Min(|s|, MAX_HIT_COUNT)] }

  lemma HeadDiffers(a: seq<nat>, b: seq<nat>)
    requires |b| > 0 && b[0] !in a
    ensures First(a) != First(b)
  {
    assert First(b)[0] == b[0];
    if |a| > 0 {
      assert First(a)[0] == a[0] && a[0] in a;
    }
  }

  /** The earliest match of all is lost as soon as one match is. */
  lemma EarliestIsLost(s: Search, c: nat)
    requires Sensible(s) && c < s.end && Hit(s, c) && Lost(s, c)
    ensures var simple := Hits(s, true, s.end); |simple| > 0 && simple[0] !in Hits(s, false, s.end)
  {
    hide Hit, Lost, Hits;
    var simple := Hits(s, true, s.end);
    HitsExact(s, true, s.end);
    HitsExact(s, false, s.end);
    assert c in simple;
    assert simple[0] <= c;
    LostDown(s, c, simple[0]);
  }

  /** The stored hits are those of the simple scan if and only if no match lies in an unreadable first chunk. */
  lemma ScanIsSimpleScanExactly(s: Search)
    requires Sensible(s)
    ensures First(Hits(s, false, s.end)) == First(Hits(s, true, s.end))
            <==> forall c: nat | c < s.end && Hit(s, c) :: !Lost(s, c)
  {
    hide Hit, Lost, Hits, First;
    if c: nat :| c < s.end && Hit(s, c) && Lost(s, c) {
      EarliestIsLost(s, c);
      HeadDiffers(Hits(s, false, s.end), Hits(s, true, s.end));
    } else {
      NoneLost(s, s.end);
    }
  }

  /** In particular for every search that does not start at address 0 in a process with a mapping there. */
  lemma ScanIsSimpleScan(s: Search)
    requires Sensible(s) && (s.start > 0 || forall m | m in s.maps :: m.start > 0)
    ensures Hits(s, false, s.end) == Hits(s, true, s.end)
  {
    NoneLost(s, s.end);
  }

  /** The family that fails is not empty: one page of zeros mapped at address 0, searched for a zero. */
  lemma FirstChunkIsLost(s: Search)
    requires s.maps == [Mapping(0, 4096, 2, true)] && s.pattern == [0] && s.mask == "x"
    requires s.start == 0 && s.end == 4096 && s.inc == 1 && s.protection == 2 && forall a :: s.byteAt(a) == 0
    ensures Sensible(s) && Hits(s, false, s.end) == [] && 0 in Hits(s, true, s.end)
  {
    HitsExact(s, true, s.end);
    var m := s.maps[0];
    assert m in s.maps && Inside(s, m, 0);
    NoHits(s, false, 0, s.end);
  }
}
