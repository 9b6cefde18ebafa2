/** The word-by-word ptrace loops of Cheat Engine/ceserver/api.c: a buffer of any length written to and read from a
    process that is accessed eight bytes at a time. */
module WordAccess {
  type Byte = bv8

  /** Where the word begins that holds byte k of a transfer. */
  function WordOf(k: nat): (w: nat)
    ensures w <= k < w + 8 && w % 8 == 0
  {
    k / 8 * 8
  }

  lemma WordIs(offset: nat, k: nat)
    requires offset % 8 == 0 && offset <= k < offset + 8
    ensures WordOf(k) == offset
  {
  }

  /** The last word of a transfer of n bytes: what is left after whole words are gone, one to eight bytes. */
  function Tail(n: nat): (t: nat)
    ensures n > 0 ==> t < n <= t + 8 && t % 8 == 0
  {
    if n == 0 then 0 else WordOf(n - 1)
  }

  lemma TailIs(n: nat, offset: nat)
    requires offset < n <= offset + 8 && offset % 8 == 0
    ensures Tail(n) == offset
  {
    WordIs(offset, n - 1);
  }

  /** A word access succeeds when all its bytes are mapped. */
  predicate Accessible(mapped: seq<bool>, a: nat) {
    a + 8 <= |mapped| && forall x | a <= x < a + 8 :: mapped[x]
  }

  predicate MappedAt(mapped: seq<bool>, x: nat) { x < |mapped| && mapped[x] }

  /** How many bytes from a on are mapped, up to `max`. */
  function MappedFrom(mapped: seq<bool>, a: nat, max: nat): (s: nat)
    ensures s <= max && (s > 0 ==> a + s <= |mapped|)
    ensures forall x | a <= x < a + s :: mapped[x]
    ensures s < max ==> a + s >= |mapped| || !mapped[a + s]
    decreases max
  {
    if max == 0 || a >= |mapped| || !mapped[a] then 0 else 1 + MappedFrom(mapped, a + 1, max - 1)
  }

  /** How much of a word poked at a is stored: up to its first byte that is not mapped, though the poke then fails. */
  function Stored(mapped: seq<bool>, a: nat): (s: nat)
    ensures s <= 8 && (s == 8 <==> Accessible(mapped, a)) && (s > 0 ==> a + s <= |mapped|)
  {
    MappedFrom(mapped, a, 8)
  }

  /** Byte k of a transfer to a gets stored. */
  predicate Reaches(mapped: seq<bool>, a: nat, k: nat) {
    k < WordOf(k) + Stored(mapped, a + WordOf(k))
  }

  /** A byte reaches memory exactly when its word is mapped up to it. */
  lemma ReachesExactly(mapped: seq<bool>, a: nat, k: nat)
    ensures Reaches(mapped, a, k) <==> forall x: nat | a + WordOf(k) <= x <= a + k :: MappedAt(mapped, x)
  {
    hide WordOf;
    var w := a + WordOf(k);
    var s := MappedFrom(mapped, w, 8);
    if !Reaches(mapped, a, k) {
      var x := w + s;
      assert x <= a + k && !MappedAt(mapped, x);
    }
  }

  /** The first n bytes of a transfer: those that reach memory are the buffer's, every other byte of memory is as
      before. */
  ghost predicate Overlaid(m: seq<Byte>, before: seq<Byte>, mapped: seq<bool>, a: nat, buffer: seq<Byte>, n: nat) {
    && |m| == |before| == |mapped| && n <= |buffer|
    && forall x | 0 <= x < |m| ::
         m[x] == if a <= x < a + n && Reaches(mapped, a, x - a) then buffer[x - a] else before[x]
  }

  /** Byte x lies behind a transfer of n bytes in its last word, which cannot be read but is stored so far. */
  predicate Spilled(mapped: seq<bool>, a: nat, n: nat, x: nat) {
    && n > 0 && a + n <= x < a + Tail(n) + Stored(mapped, a + Tail(n))
    && !Accessible(mapped, a + Tail(n))
  }

  /** A whole transfer: its bytes that reach memory, and ones where the last word was stored beyond them. */
  ghost predicate Transferred(m: seq<Byte>, before: seq<Byte>, mapped: seq<bool>, a: nat, buffer: seq<Byte>) {
    && |m| == |before| == |mapped|
    && forall x | 0 <= x < |m| ::
         m[x] == if a <= x < a + |buffer| && Reaches(mapped, a, x - a) then buffer[x - a]
                 else if Spilled(mapped, a, |buffer|, x) then 0xFF
                 else before[x]
  }

  function Splice(s: seq<Byte>, i: nat, t: seq<Byte>): (r: seq<Byte>)
    requires i + |t| <= |s|
    ensures |r| == |s| && forall x | 0 <= x < |s| :: r[x] == if i <= x < i + |t| then t[x - i] else s[x]
  {
    s[..i] + t + s[i + |t|..]
  }

  /** Memory after a poke. */
  function Poked(m: seq<Byte>, mapped: seq<bool>, a: nat, word: seq<Byte>): (r: seq<Byte>)
    requires |m| == |mapped| && |word| == 8
    ensures |r| == |m|
    ensures forall x | 0 <= x < |m| :: r[x] == if a <= x < a + Stored(mapped, a) then word[x - a] else m[x]
  {
    var s := Stored(mapped, a);
    if s == 0 then m else Splice(m, a, word[..s])
  }

  /** One whole word of the transfer. */
  lemma OverlaidWord(m: seq<Byte>, before: seq<Byte>, mapped: seq<bool>, a: nat, buffer: seq<Byte>, offset: nat)
    requires Overlaid(m, before, mapped, a, buffer, offset) && offset % 8 == 0 && offset + 8 <= |buffer|
    ensures Overlaid(Poked(m, mapped, a + offset, buffer[offset..offset + 8]), before, mapped, a, buffer, offset + 8)
  {
    hide WordOf, Accessible, Stored, Poked;
    forall k: nat | offset <= k < offset + 8 ensures WordOf(k) == offset {
      WordIs(offset, k);
    }
  }

  /** The last word: what is left of the buffer, then the rest of the word as it was read, or ones. */
  lemma OverlaidTail(m: seq<Byte>, before: seq<Byte>, mapped: seq<bool>, a: nat, buffer: seq<Byte>, offset: nat,
                     word: seq<Byte>)
    requires Overlaid(m, before, mapped, a, buffer, offset) && offset % 8 == 0 && offset < |buffer| <= offset + 8
    requires |word| == 8
    requires forall i | 0 <= i < 8 :: word[i] == if i < |buffer| - offset then buffer[offset + i]
                                                 else if Accessible(mapped, a + offset) then m[a + offset + i]
                                                 else 0xFF
    ensures Transferred(Poked(m, mapped, a + offset, word), before, mapped, a, buffer)
  {
    var r := Poked(m, mapped, a + offset, word);
    TailIs(|buffer|, offset);
    hide WordOf, Accessible, Stored, Poked, Tail;
    forall k: nat | offset <= k < |buffer| ensures WordOf(k) == offset {
      WordIs(offset, k);
    }
    forall x: nat | x < |m| && a + |buffer| <= x
      ensures r[x] == if Spilled(mapped, a, |buffer|, x) then 0xFF else before[x]
    {
      assert m[x] == before[x];
    }
  }

  /** What WriteProcessMemory returns for a transfer of n bytes. */
  function Written(mapped: seq<bool>, a: nat, n: nat): (w: nat)
    ensures w <= n
  {
    if Accessible(mapped, a + Tail(n)) then n else Tail(n)
  }

  lemma WrittenIs(mapped: seq<bool>, a: nat, n: nat)
    ensures Written(mapped, a, n) == if Accessible(mapped, a + Tail(n)) then n else Tail(n)
    ensures n == 0 ==> Tail(n) == 0
  {
  }

  class Process {
    const mem: array<Byte>
    const mapped: seq<bool>

    constructor (m: seq<Byte>, mappedBytes: seq<bool>)
      requires |m| == |mappedBytes|
      ensures Valid() && mem[..] == m && mapped == mappedBytes && fresh(mem)
    {
      mem := new Byte[|m|](i requires 0 <= i < |m| => m[i]);
      mapped := mappedBytes;
      new;
      assert mem[..] == m;
    }

    predicate Valid() { |mapped| == mem.Length }

    /** PTRACE_PEEKDATA: all ones on failure. */
    method Peek(a: nat) returns (ok: bool, word: seq<Byte>)
      requires Valid()
      ensures |word| == 8 && ok == Accessible(mapped, a)
      ensures word == if ok then mem[a..a + 8] else seq(8, i => 0xFF)
    {
      ok := Accessible(mapped, a);
      word := if ok then mem[a..a + 8] else [0xFF, 0xFF, 0xFF, 0xFF, 0xFF, 0xFF, 0xFF, 0xFF];
    }

    /** PTRACE_POKEDATA: stores byte by byte until one is not mapped, and then fails. */
    method Poke(a: nat, word: seq<Byte>) returns (ok: bool)
      requires Valid() && |word| == 8
      modifies mem
      ensures ok == Accessible(mapped, a)
      ensures mem[..] == Poked(old(mem[..]), mapped, a, word)
    {
      var i := 0;
      ghost var before := mem[..];
      while i < 8 && a + i < mem.Length && mapped[a + i]
        invariant i <= Stored(mapped, a) && (i > 0 ==> a + i <= mem.Length)
        invariant forall x | 0 <= x < mem.Length :: mem[x] == if a <= x < a + i then word[x - a] else before[x]
      {
        mem[a + i] := word[i];
        i := i + 1;
      }
      ok := i == 8;
    }

    /** Whole words, whether or not they can be written, as long as more than one word is left. */
    method WriteWords(a: nat, buffer: seq<Byte>, ghost before: seq<Byte>) returns (offset: nat)
      requires Valid() && Overlaid(mem[..], before, mapped, a, buffer, 0)
      modifies mem
      ensures offset <= |buffer| <= offset + 8 && offset % 8 == 0 && (|buffer| > 0 ==> offset < |buffer|)
      ensures Overlaid(mem[..], before, mapped, a, buffer, offset)
    {
      hide WordOf, Accessible, Overlaid;
      var max := |buffer| - 8;
      offset := 0;
      while offset < max
        invariant offset <= |buffer| && offset % 8 == 0 && (|buffer| > 0 ==> offset < |buffer|)
        invariant Overlaid(mem[..], before, mapped, a, buffer, offset)
      {
        OverlaidSizes(mem[..], before, mapped, a, buffer, offset);
        OverlaidWord(mem[..], before, mapped, a, buffer, offset);
        var ok := Poke(a + offset, buffer[offset..offset + 8]);
        offset := offset + 8;
      }
    }

    /** The last one to eight bytes, by read-modify-write. */
    method WriteTail(a: nat, buffer: seq<Byte>, offset: nat, ghost before: seq<Byte>) returns (ok: bool)
      requires Valid() && offset < |buffer| <= offset + 8 && offset % 8 == 0
      requires Overlaid(mem[..], before, mapped, a, buffer, offset)
      modifies mem
      ensures ok == Accessible(mapped, a + offset)
      ensures Transferred(mem[..], before, mapped, a, buffer)
    {
      hide WordOf, Accessible, Overlaid, Transferred, Poked;
      var readable, old8 := Peek(a + offset);
      var word := Patched(old8, buffer[offset..]);
      if readable {
        AccessibleInside(mapped, a + offset);
      }
      forall i | 0 <= i < 8
        ensures word[i] == if i < |buffer| - offset then buffer[offset + i]
                           else if readable then mem[..][a + offset + i]
                           else 0xFF
      {
        assert i >= |buffer| - offset ==> word[i] == old8[i];
      }
      OverlaidTail(mem[..], before, mapped, a, buffer, offset, word);
      ok := Poke(a + offset, word);
    }

    /** The ptrace part of WriteProcessMemory; whole words count as written without a look at the result. */
    method WriteProcessMemory(a: nat, buffer: seq<Byte>) returns (written: nat)
      requires Valid()
      modifies mem
      ensures Transferred(mem[..], old(mem[..]), mapped, a, buffer)
      ensures written == Written(mapped, a, |buffer|)
    {
      hide WordOf, Accessible, Overlaid, Transferred, Written, Tail;
      ghost var before := mem[..];
      WrittenIs(mapped, a, |buffer|);
      NothingOverlaid(before, mapped, a, buffer);
      var offset := WriteWords(a, buffer, before);
      written := offset;
      if offset < |buffer| {
        TailIs(|buffer|, offset);
        var ok := WriteTail(a, buffer, offset, before);
        if ok {
          written := written + (|buffer| - offset);
        }
      } else {
        NothingTransferred(mem[..], before, mapped, a, buffer);
      }
    }

    /** The bytes left over, copied one by one over the start of the word. */
    static method Patched(word: seq<Byte>, bytes: seq<Byte>) returns (patched: seq<Byte>)
      requires |bytes| <= |word|
      ensures patched == bytes + word[|bytes|..]
    {
      patched := word;
      for i := 0 to |bytes|
        invariant |patched| == |word| && patched == bytes[..i] + word[i..]
      {
        patched := patched[i := bytes[i]];
      }
    }

    static method Store(buffer: array<Byte>, offset: nat, bytes: seq<Byte>)
      requires offset + |bytes| <= buffer.Length
      modifies buffer
      ensures buffer[..] == Splice(old(buffer[..]), offset, bytes)
    {
      forall i | 0 <= i < |bytes| { buffer[offset + i] := bytes[i]; }
    }

    /** One word peeked, and its first n bytes stored behind the others. */
    method FetchWord(a: nat, offset: nat, n: nat, buffer: array<Byte>, ghost before: seq<Byte>) returns (ok: bool)
      requires Valid() && buffer != mem && 0 < n <= 8 && offset + n <= buffer.Length
      requires Filled(buffer[..], mem[..], a, before, offset)
      modifies buffer
      ensures ok == Accessible(mapped, a + offset)
      ensures Filled(buffer[..], mem[..], a, before, if ok then offset + n else offset)
    {
      var value;
      ok, value := Peek(a + offset);
      if ok {
        AccessibleInside(mapped, a + offset);
        FetchedMore(mem[..], a, offset, before, buffer[..], value, n);
        Store(buffer, offset, value[..n]);
      }
    }

    /** Stops at the first word that cannot be read; the buffer keeps what it held from there on. */
    method ReadProcessMemory(a: nat, buffer: array<Byte>) returns (bread: nat)
      requires Valid() && buffer != mem
      modifies buffer
      ensures bread == ReadableBytes(mapped, a, buffer.Length)
      ensures Filled(buffer[..], mem[..], a, old(buffer[..]), bread)
    {
      hide Accessible, ReadableBytes, Filled;
      var size := buffer.Length;
      var offset: int, max: int := 0, size - 8;
      var isReadable := true;
      bread := 0;
      ghost var before := buffer[..];
      NothingFilled(mem[..], a, before);
      while offset < max && isReadable
        invariant 0 <= offset <= size && offset % 8 == 0 && bread == offset && (size > 0 ==> offset < size)
        invariant ReadableBytes(mapped, a, size)
               == if isReadable then offset + ReadableBytes(mapped, a + offset, size - offset) else offset
        invariant Filled(buffer[..], mem[..], a, before, offset)
        decreases max - offset, isReadable
      {
        ReadableNext(mapped, a + offset, size - offset);
        isReadable := FetchWord(a, offset, 8, buffer, before);
        if isReadable {
          offset := offset + 8;
          bread := bread + 8;
        }
      }
      ReadableNext(mapped, a + offset, size - offset);
      if offset < size && isReadable {
        var ok := FetchWord(a, offset, size - offset, buffer, before);
        if ok {
          bread := bread + (size - offset);
        }
      }
    }
  }

  /** The buffer begins with n bytes of memory, which exist, and is otherwise as it was. */
  ghost predicate Filled(buffer: seq<Byte>, m: seq<Byte>, a: nat, before: seq<Byte>, n: nat) {
    && n <= |before| == |buffer| && (n > 0 ==> a + n <= |m|)
    && (forall x | 0 <= x < n :: buffer[x] == m[a + x])
    && forall x | n <= x < |before| :: buffer[x] == before[x]
  }

  lemma NothingFilled(m: seq<Byte>, a: nat, buffer: seq<Byte>)
    ensures Filled(buffer, m, a, buffer, 0)
  {
  }

  /** The first n bytes of the word read at a + offset are stored behind what has been fetched. */
  lemma FetchedMore(m: seq<Byte>, a: nat, offset: nat, before: seq<Byte>, buffer: seq<Byte>, word: seq<Byte>, n: nat)
    requires a + offset + 8 <= |m| && 0 < n <= 8 && offset + n <= |before| && |word| == 8
    requires Filled(buffer, m, a, before, offset) && word == m[a + offset..a + offset + 8]
    ensures Filled(Splice(buffer, offset, word[..n]), m, a, before, offset + n)
  {
    hide Splice;
    assert forall x | 0 <= x < n :: word[x] == m[a + offset + x];
  }

  lemma ReadableNext(mapped: seq<bool>, a: nat, n: nat)
    ensures n == 0 || !Accessible(mapped, a) ==> ReadableBytes(mapped, a, n) == 0
    ensures 0 < n <= 8 && Accessible(mapped, a) ==> ReadableBytes(mapped, a, n) == n
    ensures n > 8 && Accessible(mapped, a) ==> ReadableBytes(mapped, a, n) == 8 + ReadableBytes(mapped, a + 8, n - 8)
  {
  }

  lemma OverlaidSizes(m: seq<Byte>, before: seq<Byte>, mapped: seq<bool>, a: nat, buffer: seq<Byte>, n: nat)
    requires Overlaid(m, before, mapped, a, buffer, n)
    ensures |m| == |mapped| && n <= |buffer|
  {
  }

  lemma NothingTransferred(m: seq<Byte>, before: seq<Byte>, mapped: seq<bool>, a: nat, buffer: seq<Byte>)
    requires Overlaid(m, before, mapped, a, buffer, 0) && buffer == []
    ensures Transferred(m, before, mapped, a, buffer)
  {
  }

  lemma AccessibleInside(mapped: seq<bool>, a: nat)
    requires Accessible(mapped, a)
    ensures a + 8 <= |mapped|
  {
  }

  lemma NothingOverlaid(m: seq<Byte>, mapped: seq<bool>, a: nat, buffer: seq<Byte>)
    requires |m| == |mapped|
    ensures Overlaid(m, m, mapped, a, buffer, 0)
  {
  }

  /** Bytes of a transfer before the first word that cannot be read. */
  function ReadableBytes(mapped: seq<bool>, a: nat, n: nat): (r: nat)
    ensures r <= n
    decreases n
  {
    if n == 0 || !Accessible(mapped, a) then 0
    else if n <= 8 then n
    else 8 + ReadableBytes(mapped, a + 8, n - 8)
  }

  /** Every word of a transfer of n bytes is accessible, the last one to its eighth byte. */
  ghost predicate AllAccessible(mapped: seq<bool>, a: nat, n: nat) {
    forall k: nat | k < n :: Accessible(mapped, a + WordOf(k))
  }

  /** The bytes read are those of the accessible words before the first inaccessible one. */
  lemma {:induction false} ReadableExactly(mapped: seq<bool>, a: nat, n: nat)
    ensures var r := ReadableBytes(mapped, a, n);
            && AllAccessible(mapped, a, r)
            && (r < n ==> r % 8 == 0 && !Accessible(mapped, a + r))
            && (r > 0 ==> a + r <= |mapped|)
    decreases n
  {
    hide WordOf, Accessible;
    var r := ReadableBytes(mapped, a, n);
    if n > 0 && Accessible(mapped, a) {
      AccessibleInside(mapped, a);
      if n > 8 {
        ReadableExactly(mapped, a + 8, n - 8);
      }
      forall k: nat | k < r ensures Accessible(mapped, a + WordOf(k)) {
        if k < 8 {
          WordIs(0, k);
        } else {
          WordIs(WordOf(k - 8) + 8, k);
        }
      }
    }
  }

  lemma ReadableAll(mapped: seq<bool>, a: nat, n: nat)
    ensures ReadableBytes(mapped, a, n) == n <==> AllAccessible(mapped, a, n)
  {
    hide WordOf, Accessible, ReadableBytes;
    ReadableExactly(mapped, a, n);
    var r := ReadableBytes(mapped, a, n);
    if r < n {
      WordIs(r, r);
    }
  }

  ghost predicate Arrived(m: seq<Byte>, a: nat, buffer: seq<Byte>) {
    forall k: nat | k < |buffer| :: a + k < |m| && m[a + k] == buffer[k]
  }

  /** When every word is accessible the write changes exactly the bytes of the buffer's length, to the buffer, and
      returns its length. */
  lemma WriteIsExact(m: seq<Byte>, before: seq<Byte>, mapped: seq<bool>, a: nat, buffer: seq<Byte>)
    requires Transferred(m, before, mapped, a, buffer) && AllAccessible(mapped, a, |buffer|) && |buffer| > 0
    ensures a + |buffer| <= |before| && m == Splice(before, a, buffer) && Accessible(mapped, a + Tail(|buffer|))
  {
    hide WordOf, Accessible, Stored;
    AccessibleInside(mapped, a + WordOf(|buffer| - 1));
  }

  /** The first n bytes a transfer goes to are mapped. */
  predicate AllMapped(mapped: seq<bool>, a: nat, n: nat) {
    forall x: nat | a <= x < a + n :: MappedAt(mapped, x)
  }

  /** Every byte of the buffer is in memory, whatever was there, exactly when its bytes are mapped; the count returned
      looks at the last word only, and at all of it. */
  lemma WritesAllExactly(mapped: seq<bool>, a: nat, n: nat)
    ensures (forall m, before, buffer | |buffer| == n && Transferred(m, before, mapped, a, buffer) ::
               Arrived(m, a, buffer))
            <==> AllMapped(mapped, a, n)
  {
    hide WordOf, Accessible, Transferred, Arrived, Reaches;
    if AllMapped(mapped, a, n) {
      forall m, before, buffer | |buffer| == n && Transferred(m, before, mapped, a, buffer)
        ensures Arrived(m, a, buffer)
      {
        forall k: nat | k < n ensures Reaches(mapped, a, k) {
          ReachesExactly(mapped, a, k);
        }
        PrefixArrives(m, before, mapped, a, buffer, n);
        assert buffer[..n] == buffer;
      }
    } else {
      var x: nat :| a <= x < a + n && !MappedAt(mapped, x);
      ReachesExactly(mapped, a, x - a);
      LostByte(mapped, a, n, x - a, n);
    }
  }

  /** The count returned is honest, every byte it counts is in memory whatever was there, exactly when every word
      before the last is accessible. */
  lemma CountIsHonestExactly(mapped: seq<bool>, a: nat, n: nat)
    ensures (forall m, before, buffer | |buffer| == n && Transferred(m, before, mapped, a, buffer) ::
               Arrived(m, a, buffer[..Written(mapped, a, n)]))
            <==> AllAccessible(mapped, a, Tail(n))
  {
    hide WordOf, Accessible, Transferred, Arrived, Stored;
    var w := Written(mapped, a, n);
    if AllAccessible(mapped, a, Tail(n)) {
      CountedAccessible(mapped, a, n);
      forall m, before, buffer | |buffer| == n && Transferred(m, before, mapped, a, buffer)
        ensures Arrived(m, a, buffer[..w])
      {
        PrefixArrives(m, before, mapped, a, buffer, w);
      }
    } else {
      var k: nat :| k < Tail(n) && !Accessible(mapped, a + WordOf(k));
      var j := WordOf(k) + Stored(mapped, a + WordOf(k));
      WordIs(WordOf(k), j);
      WordBefore(k, Tail(n));
      LostByte(mapped, a, n, j, w);
    }
  }

  lemma WordBefore(k: nat, t: nat)
    requires k < t && t % 8 == 0
    ensures WordOf(k) + 8 <= t
  {
  }

  lemma CountedAccessible(mapped: seq<bool>, a: nat, n: nat)
    requires AllAccessible(mapped, a, Tail(n))
    ensures AllAccessible(mapped, a, Written(mapped, a, n))
  {
    hide WordOf, Accessible;
    forall k: nat | Tail(n) <= k < Written(mapped, a, n) ensures Accessible(mapped, a + WordOf(k)) {
      WordIs(Tail(n), k);
    }
  }

  lemma PrefixArrives(m: seq<Byte>, before: seq<Byte>, mapped: seq<bool>, a: nat, buffer: seq<Byte>, w: nat)
    requires Transferred(m, before, mapped, a, buffer) && w <= |buffer|
    requires forall k: nat | k < w :: Reaches(mapped, a, k)
    ensures Arrived(m, a, buffer[..w])
  {
    hide WordOf, Accessible, Stored;
    forall k: nat | k < w ensures a + k < |m| && m[a + k] == buffer[..w][k] {
      assert Reaches(mapped, a, k);
      var x := a + k;
      assert x - a == k;
    }
  }

  /** Sixteen bytes over an unmapped word and a mapped one: sixteen are counted, eight are lost. */
  lemma CountsALostWord(m: seq<Byte>, before: seq<Byte>, buffer: seq<Byte>)
    requires |buffer| == 16
    requires Transferred(m, before, seq(16, x => x >= 8), 0, buffer)
    ensures Written(seq(16, x => x >= 8), 0, 16) == 16 && m == before[..8] + buffer[8..]
  {
    var mapped := seq(16, x => x >= 8);
    assert Accessible(mapped, 8);
    assert !mapped[0];
    assert Stored(mapped, 0) == 0;
    forall x: nat | x < 16 ensures m[x] == if x < 8 then before[x] else buffer[x] {
      WordIs(if x < 8 then 0 else 8, x);
    }
  }

  /** What a transfer would make of memory full of zeros. */
  function OverZeros(mapped: seq<bool>, a: nat, buffer: seq<Byte>): (m: seq<Byte>)
    ensures |m| == |mapped|
  {
    seq(|mapped|, x requires 0 <= x < |mapped| =>
      if a <= x < a + |buffer| && Reaches(mapped, a, x - a) then buffer[x - a]
      else if Spilled(mapped, a, |buffer|, x) then 0xFF
      else 0)
  }

  lemma OverZerosIs(mapped: seq<bool>, a: nat, buffer: seq<Byte>)
    ensures Transferred(OverZeros(mapped, a, buffer), seq(|mapped|, x => 0), mapped, a, buffer)
  {
    hide Reaches, Spilled;
  }

  /** Twos written over zeros: a byte that does not reach memory is not there. */
  lemma LostByte(mapped: seq<bool>, a: nat, n: nat, k: nat, w: nat)
    requires k < w <= n && !Reaches(mapped, a, k)
    ensures exists m, before, buffer ::
              |buffer| == n && Transferred(m, before, mapped, a, buffer) && !Arrived(m, a, buffer[..w])
    ensures w == n ==> exists m, before, buffer ::
              |buffer| == n && Transferred(m, before, mapped, a, buffer) && !Arrived(m, a, buffer)
  {
    var buffer: seq<Byte> := seq(n, x => 2);
    var m := OverZeros(mapped, a, buffer);
    OverZerosIs(mapped, a, buffer);
    hide Reaches, Transferred, Spilled;
    assert buffer[..w][k] == 2;
    assert a + k < |m| ==> m[a + k] != 2 by {
      var x := a + k;
      assert x - a == k;
    }
    assert !Arrived(m, a, buffer[..w]);
    if w == n {
      assert buffer[..w] == buffer;
    }
  }

  /** No byte outside the buffer's range changes, whatever was there, exactly when the last word can be read or is
      not stored beyond the buffer's end. */
  lemma WritesNothingElseExactly(mapped: seq<bool>, a: nat, n: nat)
    ensures (forall m, before, buffer | |buffer| == n && Transferred(m, before, mapped, a, buffer) ::
               forall x | 0 <= x < |m| && !(a <= x < a + n) :: m[x] == before[x])
            <==> (n > 0 ==> Accessible(mapped, a + Tail(n)) || Stored(mapped, a + Tail(n)) <= n - Tail(n))
  {
    hide WordOf, Accessible, Stored, Reaches, Tail;
    if n > 0 && !Accessible(mapped, a + Tail(n)) && Stored(mapped, a + Tail(n)) > n - Tail(n) {
      var buffer: seq<Byte> := seq(n, x => 2);
      var m, before := OverZeros(mapped, a, buffer), seq(|mapped|, x => 0);
      OverZerosIs(mapped, a, buffer);
      var x := a + n;
      assert x < |mapped| && Spilled(mapped, a, n, x);
      assert m[x] == 0xFF && before[x] == 0;
    }
  }

  /** Three bytes where five are mapped: the two behind them are overwritten, and nothing is counted. */
  lemma SpillsOver(m: seq<Byte>, before: seq<Byte>, buffer: seq<Byte>)
    requires |buffer| == 3 && Transferred(m, before, [true, true, true, true, true], 0, buffer)
    ensures m == buffer + [0xFF, 0xFF] && Written([true, true, true, true, true], 0, 3) == 0
  {
    var mapped := [true, true, true, true, true];
    TailIs(3, 0);
    var s := MappedFrom(mapped, 0, 8);
    assert Stored(mapped, 0) == 5;
    forall x: nat | x < 5 ensures m[x] == if x < 3 then buffer[x] else 0xFF {
      WordIs(0, x);
    }
  }

  /** What can be read back of a transfer is what was written, for every pattern of accessible words. */
  lemma ReadsBackWhatWasWritten(m: seq<Byte>, before: seq<Byte>, mapped: seq<bool>, a: nat, buffer: seq<Byte>)
    requires Transferred(m, before, mapped, a, buffer)
    ensures var r := ReadableBytes(mapped, a, |buffer|);
            (r > 0 ==> a + r <= |m|) && forall k | 0 <= k < r :: m[a + k] == buffer[k]
    ensures AllAccessible(mapped, a, |buffer|) ==> ReadableBytes(mapped, a, |buffer|) == |buffer|
  {
    hide WordOf, Accessible, ReadableBytes;
    ReadableExactly(mapped, a, |buffer|);
    ReadableAll(mapped, a, |buffer|);
    var r := ReadableBytes(mapped, a, |buffer|);
    forall k: nat | k < r ensures m[a + k] == buffer[k] {
      assert Accessible(mapped, a + WordOf(k));
    }
  }
}
