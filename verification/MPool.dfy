/**
 A memory pool of fixed-size entries: a list of single free entries and a list of free chunks, from
 which entries are carved.  Each operation holds the lock of the pool and is one step here.
 */
module MPool {
  import opened Wrappers

  datatype Chunk = Chunk(addr: nat, size: nat)

  // ----- Memory as sets of addresses -----

  predicate Within(x: int, a: int, b: int) { a <= x < b }

  ghost function Span(a: nat, size: nat): set<int> { Range(a, a + size) }

  ghost function Range(a: int, b: int): set<int> { set x: int | a <= x < b && Within(x, a, b) }

  lemma {:induction false} RangeSize(a: int, b: int)
    requires a <= b
    ensures |Range(a, b)| == b - a
    decreases b - a
  {
    if a < b {
      RangeSize(a, b - 1);
      assert Range(a, b) == Range(a, b - 1) + {b - 1};
    } else {
      assert Range(a, b) == {};
    }
  }

  ghost function ChunkBytes(cs: seq<Chunk>): set<int> {
    if cs == [] then {} else Span(cs[0].addr, cs[0].size) + ChunkBytes(cs[1..])
  }

  ghost function EntryBytes(es: seq<nat>, size: nat): set<int> {
    if es == [] then {} else Span(es[0], size) + EntryBytes(es[1..], size)
  }

  /** `x` is a multiple of `n`. */
  ghost predicate Aligned(x: nat, n: nat)
    decreases x
  {
    n > 0 && (x == 0 || (x >= n && Aligned(x - n, n)))
  }

  lemma {:induction false} AlignedSum(x: nat, y: nat, n: nat)
    requires Aligned(x, n)
    ensures Aligned(x + y, n) <==> Aligned(y, n)
    decreases x
  {
    if x > 0 { AlignedSum(x - n, y, n); }
  }

  lemma {:induction false} AlignedTimes(k: nat, n: nat)
    requires n > 0
    ensures Aligned(k * n, n)
    decreases k
  {
    if k > 0 {
      AlignedTimes(k - 1, n);
      assert k * n == (k - 1) * n + n;
    }
  }

  lemma {:induction false} AlignedCoarse(x: nat, k: nat, n: nat)
    requires Aligned(x, k * n) && n > 0
    ensures Aligned(x, n)
    decreases x
  {
    if x > 0 {
      AlignedCoarse(x - k * n, k, n);
      AlignedTimes(k, n);
      AlignedSum(k * n, x - k * n, n);
    }
  }

  lemma {:induction false} AlignedIs(x: nat, n: nat)
    requires n > 0
    ensures Aligned(x, n) <==> exists k: nat :: x == k * n
    decreases x
  {
    if Aligned(x, n) {
      var k := Multiple(x, n);
    }
    if exists k: nat :: x == k * n {
      var k: nat :| x == k * n;
      AlignedTimes(k, n);
    }
  }

  lemma {:induction false} Multiple(x: nat, n: nat) returns (k: nat)
    requires Aligned(x, n)
    ensures x == k * n
    decreases x
  {
    k := 0;
    if x > 0 {
      k := Multiple(x - n, n);
      k := k + 1;
    }
  }

  ghost predicate ChunksOk(cs: seq<Chunk>, size: nat) {
    cs == [] ||
    (&& Aligned(cs[0].addr, size) && Aligned(cs[0].size, size) && cs[0].size > 0
     && Span(cs[0].addr, cs[0].size) !! ChunkBytes(cs[1..]) && ChunksOk(cs[1..], size))
  }

  ghost predicate EntriesOk(es: seq<nat>, size: nat) {
    es == [] || (Aligned(es[0], size) && Span(es[0], size) !! EntryBytes(es[1..], size) && EntriesOk(es[1..], size))
  }

  /** How far `a` is below the next multiple of `align`. */
  function RoundUp(a: nat, align: nat): (d: nat)
    requires align > 0
    decreases a
  {
    if a == 0 then 0 else if a <= align then align - a else RoundUp(a - align, align)
  }

  lemma {:induction false} RoundsUp(a: nat, align: nat)
    requires align > 0
    ensures RoundUp(a, align) < align && Aligned(a + RoundUp(a, align), align)
    decreases a
  {
    if a > align { RoundsUp(a - align, align); }
  }

  /** No multiple lies in between. */
  lemma {:induction false} RoundsUpLeast(a: nat, align: nat, start: nat)
    requires align > 0 && a <= start && Aligned(start, align)
    ensures a + RoundUp(a, align) <= start
  {
    var up := a + RoundUp(a, align);
    RoundsUp(a, align);
    AlignedSum(start, if start < up then up - start else 0, align);
  }

  // ----- The lists -----

  function Reversed<T>(s: seq<T>): seq<T> { if s == [] then [] else Reversed(s[1..]) + [s[0]] }

  lemma {:induction false} ReversedStep<T>(s: seq<T>, t: seq<T>)
    requires s != []
    ensures Reversed(s) + t == Reversed(s[1..]) + ([s[0]] + t)
  {
  }

  lemma {:induction false} BytesAt(cs: seq<Chunk>, i: nat)
    requires i < |cs|
    ensures ChunkBytes(cs) == ChunkBytes(cs[..i]) + Span(cs[i].addr, cs[i].size) + ChunkBytes(cs[i + 1..])
    decreases i
  {
    if i > 0 {
      BytesAt(cs[1..], i - 1);
      assert cs[1..][..i - 1] == cs[..i][1..] && cs[1..][i..] == cs[i + 1..];
    }
  }

  /** Replacing the chunk at `i` by chunks that cover a part of it. */
  lemma {:induction false} Replace(cs: seq<Chunk>, i: nat, new': seq<Chunk>, size: nat)
    requires i < |cs| && ChunksOk(cs, size) && ChunksOk(new', size) && ChunkBytes(new') <= Span(cs[i].addr, cs[i].size)
    ensures ChunksOk(cs[..i] + new' + cs[i + 1..], size)
    ensures ChunkBytes(cs[..i] + new' + cs[i + 1..]) ==
      ChunkBytes(cs) - (Span(cs[i].addr, cs[i].size) - ChunkBytes(new'))
    decreases i
  {
    if i == 0 {
      assert cs[..0] + new' + cs[1..] == new' + cs[1..];
      Joined(new', cs[1..], size);
    } else {
      var rest := cs[1..][..i - 1] + new' + cs[1..][i..];
      Replace(cs[1..], i - 1, new', size);
      assert cs[..i] + new' + cs[i + 1..] == [cs[0]] + rest;
      BytesAt(cs[1..], i - 1);
    }
  }

  lemma {:induction false} Joined(a: seq<Chunk>, b: seq<Chunk>, size: nat)
    requires ChunksOk(a, size) && ChunksOk(b, size) && ChunkBytes(a) !! ChunkBytes(b)
    ensures ChunksOk(a + b, size) && ChunkBytes(a + b) == ChunkBytes(a) + ChunkBytes(b)
    decreases |a|
  {
    if a == [] {
      assert a + b == b;
    } else {
      Joined(a[1..], b, size);
      assert (a + b)[1..] == a[1..] + b;
    }
  }

  /** What is left of a chunk when `len` bytes from `start` on are taken: the part behind them, and
      the part before them if an entry fits in. */
  function Leftover(c: Chunk, start: nat, len: nat, size: nat): seq<Chunk>
    requires c.addr <= start && start + len <= c.addr + c.size
  {
    var behind := if start + len == c.addr + c.size then [] else [Chunk(start + len, c.addr + c.size - (start + len))];
    if start - c.addr >= size then [Chunk(c.addr, start - c.addr)] + behind else behind
  }

  /** Nothing but the bytes taken is lost. */
  lemma {:induction false} LeftoverBytes(c: Chunk, start: nat, len: nat, size: nat)
    requires ChunksOk([c], size) && Aligned(start, size) && Aligned(len, size) && c.addr <= start
      && start + len <= c.addr + c.size
    ensures ChunksOk(Leftover(c, start, len, size), size)
    ensures ChunkBytes(Leftover(c, start, len, size)) == Span(c.addr, c.size) - Span(start, len)
    ensures var cs := Leftover(c, start, len, size);
      forall i, j :: 0 <= i < j < |cs| ==> cs[i].addr + cs[i].size <= cs[j].addr
  {
    var stop := c.addr + c.size;
    LeftoverAligned(c, start, len, size);
    CutRange(c.addr, start, start + len, stop);
    ChunksCover(Chunk(c.addr, start - c.addr), Chunk(start + len, stop - (start + len)), size);
    LeftoverIs(c, start, len, size);
  }

  /** Up to two chunks, without the empty ones. */
  function NonEmpty(c: Chunk, d: Chunk): seq<Chunk> {
    (if c.size == 0 then [] else [c]) + (if d.size == 0 then [] else [d])
  }

  lemma LeftoverIs(c: Chunk, start: nat, len: nat, size: nat)
    requires size > 0 && c.addr <= start && start + len <= c.addr + c.size
      && (start == c.addr || start - c.addr >= size)
    ensures Leftover(c, start, len, size) ==
      NonEmpty(Chunk(c.addr, start - c.addr), Chunk(start + len, c.addr + c.size - (start + len)))
  {
  }

  lemma {:induction false} ChunksCover(c: Chunk, d: Chunk, size: nat)
    requires Aligned(c.addr, size) && Aligned(c.size, size) && Aligned(d.addr, size) && Aligned(d.size, size)
    requires Range(c.addr, c.addr + c.size) !! Range(d.addr, d.addr + d.size)
    ensures ChunksOk(NonEmpty(c, d), size)
    ensures ChunkBytes(NonEmpty(c, d)) == Range(c.addr, c.addr + c.size) + Range(d.addr, d.addr + d.size)
  {
    OneChunk(c, size);
    OneChunk(d, size);
    if c.size == 0 {
      assert NonEmpty(c, d) == if d.size == 0 then [] else [d];
    } else if d.size == 0 {
      assert NonEmpty(c, d) == [c];
    } else {
      TwoChunks(c, d, size);
    }
  }

  lemma {:induction false} LeftoverAligned(c: Chunk, start: nat, len: nat, size: nat)
    requires Aligned(c.addr, size) && Aligned(c.size, size) && Aligned(start, size) && Aligned(len, size)
    requires c.addr <= start && start + len <= c.addr + c.size
    ensures Aligned(start - c.addr, size) && Aligned(start + len, size)
      && Aligned(c.addr + c.size - (start + len), size)
    ensures start == c.addr || start - c.addr >= size
  {
    AlignedSum(c.addr, start - c.addr, size);
    AlignedSum(start, len, size);
    AlignedSum(c.addr, c.size, size);
    AlignedSum(start + len, c.addr + c.size - (start + len), size);
  }

  lemma CutRange(a: int, b: int, c: int, d: int)
    requires a <= b <= c <= d
    ensures Range(a, d) - Range(b, c) == Range(a, b) + Range(c, d) && Range(a, b) !! Range(c, d)
    ensures a == b ==> Range(a, b) == {}
    ensures c == d ==> Range(c, d) == {}
  {
  }

  lemma {:induction false} OneChunk(c: Chunk, size: nat)
    ensures ChunkBytes([c]) == Range(c.addr, c.addr + c.size)
    ensures Aligned(c.addr, size) && Aligned(c.size, size) && c.size > 0 ==> ChunksOk([c], size)
  {
    assert [c][1..] == [];
  }

  lemma {:induction false} TwoChunks(c: Chunk, d: Chunk, size: nat)
    ensures ChunkBytes([c] + [d]) == Range(c.addr, c.addr + c.size) + Range(d.addr, d.addr + d.size)
    ensures
      ChunksOk([c], size) && ChunksOk([d], size) && Range(c.addr, c.addr + c.size) !! Range(d.addr, d.addr + d.size) ==>
      ChunksOk([c] + [d], size)
  {
    assert ([c] + [d])[1..] == [d];
    OneChunk(c, size);
    OneChunk(d, size);
  }

  /** Chunk `c` has room for `len` bytes at a multiple of `align`. */
  ghost predicate HasRoom(c: Chunk, len: nat, align: nat) {
    exists start: nat :: c.addr <= start && start + len <= c.addr + c.size && Aligned(start, align)
  }

  lemma {:induction false} RoomIs(c: Chunk, len: nat, align: nat)
    requires align > 0
    ensures HasRoom(c, len, align) <==> RoundUp(c.addr, align) + len <= c.size
  {
    RoundsUp(c.addr, align);
    if HasRoom(c, len, align) {
      var start: nat :| c.addr <= start && start + len <= c.addr + c.size && Aligned(start, align);
      RoundsUpLeast(c.addr, align, start);
    }
  }

  /** The first entry of the entry list, or else the first entry of the first chunk, has been taken. */
  ghost predicate Popped(es: seq<nat>, cs: seq<Chunk>, es': seq<nat>, cs': seq<Chunk>, a: nat, size: nat) {
    if es != [] then a == es[0] && es' == es[1..] && cs' == cs
    else
      && cs != [] && a == cs[0].addr && es' == []
      && cs' == if cs[0].size <= size then cs[1..] else [Chunk(a + size, cs[0].size - size)] + cs[1..]
  }

  /** The first chunk with room has lost the bytes at its first multiple of `align`, and what is left of
      it stays in its place. */
  ghost predicate Cut(cs: seq<Chunk>, cs': seq<Chunk>, start: nat, len: nat, align: nat, size: nat) {
    exists i :: CutAt(cs, cs', i, start, len, align, size)
  }

  ghost predicate CutAt(cs: seq<Chunk>, cs': seq<Chunk>, i: nat, start: nat, len: nat, align: nat, size: nat) {
    && i < |cs| && (forall j :: 0 <= j < i ==> !HasRoom(cs[j], len, align))
    && cs[i].addr <= start < cs[i].addr + align && start + len <= cs[i].addr + cs[i].size
    && cs' == cs[..i] + Leftover(cs[i], start, len, size) + cs[i + 1..]
  }

  class Pool {
    const entrySize: nat
    var chunkList: seq<Chunk>
    var entryList: seq<nat>
    var fallback: Pool?

    /** Entries and chunks are aligned and do not overlap. */
    ghost predicate Valid()
      reads this
    {
      && entrySize > 0 && ChunksOk(chunkList, entrySize) && EntriesOk(entryList, entrySize)
      && ChunkBytes(chunkList) !! EntryBytes(entryList, entrySize)
    }

    /** The addresses of all free memory. */
    ghost function Free(): set<int>
      reads this
    {
      ChunkBytes(chunkList) + EntryBytes(entryList, entrySize)
    }

    constructor (entrySize: nat)
      requires entrySize > 0
      ensures Valid() && Free() == {} && this.entrySize == entrySize && fallback == null
      ensures chunkList == [] && entryList == []
    {
      this.entrySize, chunkList, entryList, fallback := entrySize, [], [], null;
    }

    /** Takes over all memory of another pool, and its fallback. */
    constructor From(from: Pool)
      requires from.Valid()
      modifies from
      ensures Valid() && entrySize == from.entrySize && Free() == old(from.Free()) && fallback == old(from.fallback)
      ensures from.Valid() && from.Free() == {} && from.fallback == old(from.fallback)
      ensures chunkList == old(from.chunkList) && entryList == old(from.entryList)
    {
      entrySize, chunkList, entryList, fallback := from.entrySize, from.chunkList, from.entryList, from.fallback;
      new;
      from.chunkList, from.entryList := [], [];
    }

    constructor WithFallback(fallback: Pool)
      requires fallback.Valid()
      ensures Valid() && Free() == {} && entrySize == fallback.entrySize && this.fallback == fallback
    {
      entrySize, chunkList, entryList, this.fallback := fallback.entrySize, [], [], fallback;
    }

    /** Adds memory that the pool does not have. */
    method AddChunk(begin: nat, size: nat) returns (r: bool)
      requires Valid() && Aligned(begin, entrySize) && Aligned(size, entrySize) && Span(begin, size) !! Free()
      modifies this
      ensures Valid() && fallback == old(fallback) && entryList == old(entryList)
      ensures r == (size > 0) && Free() == old(Free()) + Span(begin, size)
      ensures chunkList == if size > 0 then [Chunk(begin, size)] + old(chunkList) else old(chunkList)
    {
      if size == 0 {
        return false;
      }
      chunkList := [Chunk(begin, size)] + chunkList;
      r := true;
    }

    method FreeEntry(ptr: nat)
      requires Valid() && Aligned(ptr, entrySize) && Span(ptr, entrySize) !! Free()
      modifies this
      ensures Valid() && fallback == old(fallback) && chunkList == old(chunkList)
      ensures Free() == old(Free()) + Span(ptr, entrySize) && entryList == [ptr] + old(entryList)
    {
      entryList := [ptr] + entryList;
    }

    /** Takes one entry, from the entries first; fails only if nothing is free. */
    method AllocNoFallback() returns (r: Option<nat>)
      requires Valid()
      modifies this
      ensures Valid() && fallback == old(fallback)
      ensures r == None <==> old(Free()) == {}
      ensures r == None ==> Free() == {} && entryList == old(entryList) && chunkList == old(chunkList)
      ensures r.Some? ==> Aligned(r.value, entrySize) && Span(r.value, entrySize) <= old(Free())
      ensures r.Some? ==> Free() == old(Free()) - Span(r.value, entrySize)
      ensures r.Some? ==> Popped(old(entryList), old(chunkList), entryList, chunkList, r.value, entrySize)
    {
      if entryList == [] && chunkList == [] {
        return None;
      }
      var a;
      if entryList != [] {
        a := PopEntry();
      } else {
        a := PopChunk();
      }
      assert a in Span(a, entrySize);
      r := Some(a);
    }

    method PopEntry() returns (a: nat)
      requires Valid() && entryList != []
      modifies this
      ensures Valid() && fallback == old(fallback)
      ensures Aligned(a, entrySize) && Span(a, entrySize) <= old(Free()) && Free() == old(Free()) - Span(a, entrySize)
      ensures Popped(old(entryList), old(chunkList), entryList, chunkList, a, entrySize)
    {
      a := entryList[0];
      entryList := entryList[1..];
    }

    method PopChunk() returns (a: nat)
      requires Valid() && entryList == [] && chunkList != []
      modifies this
      ensures Valid() && fallback == old(fallback)
      ensures Aligned(a, entrySize) && Span(a, entrySize) <= old(Free()) && Free() == old(Free()) - Span(a, entrySize)
      ensures Popped(old(entryList), old(chunkList), entryList, chunkList, a, entrySize)
    {
      var chunk := chunkList[0];
      FirstEntry(chunk, entrySize, chunkList);
      if entrySize >= chunk.size {
        chunkList := chunkList[1..];
      } else {
        chunkList := [Chunk(chunk.addr + entrySize, chunk.size - entrySize)] + chunkList[1..];
      }
      a := chunk.addr;
    }

    /** Takes `count` entries in a row, at a multiple of `align` entries, from the first chunk with
        room for them; fails only if no chunk has. */
    method AllocContiguousNoFallback(count: nat, align: nat) returns (r: Option<nat>)
      requires Valid() && align > 0
      modifies this
      ensures Valid() && fallback == old(fallback) && entryList == old(entryList)
      ensures r == None <==> old(NoRoom(this, count, align))
      ensures r == None ==> chunkList == old(chunkList)
      ensures r.Some? ==> Aligned(r.value, align * entrySize)
      ensures r.Some? ==> Span(r.value, count * entrySize) <= ChunkBytes(old(chunkList))
      ensures r.Some? ==> Free() == old(Free()) - Span(r.value, count * entrySize)
      ensures r.Some? ==> Cut(old(chunkList), chunkList, r.value, count * entrySize, align * entrySize, entrySize)
    {
      var bytes, step := count * entrySize, align * entrySize;
      Positive(align, entrySize);
      var prev := 0;
      while prev < |chunkList|
        invariant prev <= |chunkList| && unchanged(this)
        invariant forall i :: 0 <= i < prev ==> !HasRoom(chunkList[i], bytes, step)
      {
        var chunk := chunkList[prev];
        var beforeStart := RoundUp(chunk.addr, step);
        RoomIs(chunk, bytes, step);
        if beforeStart + bytes <= chunk.size {
          var start := chunk.addr + beforeStart;
          RoundsUp(chunk.addr, step);
          AlignedCoarse(start, align, entrySize);
          AlignedTimes(count, entrySize);
          CutChunk(prev, start, bytes, step);
          assert HasRoom(old(chunkList)[prev], bytes, step);
          return Some(start);
        }
        prev := prev + 1;
      }
      r := None;
    }

    /** Takes the bytes at `start` out of chunk `i`. */
    method CutChunk(i: nat, start: nat, bytes: nat, ghost step: nat)
      requires Valid() && i < |chunkList| && Aligned(start, entrySize) && Aligned(bytes, entrySize)
      requires chunkList[i].addr <= start < chunkList[i].addr + step
      requires start + bytes <= chunkList[i].addr + chunkList[i].size
      requires forall j :: 0 <= j < i ==> !HasRoom(chunkList[j], bytes, step)
      modifies this`chunkList
      ensures Valid()
      ensures Span(start, bytes) <= ChunkBytes(old(chunkList)) && Free() == old(Free()) - Span(start, bytes)
      ensures Cut(old(chunkList), chunkList, start, bytes, step, entrySize)
    {
      ghost var cs := chunkList;
      var c := chunkList[i];
      TakeFrom(chunkList, i, start, bytes, entrySize);
      chunkList := chunkList[..i] + Leftover(c, start, bytes, entrySize) + chunkList[i + 1..];
      assert CutAt(cs, chunkList, i, start, bytes, step, entrySize);
    }

    /** Gives all free memory to the fallback pool, if there is one. */
    method Fini()
      requires Valid()
      requires fallback != null ==> fallback != this && fallback.Valid()
      requires fallback != null ==> fallback.entrySize == entrySize && fallback.Free() !! Free()
      modifies this, fallback
      ensures old(fallback) == null ==> unchanged(this)
      ensures old(fallback) != null ==> Valid() && Free() == {} && fallback == null
      ensures old(fallback) != null ==>
        old(fallback).Valid() && old(fallback).Free() == old(fallback.Free()) + old(Free())
      ensures old(fallback) != null ==> old(fallback).fallback == old(fallback.fallback)
      ensures old(fallback) != null ==>
        && old(fallback).entryList == Reversed(old(entryList)) + old(fallback.entryList)
        && old(fallback).chunkList == Reversed(old(chunkList)) + old(fallback.chunkList)
    {
      if fallback == null {
        return;
      }
      var entry, chunk := entryList, chunkList;
      ghost var mine, theirs := Free(), fallback.Free();
      while entry != []
        invariant unchanged(this) && fallback.Valid() && EntriesOk(entry, entrySize)
        invariant fallback.fallback == old(fallback.fallback)
        invariant Reversed(entry) + fallback.entryList == Reversed(old(entryList)) + old(fallback.entryList)
        invariant fallback.chunkList == old(fallback.chunkList)
        invariant ChunkBytes(chunkList) !! EntryBytes(entry, entrySize)
        invariant fallback.Free() !! ChunkBytes(chunkList) + EntryBytes(entry, entrySize)
        invariant fallback.Free() + ChunkBytes(chunkList) + EntryBytes(entry, entrySize) == theirs + mine
      {
        ReversedStep(entry, fallback.entryList);
        fallback.FreeEntry(entry[0]);
        entry := entry[1..];
      }
      while chunk != []
        invariant unchanged(this) && fallback.Valid() && ChunksOk(chunk, entrySize)
        invariant fallback.fallback == old(fallback.fallback)
        invariant fallback.entryList == Reversed(old(entryList)) + old(fallback.entryList)
        invariant Reversed(chunk) + fallback.chunkList == Reversed(old(chunkList)) + old(fallback.chunkList)
        invariant fallback.Free() !! ChunkBytes(chunk)
        invariant fallback.Free() + ChunkBytes(chunk) == theirs + mine
        decreases |chunk|
      {
        ReversedStep(chunk, fallback.chunkList);
        var _ := fallback.AddChunk(chunk[0].addr, chunk[0].size);
        chunk := chunk[1..];
      }
      chunkList, entryList, fallback := [], [], null;
    }
  }

  // ----- Falling back -----

  /** `ps` are the pools reached through the fallback pointers, ending at null. */
  ghost predicate Chain(ps: seq<Pool>)
    reads ps
  {
    && (forall i {:trigger ps[i].Valid()} :: 0 <= i < |ps| ==> ps[i].Valid())
    && (forall i {:trigger ps[i].fallback} :: 0 <= i < |ps| ==> ps[i].fallback == At(ps, i + 1))
    && (forall i, j :: 0 <= i < j < |ps| ==> ps[i] != ps[j])
  }

  ghost function At(ps: seq<Pool>, i: nat): Pool? { if i < |ps| then ps[i] else null }

  /** The memory of `p` has lost exactly `size` bytes at `a`. */
  ghost predicate Lost(free: set<int>, free': set<int>, a: nat, size: nat) {
    Span(a, size) <= free && free' == free - Span(a, size)
  }

  /** Takes one entry from the first pool of the chain that has one; fails only if none has. */
  method Alloc(first: Pool, ghost ps: seq<Pool>) returns (r: Option<nat>, ghost at: nat)
    requires Chain(ps) && ps != [] && first == ps[0]
    modifies ps
    ensures Chain(ps) && at <= |ps| && (r == None <==> at == |ps|)
    ensures forall i :: 0 <= i < at ==> old(ps[i].Free()) == {}
    ensures forall i :: 0 <= i < |ps| && i != at ==> ps[i].Free() == old(ps[i].Free())
    ensures r.Some? ==> Aligned(r.value, ps[at].entrySize)
    ensures r.Some? ==> Lost(old(ps[at].Free()), ps[at].Free(), r.value, ps[at].entrySize)
    ensures r.Some? ==> Popped(old(ps[at].entryList), old(ps[at].chunkList), ps[at].entryList, ps[at].chunkList,
      r.value, ps[at].entrySize)
  {
    var p: Pool? := first;
    at := 0;
    while p != null
      invariant at <= |ps| && p == At(ps, at) && Chain(ps)
      invariant forall i :: 0 <= i < at ==> old(ps[i].Free()) == {}
      invariant forall i :: 0 <= i < |ps| ==> ps[i].Free() == old(ps[i].Free())
      invariant forall i :: at <= i < |ps| ==>
        ps[i].entryList == old(ps[i].entryList) && ps[i].chunkList == old(ps[i].chunkList)
      decreases |ps| - at
    {
      r := AllocAt(p, ps, at);
      if r.Some? {
        return;
      }
      p := p.fallback;
      at := at + 1;
    }
    r := None;
  }

  method AllocAt(p: Pool, ghost ps: seq<Pool>, ghost at: nat) returns (r: Option<nat>)
    requires Chain(ps) && at < |ps| && p == ps[at]
    modifies p
    ensures Chain(ps)
    ensures p.fallback == At(ps, at + 1)
    ensures r == None <==> old(p.Free()) == {}
    ensures r == None ==> p.Free() == old(p.Free())
    ensures r.Some? ==> Aligned(r.value, p.entrySize)
    ensures r == None ==> p.entryList == old(p.entryList) && p.chunkList == old(p.chunkList)
    ensures r.Some? ==> Lost(old(p.Free()), p.Free(), r.value, p.entrySize)
    ensures r.Some? ==> Popped(old(p.entryList), old(p.chunkList), p.entryList, p.chunkList, r.value, p.entrySize)
  {
    assert p.Valid() && p.fallback == At(ps, at + 1);
    r := p.AllocNoFallback();
    forall i | 0 <= i < |ps| ensures ps[i].Valid() && ps[i].fallback == At(ps, i + 1) {
      if i != at { assert old(ps[i].Valid()) && old(ps[i].fallback) == At(ps, i + 1); }
    }
  }

  /** Takes entries in a row from the first chunk with room in the first pool that has one. */
  method AllocContiguous(first: Pool, count: nat, align: nat, ghost ps: seq<Pool>)
      returns (r: Option<nat>, ghost at: nat)
    requires Chain(ps) && ps != [] && first == ps[0] && align > 0
    modifies ps
    ensures Chain(ps) && at <= |ps| && (r == None <==> at == |ps|)
    ensures forall i :: 0 <= i < at ==> old(NoRoom(ps[i], count, align))
    ensures forall i :: 0 <= i < |ps| && i != at ==> ps[i].Free() == old(ps[i].Free())
    ensures r.Some? ==> Aligned(r.value, align * ps[at].entrySize)
    ensures r.Some? ==> Lost(old(ps[at].Free()), ps[at].Free(), r.value, count * ps[at].entrySize)
    ensures r.Some? ==> Cut(old(ps[at].chunkList), ps[at].chunkList, r.value, count * ps[at].entrySize,
      align * ps[at].entrySize, ps[at].entrySize)
  {
    var p: Pool? := first;
    at := 0;
    while p != null
      invariant at <= |ps| && p == At(ps, at) && Chain(ps)
      invariant forall i :: 0 <= i < at ==> old(NoRoom(ps[i], count, align))
      invariant forall i :: 0 <= i < |ps| ==> ps[i].Free() == old(ps[i].Free())
      invariant forall i :: at <= i < |ps| ==> ps[i].chunkList == old(ps[i].chunkList)
      decreases |ps| - at
    {
      r := AllocContiguousAt(p, count, align, ps, at);
      if r.Some? {
        return;
      }
      p := p.fallback;
      at := at + 1;
    }
    r := None;
  }

  method AllocContiguousAt(p: Pool, count: nat, align: nat, ghost ps: seq<Pool>, ghost at: nat) returns (r: Option<nat>)
    requires Chain(ps) && at < |ps| && p == ps[at] && align > 0
    modifies p
    ensures Chain(ps)
    ensures p.fallback == At(ps, at + 1)
    ensures r == None <==> old(NoRoom(p, count, align))
    ensures r == None ==> p.Free() == old(p.Free())
    ensures r.Some? ==> Aligned(r.value, align * p.entrySize)
    ensures r.Some? ==> Lost(old(p.Free()), p.Free(), r.value, count * p.entrySize)
    ensures r.Some? ==>
      Cut(old(p.chunkList), p.chunkList, r.value, count * p.entrySize, align * p.entrySize, p.entrySize)
  {
    assert p.Valid() && p.fallback == At(ps, at + 1);
    r := p.AllocContiguousNoFallback(count, align);
    forall i | 0 <= i < |ps| ensures ps[i].Valid() && ps[i].fallback == At(ps, i + 1) {
      if i != at { assert old(ps[i].Valid()) && old(ps[i].fallback) == At(ps, i + 1); }
    }
  }

  ghost predicate NoRoom(p: Pool, count: nat, align: nat)
    reads p
  {
    forall c :: c in p.chunkList ==> !HasRoom(c, count * p.entrySize, align * p.entrySize)
  }

  /** Without `count` entries in a row the number of bytes is smaller by `count` times the entry size. */
  lemma {:induction false} TakenSize(free: set<int>, start: nat, count: nat, size: nat)
    requires Span(start, count * size) <= free
    ensures |free - Span(start, count * size)| == |free| - count * size
  {
    RangeSize(start, start + count * size);
  }

  lemma Positive(a: nat, b: nat)
    requires a > 0 && b > 0
    ensures a * b > 0
  {
  }

  /** The first entry of the first chunk, and what is left without it. */
  lemma {:induction false} FirstEntry(c: Chunk, size: nat, cs: seq<Chunk>)
    requires cs != [] && ChunksOk(cs, size) && size > 0 && c == cs[0]
    ensures Aligned(c.addr, size) && c.addr in Span(c.addr, size)
      && Span(c.addr, size) <= Span(c.addr, c.size) <= ChunkBytes(cs)
    ensures size >= c.size ==> ChunkBytes(cs[1..]) == ChunkBytes(cs) - Span(c.addr, size)
    ensures size < c.size ==>
      var cs' := [Chunk(c.addr + size, c.size - size)] + cs[1..];
      ChunksOk(cs', size) && ChunkBytes(cs') == ChunkBytes(cs) - Span(c.addr, size)
  {
    AlignedSum(c.addr, size, size);
    if size < c.size {
      var cs' := [Chunk(c.addr + size, c.size - size)] + cs[1..];
      assert cs'[1..] == cs[1..];
    }
  }

  lemma {:induction false} TakeFrom(cs: seq<Chunk>, i: nat, start: nat, len: nat, size: nat)
    requires i < |cs| && ChunksOk(cs, size) && size > 0 && Aligned(start, size) && Aligned(len, size)
    requires cs[i].addr <= start && start + len <= cs[i].addr + cs[i].size
    ensures Span(start, len) <= ChunkBytes(cs)
    ensures var cs' := cs[..i] + Leftover(cs[i], start, len, size) + cs[i + 1..];
      ChunksOk(cs', size) && ChunkBytes(cs') == ChunkBytes(cs) - Span(start, len)
  {
    var new' := Leftover(cs[i], start, len, size);
    OneOk(cs, i, size);
    LeftoverBytes(cs[i], start, len, size);
    BytesAt(cs, i);
    assert Span(start, len) <= Span(cs[i].addr, cs[i].size);
    Replace(cs, i, new', size);
    Remains(Span(cs[i].addr, cs[i].size), Span(start, len));
  }

  lemma Remains(s: set<int>, t: set<int>)
    requires t <= s
    ensures s - (s - t) == t
  {
  }

  lemma {:induction false} OneOk(cs: seq<Chunk>, i: nat, size: nat)
    requires i < |cs| && ChunksOk(cs, size)
    ensures ChunksOk([cs[i]], size)
    decreases i
  {
    if i == 0 { assert [cs[0]][1..] == []; } else { OneOk(cs[1..], i - 1, size); }
  }
}
