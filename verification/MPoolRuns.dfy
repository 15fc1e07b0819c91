/**
 Runs of a client of several memory pools, which may share fallback pools, may be created and may be
 given up during the run.
 */
module MPoolRuns {
  import opened Wrappers
  import opened MPool

  // ----- Who has which memory -----

  /** The free memory of each pool and the memory that the client holds do not overlap and together
      are `all`. */
  ghost predicate Divided(frees: seq<set<int>>, held: set<int>, all: set<int>) {
    && (forall i, j :: 0 <= i < j < |frees| ==> frees[i] !! frees[j])
    && (forall i :: 0 <= i < |frees| ==> frees[i] !! held && frees[i] <= all)
    && held <= all && forall x :: x in all ==> Placed(frees, held, x)
  }

  ghost predicate Placed(frees: seq<set<int>>, held: set<int>, x: int) {
    x in held || exists i :: 0 <= i < |frees| && x in frees[i]
  }

  lemma {:induction false} DividedTake(frees: seq<set<int>>, held: set<int>, all: set<int>, k: nat, s: set<int>)
    requires Divided(frees, held, all) && k < |frees| && s <= frees[k]
    ensures Divided(frees[k := frees[k] - s], held + s, all)
  {
    var frees' := frees[k := frees[k] - s];
    forall x | x in all ensures Placed(frees', held + s, x) {
      assert Placed(frees, held, x);
      if x !in held + s {
        var i :| 0 <= i < |frees| && x in frees[i];
        assert x in frees'[i];
      }
    }
  }

  lemma {:induction false} DividedGive(frees: seq<set<int>>, held: set<int>, all: set<int>, k: nat, s: set<int>)
    requires Divided(frees, held, all) && k < |frees| && s <= held
    ensures Divided(frees[k := frees[k] + s], held - s, all)
  {
    var frees' := frees[k := frees[k] + s];
    forall x | x in all ensures Placed(frees', held - s, x) {
      assert Placed(frees, held, x);
      if x in s {
        assert x in frees'[k];
      } else if x !in held {
        var i :| 0 <= i < |frees| && x in frees[i];
        assert x in frees'[i];
      }
    }
  }

  lemma {:induction false} DividedMove(frees: seq<set<int>>, held: set<int>, all: set<int>, k: nat, n: nat)
    requires Divided(frees, held, all) && k < |frees| && n < |frees| && k != n
    ensures Divided(frees[k := {}][n := frees[n] + frees[k]], held, all)
  {
    var frees' := frees[k := {}][n := frees[n] + frees[k]];
    forall x | x in all ensures Placed(frees', held, x) {
      assert Placed(frees, held, x);
      if x !in held {
        var i :| 0 <= i < |frees| && x in frees[i];
        assert x in frees'[if i == k then n else i];
      }
    }
  }

  lemma {:induction false} DividedMore(frees: seq<set<int>>, held: set<int>, all: set<int>)
    requires Divided(frees, held, all)
    ensures Divided(frees + [{}], held, all)
  {
    forall x | x in all ensures Placed(frees + [{}], held, x) {
      assert Placed(frees, held, x);
      if x !in held {
        var i :| 0 <= i < |frees| && x in frees[i];
        assert x in (frees + [{}])[i];
      }
    }
  }

  lemma {:induction false} DividedPass(frees: seq<set<int>>, held: set<int>, all: set<int>, k: nat)
    requires Divided(frees, held, all) && k < |frees|
    ensures Divided(frees[k := {}] + [frees[k]], held, all)
  {
    var more := frees + [{}];
    DividedMore(frees, held, all);
    DividedMove(more, held, all, k, |frees|);
    assert more[|frees|] + more[k] == frees[k];
    assert frees[k := {}] + [frees[k]] == more[k := {}][|frees| := frees[k]];
  }

  // ----- The pools -----

  /** The fallback of pool `i` is pool `up[i]`, an older one, or null if that is negative. */
  ghost predicate Forest(up: seq<int>) {
    forall i :: 0 <= i < |up| ==> -1 <= up[i] < i
  }

  ghost predicate Linked(ps: seq<Pool>, up: seq<int>)
    reads ps
  {
    && |up| == |ps| && Forest(up)
    && (forall i {:trigger ps[i].fallback} :: 0 <= i < |ps| ==>
       ps[i].fallback == if up[i] < 0 then null else ps[up[i]])
    && (forall i, j :: 0 <= i < j < |ps| ==> ps[i] != ps[j])
  }

  /** Pool `p` has entries of the given size and the given free memory. */
  ghost predicate Has(p: Pool, free: set<int>, size: nat)
    reads p
  {
    p.Valid() && p.entrySize == size && p.Free() == free
  }

  ghost predicate Owns(ps: seq<Pool>, frees: seq<set<int>>, size: nat)
    reads ps
  {
    |frees| == |ps| && forall i {:trigger ps[i]} :: 0 <= i < |ps| ==> Has(ps[i], frees[i], size)
  }

  /** What holds throughout a run: `out` are the blocks that the client holds. */
  ghost predicate Shared(ps: seq<Pool>, up: seq<int>, frees: seq<set<int>>, out: seq<Chunk>, size: nat, all: set<int>)
    reads ps
  {
    Linked(ps, up) && Owns(ps, frees, size) && ChunksOk(out, size) && Divided(frees, ChunkBytes(out), all)
  }

  // ----- The chain of fallbacks of a pool -----

  ghost function Route(up: seq<int>, at: nat): (r: seq<nat>)
    requires Forest(up) && at < |up|
    ensures r != [] && r[0] == at
    ensures forall k :: 0 <= k < |r| ==> r[k] <= at
    decreases at
  {
    if up[at] < 0 then [at] else [at] + Route(up, up[at])
  }

  lemma {:induction false} RouteSteps(up: seq<int>, at: nat, k: nat)
    requires Forest(up) && at < |up| && k < |Route(up, at)|
    ensures var r := Route(up, at); up[r[k]] == if k + 1 < |r| then r[k + 1] else -1
    ensures forall n :: 0 <= n < k ==> Route(up, at)[k] < Route(up, at)[n]
    decreases at
  {
    if k > 0 { RouteSteps(up, up[at], k - 1); }
  }

  ghost function Pick<T>(ps: seq<T>, r: seq<nat>): (c: seq<T>)
    requires forall k :: 0 <= k < |r| ==> r[k] < |ps|
    ensures |c| == |r| && forall k :: 0 <= k < |r| ==> c[k] == ps[r[k]]
  {
    seq(|r|, k requires 0 <= k < |r| => ps[r[k]])
  }

  lemma {:induction false} RouteIsChain(ps: seq<Pool>, up: seq<int>, frees: seq<set<int>>, size: nat, at: nat)
    requires Linked(ps, up) && Owns(ps, frees, size) && at < |ps|
    ensures Chain(Pick(ps, Route(up, at)))
    ensures Owns(Pick(ps, Route(up, at)), Pick(frees, Route(up, at)), size)
  {
    var r := Route(up, at);
    var c := Pick(ps, r);
    forall k | 0 <= k < |c| ensures c[k].fallback == At(c, k + 1) && c[k].Valid() {
      RouteSteps(up, at, k);
      assert Has(ps[r[k]], frees[r[k]], size);
    }
    forall n, k | 0 <= n < k < |c| ensures c[n] != c[k] { RouteSteps(up, at, k); }
  }

  /** Pools that are not on the route are as they were. */
  ghost predicate OffRoute(ps: seq<Pool>, up: seq<int>, frees: seq<set<int>>, size: nat, r: seq<nat>)
    reads set i | 0 <= i < |ps| && i !in r :: ps[i]
  {
    |ps| == |up| == |frees| && forall i {:trigger ps[i]} :: 0 <= i < |ps| && i !in r ==>
      Has(ps[i], frees[i], size) && -1 <= up[i] < i && ps[i].fallback == if up[i] < 0 then null else ps[up[i]]
  }

  lemma {:induction false} OffRouteIs(ps: seq<Pool>, up: seq<int>, frees: seq<set<int>>, size: nat, at: nat)
    requires Linked(ps, up) && Owns(ps, frees, size) && at < |ps|
    ensures OffRoute(ps, up, frees, size, Route(up, at))
    ensures forall i :: 0 <= i < |ps| ==> ps[i].entrySize == size
    ensures forall i :: 0 <= i < |ps| && i !in Route(up, at) ==> ps[i] !in Pick(ps, Route(up, at))
  {
  }

  /** Pool `k` has lost the bytes `s`. */
  ghost predicate Lessened(c: seq<Pool>, frees: seq<set<int>>, k: nat, s: set<int>)
    reads c
  {
    |frees| == |c| && forall n :: 0 <= n < |c| ==> c[n].Free() == if n == k then frees[n] - s else frees[n]
  }

  /** One pool on the route has lost the bytes `s`. */
  lemma {:induction false} Settled(ps: seq<Pool>, up: seq<int>, frees: seq<set<int>>, size: nat, at: nat, k: nat,
      s: set<int>)
    requires Forest(up) && |up| == |ps| == |frees| && at < |ps| && k < |Route(up, at)|
    requires forall i, j :: 0 <= i < j < |ps| ==> ps[i] != ps[j]
    requires OffRoute(ps, up, frees, size, Route(up, at))
    requires Chain(Pick(ps, Route(up, at)))
    requires forall i :: 0 <= i < |ps| ==> ps[i].entrySize == size
    requires Lessened(Pick(ps, Route(up, at)), Pick(frees, Route(up, at)), k, s)
    ensures var j := Route(up, at)[k];
      Linked(ps, up) && Owns(ps, frees[j := frees[j] - s], size)
  {
    var r := Route(up, at);
    var c, j := Pick(ps, r), r[k];
    var frees' := frees[j := frees[j] - s];
    forall i | 0 <= i < |ps|
      ensures Has(ps[i], frees'[i], size) && ps[i].fallback == if up[i] < 0 then null else ps[up[i]]
    {
      if i in r {
        var n :| 0 <= n < |r| && r[n] == i;
        RouteSteps(up, at, n);
        RouteSteps(up, at, k);
        assert c[n].Valid() && c[n].fallback == At(c, n + 1);
      }
    }
  }

  /** The blocks without the first `len` bytes of block `i`. */
  lemma {:induction false} GiveUp(out: seq<Chunk>, i: nat, len: nat, size: nat)
    requires i < |out| && size > 0 && ChunksOk(out, size) && (len == size || (Aligned(len, size) && len == out[i].size))
    ensures len <= out[i].size && Aligned(out[i].addr, size) && Span(out[i].addr, len) <= ChunkBytes(out)
    ensures var out' := out[..i] + Leftover(out[i], out[i].addr, len, size) + out[i + 1..];
      ChunksOk(out', size) && ChunkBytes(out') == ChunkBytes(out) - Span(out[i].addr, len)
  {
    OneOk(out, i, size);
    LeftoverBytes(out[i], out[i].addr, len, size);
    Replace(out, i, Leftover(out[i], out[i].addr, len, size), size);
    BytesAt(out, i);
  }

  /** One more block that the client holds. */
  method Held(c: Chunk, out: seq<Chunk>, ghost size: nat) returns (out': seq<Chunk>)
    requires Aligned(c.addr, size) && Aligned(c.size, size) && ChunksOk(out, size)
      && Span(c.addr, c.size) !! ChunkBytes(out)
    ensures ChunksOk(out', size) && ChunkBytes(out') == Span(c.addr, c.size) + ChunkBytes(out)
    ensures out' == if c.size > 0 then [c] + out else out
  {
    out' := if c.size > 0 then [c] + out else out;
  }

  // ----- Requests -----

  /** What a client may do: take an entry or a row of entries from a pool, free the first entry of a
      block it has to a pool, return a whole block to a pool as a chunk, create a pool with a pool as
      fallback or in place of a pool, and give up a pool. */
  datatype Request =
    | One(at: nat)
    | Row(at: nat, count: nat, align: nat)
    | FreeFirst(at: nat, i: nat)
    | Return(at: nat, i: nat)
    | Above(at: nat)
    | InPlaceOf(at: nat)
    | Finish(at: nat)

  /** A block that answers a request for one entry, or for a row. */
  ghost predicate Fits(b: Chunk, row: bool, count: nat, align: nat, size: nat) {
    if row then b.size == count * size && Aligned(b.addr, align * size) else b.size == size
  }

  /** What is asked of a pool and its fallbacks: one entry, or `count` entries in a row. */
  method TakeFromChain(first: Pool, row: bool, count: nat, align: nat, ghost c: seq<Pool>,
      ghost fs: seq<set<int>>, ghost size: nat) returns (r: Option<Chunk>, ghost k: nat, ghost s: set<int>)
    requires Chain(c) && c != [] && first == c[0] && Owns(c, fs, size) && align > 0
    modifies c
    ensures Chain(c)
    ensures k < |c| && Lessened(c, fs, k, s) && s <= fs[k]
    ensures s == match r case None => {} case Some(b) => Span(b.addr, b.size)
    ensures r.Some? ==> Aligned(r.value.addr, size) && Aligned(r.value.size, size)
    ensures r.Some? ==> Fits(r.value, row, count, align, size)
    ensures forall n :: 0 <= n < (if r.Some? then k else |c|) ==>
      if row then old(NoRoom(c[n], count, align)) else fs[n] == {}
  {
    assert forall n :: 0 <= n < |c| ==> Has(c[n], fs[n], size);
    var a;
    if row {
      a, k := AllocContiguous(first, count, align, c);
    } else {
      a, k := Alloc(first, c);
    }
    if a == None {
      return None, 0, {};
    }
    var len := if row then count * first.entrySize else first.entrySize;
    AlignedTimes(if row then count else 1, size);
    if row { AlignedCoarse(a.value, align, size); }
    r, s := Some(Chunk(a.value, len)), Span(a.value, len);
  }

  method Take(ps: seq<Pool>, at: nat, row: bool, count: nat, align: nat, ghost up: seq<int>,
      ghost frees: seq<set<int>>, ghost size: nat)
      returns (r: Option<Chunk>, ghost j: nat, ghost s: set<int>, ghost k: nat)
    requires Linked(ps, up) && Owns(ps, frees, size) && at < |ps| && align > 0
    modifies ps
    ensures j < |ps| && s <= frees[j]
    ensures Linked(ps, up)
    ensures Owns(ps, frees[j := frees[j] - s], size)
    ensures s == match r case None => {} case Some(b) => Span(b.addr, b.size)
    ensures r.Some? ==> Aligned(r.value.addr, size) && Aligned(r.value.size, size)
    ensures r.Some? ==> Fits(r.value, row, count, align, size)
    ensures k < |Route(up, at)| && j == Route(up, at)[k]
    ensures forall n :: 0 <= n < (if r.Some? then k else |Route(up, at)|) ==>
      if row then old(NoRoom(ps[Route(up, at)[n]], count, align)) else frees[Route(up, at)[n]] == {}
  {
    ghost var c, fs := Pick(ps, Route(up, at)), Pick(frees, Route(up, at));
    RouteIsChain(ps, up, frees, size, at);
    OffRouteIs(ps, up, frees, size, at);
    r, k, s := TakeFromChain(ps[at], row, count, align, c, fs, size);
    Settled(ps, up, frees, size, at, k, s);
    j := Route(up, at)[k];
  }

  // ----- Serving requests -----

  /** Pool `j` has given block `b` to the client, or nobody anything. */
  ghost predicate Given(frees: seq<set<int>>, out: seq<Chunk>, frees': seq<set<int>>, out': seq<Chunk>,
      r: Option<Chunk>, j: nat) {
    match r
    case None => frees' == frees && out' == out
    case Some(b) =>
      && j < |frees| && Span(b.addr, b.size) <= frees[j]
      && frees' == frees[j := frees[j] - Span(b.addr, b.size)]
      && out' == if b.size > 0 then [b] + out else out
  }

  /** The client has given the first `len` bytes of block `i` to pool `at`. */
  ghost predicate GivenBack(frees: seq<set<int>>, out: seq<Chunk>, frees': seq<set<int>>, out': seq<Chunk>, at: nat,
      i: nat, len: nat) {
    && at < |frees| && i < |out| && len <= out[i].size
    && frees' == frees[at := frees[at] + Span(out[i].addr, len)]
    && out' == out[..i] + (if len == out[i].size then [] else [Chunk(out[i].addr + len, out[i].size - len)])
               + out[i + 1..]
  }

  /** The pools before number `k` on the way to the fallbacks have nothing free. */
  ghost predicate Exhausted(up: seq<int>, frees: seq<set<int>>, at: nat, k: nat) {
    && Forest(up) && at < |up| == |frees|
    && forall n :: 0 <= n < k && n < |Route(up, at)| ==> frees[Route(up, at)[n]] == {}
  }

  /** What a request does to the fallbacks, the free memory of each pool and the blocks of the client;
      `r` is the block that was given out, by pool number `k` on the way to the fallbacks. */
  ghost predicate Effect(request: Request, up: seq<int>, frees: seq<set<int>>, out: seq<Chunk>, up': seq<int>,
      frees': seq<set<int>>, out': seq<Chunk>, size: nat, r: Option<Chunk>, k: nat)
    requires Forest(up) && request.at < |up| == |frees|
  {
    var at := request.at;
    match request
    case One(_) =>
      && up' == up && k < |Route(up, at)| && Given(frees, out, frees', out', r, Route(up, at)[k])
      && (r.Some? ==> r.value.size == size) && Exhausted(up, frees, at, if r.Some? then k else |Route(up, at)|)
    case Row(_, count, align) =>
      && up' == up && k < |Route(up, at)| && Given(frees, out, frees', out', r, Route(up, at)[k])
      && (r.Some? ==> align > 0 && r.value.size == count * size && Aligned(r.value.addr, align * size))
    case FreeFirst(_, i) =>
      up' == up && if i < |out| then GivenBack(frees, out, frees', out', at, i, size)
                   else frees' == frees && out' == out
    case Return(_, i) =>
      up' == up && if i < |out| then GivenBack(frees, out, frees', out', at, i, out[i].size)
                   else frees' == frees && out' == out
    case Above(_) => up' == up + [at] && frees' == frees + [{}] && out' == out
    case InPlaceOf(_) => up' == up + [up[at]] && frees' == frees[at := {}] + [frees[at]] && out' == out
    case Finish(_) =>
      && out' == out
      && if up[at] < 0 then up' == up && frees' == frees
         else up' == up[at := -1] && frees' == frees[at := {}][up[at] := frees[up[at]] + frees[at]]
  }

  /** A pool changes its free memory. */
  lemma {:induction false} Changed(ps: seq<Pool>, up: seq<int>, frees: seq<set<int>>, size: nat, at: nat,
      free: set<int>)
    requires Forest(up) && |up| == |ps| == |frees| && at < |ps|
    requires forall i, j :: 0 <= i < j < |ps| ==> ps[i] != ps[j]
    requires OffRoute(ps, up, frees, size, [at]) && Has(ps[at], free, size)
    requires ps[at].fallback == if up[at] < 0 then null else ps[up[at]]
    ensures Linked(ps, up) && Owns(ps, frees[at := free], size)
  {
  }

  method ServeTake(ps: seq<Pool>, at: nat, row: bool, count: nat, align: nat, out: seq<Chunk>,
      ghost up: seq<int>, ghost frees: seq<set<int>>, ghost size: nat, ghost all: set<int>)
      returns (out': seq<Chunk>, ghost frees': seq<set<int>>, ghost r: Option<Chunk>, ghost k: nat)
    requires Shared(ps, up, frees, out, size, all) && at < |ps| && align > 0
    modifies ps
    ensures Shared(ps, up, frees', out', size, all)
    ensures k < |Route(up, at)| && Given(frees, out, frees', out', r, Route(up, at)[k])
    ensures r.Some? ==> Fits(r.value, row, count, align, size)
    ensures forall n :: 0 <= n < (if r.Some? then k else |Route(up, at)|) ==>
      if row then old(NoRoom(ps[Route(up, at)[n]], count, align)) else frees[Route(up, at)[n]] == {}
  {
    var b;
    ghost var j, s;
    b, j, s, k := Take(ps, at, row, count, align, up, frees, size);
    DividedTake(frees, ChunkBytes(out), all, j, s);
    r, frees' := b, if b.Some? then frees[j := frees[j] - s] else frees;
    assert frees[j] - {} == frees[j];
    out' := out;
    if b.Some? {
      out' := Held(b.value, out, size);
    }
  }

  method ServeFree(ps: seq<Pool>, at: nat, i: nat, out: seq<Chunk>, ghost up: seq<int>,
      ghost frees: seq<set<int>>, ghost size: nat, ghost all: set<int>)
      returns (out': seq<Chunk>, ghost frees': seq<set<int>>)
    requires Shared(ps, up, frees, out, size, all) && at < |ps| && i < |out|
    modifies ps
    ensures Shared(ps, up, frees', out', size, all)
    ensures GivenBack(frees, out, frees', out', at, i, size)
  {
    assert Has(ps[at], frees[at], size) && OffRoute(ps, up, frees, size, [at]);
    var len := ps[at].entrySize;
    GiveUp(out, i, len, size);
    ghost var s := Span(out[i].addr, len);
    DividedGive(frees, ChunkBytes(out), all, at, s);
    out' := out[..i] + Leftover(out[i], out[i].addr, len, len) + out[i + 1..];
    ps[at].FreeEntry(out[i].addr);
    frees' := frees[at := frees[at] + s];
    Changed(ps, up, frees, size, at, frees[at] + s);
  }

  method ServeReturn(ps: seq<Pool>, at: nat, i: nat, out: seq<Chunk>, ghost up: seq<int>,
      ghost frees: seq<set<int>>, ghost size: nat, ghost all: set<int>)
      returns (out': seq<Chunk>, ghost frees': seq<set<int>>)
    requires Shared(ps, up, frees, out, size, all) && at < |ps| && i < |out|
    modifies ps
    ensures Shared(ps, up, frees', out', size, all)
    ensures GivenBack(frees, out, frees', out', at, i, out[i].size)
  {
    assert Has(ps[at], frees[at], size) && OffRoute(ps, up, frees, size, [at]);
    OneOk(out, i, size);
    GiveUp(out, i, out[i].size, size);
    ghost var s := Span(out[i].addr, out[i].size);
    DividedGive(frees, ChunkBytes(out), all, at, s);
    out' := out[..i] + Leftover(out[i], out[i].addr, out[i].size, ps[at].entrySize) + out[i + 1..];
    var _ := ps[at].AddChunk(out[i].addr, out[i].size);
    frees' := frees[at := frees[at] + s];
    Changed(ps, up, frees, size, at, frees[at] + s);
  }

  method ServeAbove(ps: seq<Pool>, at: nat, ghost out: seq<Chunk>, ghost up: seq<int>,
      ghost frees: seq<set<int>>, ghost size: nat, ghost all: set<int>)
      returns (ps': seq<Pool>, ghost up': seq<int>, ghost frees': seq<set<int>>)
    requires Shared(ps, up, frees, out, size, all) && at < |ps|
    ensures |ps'| == |ps| + 1 && ps <= ps' && fresh(ps'[|ps|])
    ensures up' == up + [at] && frees' == frees + [{}]
    ensures Shared(ps', up', frees', out, size, all)
  {
    assert Has(ps[at], frees[at], size);
    var p := new Pool.WithFallback(ps[at]);
    DividedMore(frees, ChunkBytes(out), all);
    ps', up', frees' := ps + [p], up + [at], frees + [{}];
    assert forall i :: 0 <= i < |ps| ==> Has(ps'[i], frees'[i], size);
  }

  method ServeInPlaceOf(ps: seq<Pool>, at: nat, ghost out: seq<Chunk>, ghost up: seq<int>,
      ghost frees: seq<set<int>>, ghost size: nat, ghost all: set<int>)
      returns (ps': seq<Pool>, ghost up': seq<int>, ghost frees': seq<set<int>>)
    requires Shared(ps, up, frees, out, size, all) && at < |ps|
    modifies ps
    ensures |ps'| == |ps| + 1 && ps <= ps' && fresh(ps'[|ps|])
    ensures up' == up + [up[at]] && frees' == frees[at := {}] + [frees[at]]
    ensures Shared(ps', up', frees', out, size, all)
  {
    assert Has(ps[at], frees[at], size) && OffRoute(ps, up, frees, size, [at]);
    var p := new Pool.From(ps[at]);
    Changed(ps, up, frees, size, at, {});
    DividedPass(frees, ChunkBytes(out), all, at);
    ps', up', frees' := ps + [p], up + [up[at]], frees[at := {}] + [frees[at]];
    assert forall i :: 0 <= i < |ps| ==> Has(ps'[i], frees'[i], size);
  }

  method ServeFinish(ps: seq<Pool>, at: nat, ghost out: seq<Chunk>, ghost up: seq<int>,
      ghost frees: seq<set<int>>, ghost size: nat, ghost all: set<int>)
      returns (ghost up': seq<int>, ghost frees': seq<set<int>>)
    requires Shared(ps, up, frees, out, size, all) && at < |ps|
    modifies ps
    ensures if up[at] < 0 then up' == up && frees' == frees
      else up' == up[at := -1] && frees' == frees[at := {}][up[at] := frees[up[at]] + frees[at]]
    ensures Shared(ps, up', frees', out, size, all)
  {
    up', frees' := up, frees;
    assert Has(ps[at], frees[at], size);
    if ps[at].fallback != null {
      ghost var n := up[at];
      assert Has(ps[n], frees[n], size) && OffRoute(ps, up, frees, size, [at, n]);
      DividedMove(frees, ChunkBytes(out), all, at, n);
      ps[at].Fini();
      up', frees' := up[at := -1], frees[at := {}][n := frees[n] + frees[at]];
    } else {
      ps[at].Fini();
    }
  }

  /** The fallbacks, the free memory of each pool and the blocks of the client at one moment. */
  datatype Moment = Moment(up: seq<int>, frees: seq<set<int>>, out: seq<Chunk>)

  /** Request `q` leads from `a` to `b`; one for a pool that does not exist changes nothing. */
  ghost predicate Serves(q: Request, a: Moment, b: Moment, size: nat) {
    if Forest(a.up) && q.at < |a.up| == |a.frees| then
      exists r, k :: Effect(q, a.up, a.frees, a.out, b.up, b.frees, b.out, size, r, k)
    else b == a
  }

  /** The first `n` requests lead from each moment of `hist` to the next. */
  ghost predicate ServesFirst(requests: seq<Request>, n: nat, hist: seq<Moment>, size: nat) {
    |hist| == n + 1 && n <= |requests| &&
    forall m {:trigger requests[m]} :: 0 <= m < n ==> Serves(requests[m], hist[m], hist[m + 1], size)
  }

  lemma {:induction false} ServesMore(requests: seq<Request>, n: nat, hist: seq<Moment>, b: Moment, size: nat)
    requires ServesFirst(requests, n, hist, size) && n < |requests| && Serves(requests[n], hist[n], b, size)
    ensures ServesFirst(requests, n + 1, hist + [b], size)
  {
    var hist' := hist + [b];
    forall m | 0 <= m < n + 1 ensures Serves(requests[m], hist'[m], hist'[m + 1], size) {
      if m < n { assert Serves(requests[m], hist[m], hist[m + 1], size); }
    }
  }

  /** In every run the blocks of the client and the free memory of all pools are aligned and disjoint
      and together stay the same memory, while each request has its effect. */
  method Serve(ps: seq<Pool>, out: seq<Chunk>, requests: seq<Request>, ghost up: seq<int>,
      ghost frees: seq<set<int>>, ghost size: nat, ghost all: set<int>)
      returns (ps': seq<Pool>, out': seq<Chunk>, ghost up': seq<int>, ghost frees': seq<set<int>>,
        ghost hist: seq<Moment>)
    requires Shared(ps, up, frees, out, size, all)
    modifies ps
    ensures ps <= ps'
    ensures Shared(ps', up', frees', out', size, all)
    ensures ServesFirst(requests, |requests|, hist, size)
    ensures hist[0] == Moment(up, frees, out) && hist[|requests|] == Moment(up', frees', out')
  {
    ps', out', up', frees' := ps, out, up, frees;
    hist := [Moment(up, frees, out)];
    for n := 0 to |requests|
      invariant ps <= ps' && forall i {:trigger ps'[i]} :: |ps| <= i < |ps'| ==> fresh(ps'[i])
      invariant Shared(ps', up', frees', out', size, all)
      invariant ServesFirst(requests, n, hist, size)
      invariant hist[0] == Moment(up, frees, out) && hist[n] == Moment(up', frees', out')
    {
      ps', out', up', frees' := ServeNext(ps', out', requests[n], up', frees', size, all);
      ServesMore(requests, n, hist, Moment(up', frees', out'), size);
      hist := hist + [Moment(up', frees', out')];
    }
  }

  method ServeNext(ps: seq<Pool>, out: seq<Chunk>, request: Request, ghost up: seq<int>,
      ghost frees: seq<set<int>>, ghost size: nat, ghost all: set<int>)
      returns (ps': seq<Pool>, out': seq<Chunk>, ghost up': seq<int>, ghost frees': seq<set<int>>)
    requires Shared(ps, up, frees, out, size, all)
    modifies ps
    ensures ps <= ps' && forall i {:trigger ps'[i]} :: |ps| <= i < |ps'| ==> fresh(ps'[i])
    ensures Shared(ps', up', frees', out', size, all)
    ensures Serves(request, Moment(up, frees, out), Moment(up', frees', out'), size)
  {
    ghost var r, k;
    ps', out', up', frees', r, k := ServeRequest(ps, out, request, up, frees, size, all);
  }

  method ServeRequest(ps: seq<Pool>, out: seq<Chunk>, request: Request, ghost up: seq<int>,
      ghost frees: seq<set<int>>, ghost size: nat, ghost all: set<int>)
      returns (ps': seq<Pool>, out': seq<Chunk>, ghost up': seq<int>, ghost frees': seq<set<int>>,
        ghost r: Option<Chunk>, ghost k: nat)
    requires Shared(ps, up, frees, out, size, all)
    modifies ps
    ensures ps <= ps' && forall i {:trigger ps'[i]} :: |ps| <= i < |ps'| ==> fresh(ps'[i])
    ensures Shared(ps', up', frees', out', size, all)
    ensures if request.at < |ps| then Effect(request, up, frees, out, up', frees', out', size, r, k)
      else up' == up && frees' == frees && out' == out
    ensures request.Row? && request.align > 0 && request.at < |ps| ==>
      forall n :: 0 <= n < (if r.Some? then k else |Route(up, request.at)|) ==>
        old(NoRoom(ps[Route(up, request.at)[n]], request.count, request.align))
  {
    ps', out', up', frees', r, k := ps, out, up, frees, None, 0;
    if request.at >= |ps| {
      return;
    }
    match request
    case One(at) =>
      out', frees', r, k := ServeTake(ps, at, false, 1, 1, out, up, frees, size, all);
    case Row(at, count, align) =>
      if align > 0 { out', frees', r, k := ServeTake(ps, at, true, count, align, out, up, frees, size, all); }
    case FreeFirst(at, i) =>
      if i < |out| { out', frees' := ServeFree(ps, at, i, out, up, frees, size, all); }
    case Return(at, i) =>
      if i < |out| { out', frees' := ServeReturn(ps, at, i, out, up, frees, size, all); }
    case Above(at) =>
      ps', up', frees' := ServeAbove(ps, at, out, up, frees, size, all);
    case InPlaceOf(at) =>
      ps', up', frees' := ServeInPlaceOf(ps, at, out, up, frees, size, all);
    case Finish(at) =>
      up', frees' := ServeFinish(ps, at, out, up, frees, size, all);
  }
}
