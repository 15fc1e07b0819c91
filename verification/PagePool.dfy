/**
 The buddy page allocator: initialisation, allocation and reference counting of page blocks.  Each
 operation runs under the pool lock and is one atomic step here.
 */
module PagePool {
  import opened Wrappers
  import Bits
  import opened BuddyBlocks
  import opened PoolState
  import PageReferences

  const PAGE_SIZE: nat := 4096
  const EINVAL: int := 22

  lemma {:induction false} PageSizeIs()
    ensures Bits.Pow2(12) == PAGE_SIZE
  {
    assert Bits.Pow2(4) == 16 && Bits.Pow2(8) == 256;
  }

  class HypPool {
    const vmemmap: array<Page>
    const freeArea: array<seq<nat>>
    var rangeStart: nat
    var rangeEnd: nat
    ghost var mem: Memory

    ghost predicate Ranged()
      reads this
    {
      freeArea.Length == MAX_ORDER + 1 && rangeStart == mem.lo * PAGE_SIZE && rangeEnd == mem.hi * PAGE_SIZE
    }

    /** The invariant between operations. */
    ghost predicate Valid()
      reads this, vmemmap, freeArea
    {
      Ranged() && Tidy(vmemmap[..], freeArea[..], mem) && Complete(mem)
    }

    constructor (vmemmap: array<Page>)
      ensures this.vmemmap == vmemmap && fresh(freeArea) && freeArea.Length == MAX_ORDER + 1
    {
      this.vmemmap := vmemmap;
      freeArea := new seq<nat>[MAX_ORDER + 1](_ => []);
      rangeStart, rangeEnd := 0, 0;
      mem := Memory({}, map[], {}, 0, 0);
    }

    /** The page whose address differs in bit `12 + order`, if it lies in the pool. */
    function FindBuddy(p: nat, order: nat): Option<nat>
      reads this
    {
      var addr := Xor(p * PAGE_SIZE, PAGE_SIZE * Bits.Pow2(order));
      if addr < rangeStart || addr >= rangeEnd then None else Some(addr / PAGE_SIZE)
    }

    lemma {:induction false} FindsBuddy(k: nat, q: nat)
      requires Ranged()
      ensures var b := Head(k, Buddy(q));
        FindBuddy(Head(k, q), k) == if mem.lo <= b < mem.hi then Some(b) else None
    {
      PageSizeIs();
      XorIsBuddy(k, q);
    }

    method SetPage(x: nat, page: Page)
      requires x < vmemmap.Length
      modifies vmemmap
      ensures vmemmap[..] == old(vmemmap[..])[x := page]
    {
      vmemmap[x] := page;
    }

    method SetArea(k: nat, list: seq<nat>)
      requires k < freeArea.Length
      modifies freeArea
      ensures freeArea[..] == old(freeArea[..])[k := list]
    {
      freeArea[k] := list;
    }

    /** Takes a free block off its list; only its record then differs from that of a spare block. */
    method ListDelInit(x: nat, k: nat, ghost q: nat, ghost m: Memory)
      requires freeArea.Length == MAX_ORDER + 1 && x == Head(k, q)
      requires Tidy(vmemmap[..], freeArea[..], m) && Canonical(m.free, k, q)
      modifies vmemmap, freeArea
      ensures Elsewhere(old(vmemmap[..]), vmemmap[..], m.lo, m.hi)
      ensures x < vmemmap.Length && vmemmap[..][x] == Page(0, k, false)
      ensures Tidy(vmemmap[..][x := BLANK], freeArea[..], m.(free := m.free - Pages(k, q)))
      ensures Spare(Pages(k, q), m.(free := m.free - Pages(k, q)))
      ensures k <= MAX_ORDER && freeArea[..] == old(freeArea[..])[k := Without(old(freeArea[k]), x)]
    {
      ghost var pages, areas := vmemmap[..], freeArea[..];
      Unlink(pages, areas, m, k, q);
      ListedIsCanonical(areas, m.free, k, q);
      SetArea(k, Without(freeArea[k], x));
      SetPage(x, vmemmap[x].(linked := false));
      assert vmemmap[..][x := BLANK] == pages[x := BLANK];
    }

    /** Enters a spare block in its list, in front or at the end. */
    method ListAdd(x: nat, k: nat, front: bool, ghost q: nat, ghost m: Memory)
      requires freeArea.Length == MAX_ORDER + 1 && x == Head(k, q) && k <= MAX_ORDER
      requires Tidy(vmemmap[..], freeArea[..], m) && Spare(Pages(k, q), m)
      requires Unjoinable(m.free, k, q)
      modifies vmemmap, freeArea
      ensures Elsewhere(old(vmemmap[..]), vmemmap[..], m.lo, m.hi)
      ensures Tidy(vmemmap[..], freeArea[..], m.(free := m.free + Pages(k, q)))
      ensures freeArea[..] == old(freeArea[..])[k := if front then [x] + old(freeArea[k]) else old(freeArea[k]) + [x]]
    {
      ghost var pages, areas := vmemmap[..], freeArea[..];
      SpareHead(pages, areas, m, k, q);
      var list := if front then [x] + freeArea[k] else freeArea[k] + [x];
      Link(pages, areas, m, k, q, list);
      SetPage(x, vmemmap[x].(order := k, linked := true));
      SetArea(k, list);
    }

    /** Takes the buddies of a spare block off their lists, as long as they are free as well, and
        returns the block that all of them together form. */
    method Coalesce(p0: nat, k0: nat, ghost q0: nat) returns (p: nat, order: nat, ghost q: nat, ghost rest: set<nat>)
      requires Ranged() && p0 == Head(k0, q0) && k0 <= MAX_ORDER
      requires Tidy(vmemmap[..], freeArea[..], mem)
      requires Spare(Pages(k0, q0), mem)
      modifies vmemmap, freeArea
      ensures Elsewhere(old(vmemmap[..]), vmemmap[..], mem.lo, mem.hi)
      ensures order <= MAX_ORDER && p == Head(order, q) && rest + Pages(order, q) == mem.free + Pages(k0, q0)
      ensures Tidy(vmemmap[..], freeArea[..], mem.(free := rest))
      ensures Spare(Pages(order, q), mem.(free := rest))
      ensures Unjoinable(rest, order, q)
      ensures k0 <= order && Thinner(old(freeArea[..]), freeArea[..], k0, order) && rest <= mem.free
    {
      order, p, q, rest := k0, p0, q0, mem.free;
      while order < MAX_ORDER
        invariant order <= MAX_ORDER && p == Head(order, q)
        invariant rest + Pages(order, q) == mem.free + Pages(k0, q0)
        invariant Tidy(vmemmap[..], freeArea[..], mem.(free := rest))
        invariant Spare(Pages(order, q), mem.(free := rest))
        invariant Elsewhere(old(vmemmap[..]), vmemmap[..], mem.lo, mem.hi)
        invariant k0 <= order && Thinner(old(freeArea[..]), freeArea[..], k0, order) && rest <= mem.free
        modifies vmemmap, freeArea
      {
        var buddy := FindBuddy(p, order);
        BuddyCheck(vmemmap[..], freeArea[..], mem.(free := rest), order, q);
        if buddy.None? || !vmemmap[buddy.value].linked || vmemmap[buddy.value].order != order {
          break;
        }
        ListedIsCanonical(freeArea[..], rest, order, Buddy(q));
        ThinnerMore(old(freeArea[..]), freeArea[..], k0, order, buddy.value);
        rest := TakeBuddy(buddy.value, order, q, rest);
        if p < buddy.value {
          p := p;
        } else {
          p := buddy.value;
        }
        q, order := q / 2, order + 1;
      }
    }

    /** Takes the buddy of a spare block off its list; the two then form a spare block. */
    method TakeBuddy(b: nat, k: nat, ghost q: nat, ghost free: set<nat>) returns (ghost rest: set<nat>)
      requires Ranged() && b == Head(k, Buddy(q))
      requires Tidy(vmemmap[..], freeArea[..], mem.(free := free))
      requires Spare(Pages(k, q), mem.(free := free))
      requires Canonical(free, k, Buddy(q))
      modifies vmemmap, freeArea
      ensures Elsewhere(old(vmemmap[..]), vmemmap[..], mem.lo, mem.hi)
      ensures rest + Pages(k + 1, q / 2) == free + Pages(k, q) && rest <= free
      ensures Tidy(vmemmap[..], freeArea[..], mem.(free := rest))
      ensures Spare(Pages(k + 1, q / 2), mem.(free := rest))
      ensures Head(k + 1, q / 2) == if Head(k, q) < b then Head(k, q) else b
      ensures k <= MAX_ORDER && freeArea[..] == old(freeArea[..])[k := Without(old(freeArea[k]), b)]
    {
      JoinBuddies(mem.(free := free), k, q);
      ListDelInit(b, k, Buddy(q), mem.(free := free));
      SetPage(b, vmemmap[b].(order := NO_ORDER));
      rest := free - Pages(k, Buddy(q));
    }

    /** Enters a spare block in the free lists, joined with its buddy as long as that is free. */
    method AddJoined(p: nat, k: nat, ghost q: nat) returns (ghost n: nat, ghost b: nat)
      requires Ranged() && p == Head(k, q) && k <= MAX_ORDER
      requires Tidy(vmemmap[..], freeArea[..], mem) && Spare(Pages(k, q), mem)
      modifies vmemmap, freeArea
      ensures Elsewhere(old(vmemmap[..]), vmemmap[..], mem.lo, mem.hi)
      ensures Tidy(vmemmap[..], freeArea[..], mem.(free := mem.free + Pages(k, q)))
      ensures Fronted(old(freeArea[..]), freeArea[..], k, n, Head(n, b)) && Pages(k, q) <= Pages(n, b)
    {
      var p', k', q', rest := Coalesce(p, k, q);
      ListAdd(p', k', true, q', mem.(free := rest));
      n, b := k', q';
    }

    /** Gives the block that starts at `p` to the free lists. */
    method Attach(p: nat, ghost k: nat, ghost q: nat) returns (ghost n: nat, ghost b: nat)
      requires Ranged() && p < vmemmap.Length && p == Head(k, q) && k <= MAX_ORDER
      requires vmemmap[p] == Page(0, k, false)
      requires Tidy(vmemmap[..][p := BLANK], freeArea[..], mem) && Spare(Pages(k, q), mem)
      modifies vmemmap, freeArea, this`mem
      ensures Elsewhere(old(vmemmap[..]), vmemmap[..], mem.lo, mem.hi)
      ensures Ranged()
      ensures mem == old(mem).(free := old(mem.free) + Pages(k, q))
      ensures Tidy(vmemmap[..], freeArea[..], mem)
      ensures Fronted(old(freeArea[..]), freeArea[..], k, n, Head(n, b)) && Pages(k, q) <= Pages(n, b)
    {
      SpareHead(vmemmap[..][p := BLANK], freeArea[..], mem, k, q);
      var order := vmemmap[p].order;
      SetPage(p, vmemmap[p].(order := NO_ORDER));
      n, b := AddJoined(p, order, q);
      mem := mem.(free := mem.free + Pages(k, q));
    }

    /** Halves the block at `p`, which no list holds, and enters the upper half in its list. */
    method Split(p: nat, ghost k: nat, ghost q: nat)
      requires Ranged() && p == Head(k, q) && 0 < k <= MAX_ORDER && Sub(Pages(k, q), mem.free)
      requires p < vmemmap.Length && vmemmap[p] == Page(0, k, false)
      requires Tidy(vmemmap[..][p := BLANK], freeArea[..], mem.(free := mem.free - Pages(k, q)))
      requires Spare(Pages(k, q), mem.(free := mem.free - Pages(k, q)))
      modifies vmemmap, freeArea
      ensures Elsewhere(old(vmemmap[..]), vmemmap[..], mem.lo, mem.hi)
      ensures p == Head(k - 1, 2 * q) && Sub(Pages(k - 1, 2 * q), mem.free)
      ensures vmemmap[..][p] == Page(0, k - 1, false)
      ensures Tidy(vmemmap[..][p := BLANK], freeArea[..], mem.(free := mem.free - Pages(k - 1, 2 * q)))
      ensures Spare(Pages(k - 1, 2 * q), mem.(free := mem.free - Pages(k - 1, 2 * q)))
      ensures freeArea[..] == old(freeArea[..])[k - 1 := old(freeArea[k - 1]) + [p + Bits.Pow2(k - 1)]]
    {
      Regained(mem.free, k, q);
      UpperHead(k, q);
      UpperReleased(vmemmap[..], freeArea[..], mem.(free := mem.free - Pages(k, q)), p, k, q);
      UpperFound(mem.lo, mem.hi, k, q);
      ReleaseUpper(p);
    }

    method ReleaseUpper(p: nat)
      requires p < vmemmap.Length && 0 < vmemmap[p].order <= freeArea.Length
      requires var b := FindBuddy(p, vmemmap[p].order - 1); b.Some? && b.value < vmemmap.Length && b.value != p
      modifies vmemmap, freeArea
      ensures var k, b := old(vmemmap[p].order) - 1, FindBuddy(p, old(vmemmap[p].order) - 1).value;
        && vmemmap[..] == old(vmemmap[..])[p := old(vmemmap[p]).(order := k)][b := old(vmemmap[b]).(order := k,
           linked := true)]
        && freeArea[..] == old(freeArea[..])[k := old(freeArea[k]) + [b]]
    {
      SetPage(p, vmemmap[p].(order := vmemmap[p].order - 1));
      var order := vmemmap[p].order;
      var buddy := FindBuddy(p, order).value;
      SetPage(buddy, vmemmap[buddy].(order := order, linked := true));
      SetArea(order, freeArea[order] + [buddy]);
    }

    lemma {:induction false} UpperFound(lo: nat, hi: nat, k: nat, q: nat)
      requires Ranged() && lo == mem.lo && hi == mem.hi && 0 < k && lo <= Head(k - 1, 2 * q + 1) < hi
      ensures FindBuddy(Head(k, q), k - 1) == Some(Head(k - 1, 2 * q + 1))
    {
      FindsBuddy(k - 1, 2 * q);
    }

    /** Takes the block that starts at `p` off its free list, splits it down to the requested order
        and hands out its lowest part; refuses a block that is too small. */
    method Extract(p: nat, order: nat, ghost k: nat, ghost q0: nat) returns (r: Option<nat>, ghost q: nat)
      requires Valid() && p == Head(k, q0) && Canonical(mem.free, k, q0)
      modifies vmemmap, freeArea, this`mem
      ensures Elsewhere(old(vmemmap[..]), vmemmap[..], mem.lo, mem.hi)
      ensures Valid()
      ensures k < order ==> r == None && mem == old(mem) && vmemmap[..] == old(vmemmap[..])
      ensures k < order ==> freeArea[..] == old(freeArea[..])
      ensures k >= order ==> r == Some(p) && p == Head(order, q) && Pages(order, q) <= old(mem.free)
      ensures k >= order ==> mem == Allotted(old(mem), p, order, q)
      ensures k >= order ==> Carved(old(freeArea[..]), freeArea[..], p, order, k)
    {
      LinkedIsCanonical(vmemmap[..], freeArea[..], mem, k, q0);
      q := q0;
      if vmemmap[p].order == NO_ORDER || vmemmap[p].order < order {
        return None, q;
      }
      q := TakeOut(p, order, k, q);
      SetPage(p, vmemmap[p].(refcount := 1));
      mem := Allotted(mem, p, order, q);
      r := Some(p);
    }

    method TakeOut(p: nat, order: nat, ghost k: nat, ghost q0: nat) returns (ghost q: nat)
      requires Ranged() && order <= k && p == Head(k, q0) && Canonical(mem.free, k, q0)
      requires p < vmemmap.Length && vmemmap[p].order == k
      requires Tidy(vmemmap[..], freeArea[..], mem)
      requires Complete(mem)
      modifies vmemmap, freeArea
      ensures p == Head(order, q) && Pages(order, q) <= mem.free
      ensures mem.lo <= p < mem.hi <= vmemmap.Length && vmemmap[p] == Page(0, order, false)
      ensures Tidy(vmemmap[..][p := Page(1, order, false)], freeArea[..], Allotted(mem, p, order, q))
      ensures Complete(Allotted(mem, p, order, q))
      ensures Elsewhere(old(vmemmap[..]), vmemmap[..], mem.lo, mem.hi)
      ensures Carved(old(freeArea[..]), freeArea[..], p, order, k)
    {
      ListDelInit(p, vmemmap[p].order, q0, mem);
      q := SplitDown(p, order, k, q0);
      Handed(vmemmap[..], freeArea[..], mem, p, order, q);
    }

    /** Splits the block at `p`, which no list holds, until it has the requested order. */
    method SplitDown(p: nat, order: nat, ghost k: nat, ghost q0: nat) returns (ghost q: nat)
      requires Ranged() && order <= k <= MAX_ORDER && p == Head(k, q0) && Sub(Pages(k, q0), mem.free)
      requires p < vmemmap.Length && vmemmap[..][p] == Page(0, k, false)
      requires Tidy(vmemmap[..][p := BLANK], freeArea[..], mem.(free := mem.free - Pages(k, q0)))
      requires Spare(Pages(k, q0), mem.(free := mem.free - Pages(k, q0)))
      modifies vmemmap, freeArea
      ensures p == Head(order, q) && Sub(Pages(order, q), mem.free)
      ensures vmemmap[..][p] == Page(0, order, false)
      ensures Tidy(vmemmap[..][p := BLANK], freeArea[..], mem.(free := mem.free - Pages(order, q)))
      ensures Spare(Pages(order, q), mem.(free := mem.free - Pages(order, q)))
      ensures Elsewhere(old(vmemmap[..]), vmemmap[..], mem.lo, mem.hi)
      ensures Tailed(old(freeArea[..]), freeArea[..], p, order, k)
    {
      ghost var o := k;
      q := q0;
      while vmemmap[p].order > order
        invariant order <= o <= MAX_ORDER && p == Head(o, q) && Sub(Pages(o, q), mem.free)
        invariant p < vmemmap.Length && vmemmap[..][p] == Page(0, o, false)
        invariant Tidy(vmemmap[..][p := BLANK], freeArea[..], mem.(free := mem.free - Pages(o, q)))
        invariant Spare(Pages(o, q), mem.(free := mem.free - Pages(o, q)))
        invariant o <= k && Tailed(old(freeArea[..]), freeArea[..], p, o, k)
        invariant Elsewhere(old(vmemmap[..]), vmemmap[..], mem.lo, mem.hi)
        modifies vmemmap, freeArea
        decreases o
      {
        ghost var areas := freeArea[..];
        TailedMore(old(freeArea[..]), areas, p, o, k);
        Split(p, o, q);
        assert freeArea[..] == areas[o - 1 := areas[o - 1] + [p + Bits.Pow2(o - 1)]];
        o, q := o - 1, 2 * q;
      }
    }

    /** The first non-empty list from `order` on. */
    method FirstArea(order: nat) returns (i: nat)
      requires freeArea.Length == MAX_ORDER + 1
      ensures order <= i && (i <= MAX_ORDER ==> freeArea[i] != [])
      ensures forall j :: order <= j < i && j <= MAX_ORDER ==> freeArea[..][j] == []
    {
      i := order;
      while i <= MAX_ORDER && freeArea[i] == []
        invariant order <= i && (i <= MAX_ORDER + 1 || i == order)
        invariant forall j :: order <= j < i && j <= MAX_ORDER ==> freeArea[..][j] == []
      {
        i := i + 1;
      }
    }

    /** Allocates an aligned block of `2^order` pages; fails only if there is none.  The block is part of
        the first block on the list of the lowest sufficient order `k`. */
    method Alloc(order: nat) returns (r: Option<nat>, ghost q: nat, ghost k: nat)
      requires Valid()
      modifies vmemmap, freeArea, this`mem
      ensures Elsewhere(old(vmemmap[..]), vmemmap[..], mem.lo, mem.hi)
      ensures Valid()
      ensures r.None? <==> order > 11 || forall j :: !(Pages(order, j) <= old(mem.free))
      ensures r.None? ==> mem == old(mem) && vmemmap[..] == old(vmemmap[..]) && freeArea[..] == old(freeArea[..])
      ensures r.Some? ==> r.value == Head(order, q) && Pages(order, q) <= old(mem.free)
      ensures r.Some? ==> mem == Allotted(old(mem), r.value, order, q)
      ensures r.Some? ==> |mem.free| + Bits.Pow2(order) == |old(mem.free)|
      ensures r.Some? ==> order <= k <= MAX_ORDER && old(freeArea[k]) != [] && r.value == old(freeArea[k])[0]
      ensures r.Some? ==> forall j :: order <= j < k ==> old(freeArea[j]) == []
      ensures r.Some? ==> Carved(old(freeArea[..]), freeArea[..], r.value, order, k)
      ensures r.Some? ==> forall j, b :: order <= j < k ==> !Canonical(old(mem.free), j, b)
    {
      var i := FirstArea(order);
      k := i;
      if i > MAX_ORDER {
        NothingFits(freeArea[..], mem.free, order);
        return None, 0, k;
      }
      NoSmaller(freeArea[..], mem.free, order, k);
      var p := freeArea[i][0];
      ghost var j := FreeHead(freeArea[..], mem.free, i, p);
      r, q := Extract(p, order, i, j);
      CountTaken(old(mem.free), order, q);
    }

    /** Adds a reference to a page.  The records still describe a pool exactly if the page is the first
        one of an allocated block whose counter does not wrap around, an unmanaged page or an allocated
        block of one page. */
    method Get(p: nat)
      requires Valid() && mem.lo <= p < mem.hi
      modifies vmemmap, this`mem
      ensures vmemmap[..] == old(vmemmap[..])[p := PageReferences.OneMore(old(vmemmap[p]))]
      ensures mem.lo == old(mem.lo) && mem.hi == old(mem.hi)
      ensures PageReferences.Describable(vmemmap[..], freeArea[..], mem.lo, mem.hi) <==>
        PageReferences.KeepsPool(old(mem), p)
      ensures PageReferences.KeepsPool(old(mem), p) ==> Valid() && mem == PageReferences.Referenced(old(mem), p)
    {
      PageReferences.GetKeepsPool(vmemmap[..], freeArea[..], mem, p);
      SetPage(p, PageReferences.OneMore(vmemmap[p]));
      if PageReferences.KeepsPool(mem, p) {
        mem := PageReferences.Referenced(mem, p);
      }
    }

    /** Drops a reference; the last one frees the block.  Panics exactly on a page that is not the
        first one of an allocated block. */
    method Put(p: nat) returns (panics: bool, ghost n: nat, ghost b: nat)
      requires Valid()
      requires mem.lo <= p < mem.hi
      modifies vmemmap, freeArea, this`mem
      ensures Elsewhere(old(vmemmap[..]), vmemmap[..], mem.lo, mem.hi)
      ensures Valid()
      ensures panics <==> p !in old(mem).alloc
      ensures panics ==> mem == old(mem) && vmemmap[..] == old(vmemmap[..]) && freeArea[..] == old(freeArea[..])
      ensures !panics ==> mem == Dropped(old(mem), p)
      ensures !panics ==> Listed(old(freeArea[..]), freeArea[..], old(mem).alloc[p], n, b)
    {
      n, b := 0, 0;
      DropRecords(vmemmap[..], freeArea[..], mem, p);
      panics := vmemmap[p].refcount == 0;
      if !panics {
        n, b := PutDown(p);
      }
    }

    /** Drops a reference to an allocated block. */
    method PutDown(p: nat) returns (ghost n: nat, ghost b: nat)
      requires Valid()
      requires p in mem.alloc
      modifies vmemmap, freeArea, this`mem
      ensures Elsewhere(old(vmemmap[..]), vmemmap[..], mem.lo, mem.hi)
      ensures Valid()
      ensures mem == Dropped(old(mem), p)
      ensures Listed(old(freeArea[..]), freeArea[..], old(mem).alloc[p], n, b)
    {
      n, b := 0, 0;
      ghost var m := mem;
      InRange(vmemmap[..], freeArea[..], m, p);
      DropRecords(vmemmap[..], freeArea[..], m, p);
      SetPage(p, vmemmap[p].(refcount := vmemmap[p].refcount - 1));
      if vmemmap[p].refcount == 0 {
        n, b := Release(p);
      } else {
        mem := Dropped(m, p);
      }
      assert mem == Dropped(m, p) && Ranged() && Tidy(vmemmap[..], freeArea[..], mem);
    }

    /** Frees a block without references. */
    method Release(p: nat) returns (ghost n: nat, ghost b: nat)
      requires Ranged()
      requires mem.lo <= p < mem.hi <= vmemmap.Length && p in mem.alloc && mem.alloc[p].k <= MAX_ORDER
      requires vmemmap[p] == Page(0, mem.alloc[p].k, false) && p == Head(mem.alloc[p].k, mem.alloc[p].q)
      requires Tidy(vmemmap[..][p := BLANK], freeArea[..], Less(mem, p))
      requires Spare(Pages(mem.alloc[p].k, mem.alloc[p].q), Less(mem, p))
      modifies vmemmap, freeArea, this`mem
      ensures Elsewhere(old(vmemmap[..]), vmemmap[..], mem.lo, mem.hi)
      ensures Ranged()
      ensures mem == Less(old(mem), p).(free := old(mem).free + PagesOf(old(mem).alloc[p]))
      ensures Tidy(vmemmap[..], freeArea[..], mem)
      ensures Fronted(old(freeArea[..]), freeArea[..], old(mem).alloc[p].k, n, Head(n, b))
      ensures PagesOf(old(mem).alloc[p]) <= Pages(n, b)
    {
      ghost var g := mem.alloc[p];
      mem := Less(mem, p);
      n, b := Attach(p, g.k, g.q);
    }

    /** Sets up the pool for `nr` pages at `phys`, all but the first `used` of them free. */
    method Init(phys: nat, nr: nat, used: nat) returns (r: int)
      requires freeArea.Length == MAX_ORDER + 1
      requires nr * PAGE_SIZE < U32 && phys / PAGE_SIZE + nr <= vmemmap.Length
      modifies this, vmemmap, freeArea
      ensures r == if phys % 4096 != 0 then -22 else 0
      ensures r != 0 ==> unchanged(this, vmemmap, freeArea)
      ensures r == 0 ==> Valid()
      ensures r == 0 ==> Elsewhere(old(vmemmap[..]), vmemmap[..], mem.lo, mem.hi)
      ensures r == 0 ==> Descending(freeArea[..])
      ensures r == 0 ==> rangeStart == phys && mem == Initial(phys / 4096, nr, used, nr)
    {
      if phys % PAGE_SIZE != 0 {
        return -EINVAL;
      }
      ClearLists();
      rangeStart, rangeEnd := phys, phys + nr * PAGE_SIZE;
      ClearRecords(phys / PAGE_SIZE, nr);
      mem := Initial(phys / PAGE_SIZE, nr, used, used);
      InitialTidy(vmemmap[..], freeArea[..], phys / PAGE_SIZE, nr, used);
      AttachUnused(phys / PAGE_SIZE, nr, used);
      r := 0;
    }

    method ClearLists()
      modifies freeArea
      ensures forall k :: 0 <= k < freeArea.Length ==> freeArea[..][k] == []
    {
      for i := 0 to freeArea.Length
        invariant forall k :: 0 <= k < i ==> freeArea[k] == []
      {
        freeArea[i] := [];
      }
    }

    method ClearRecords(lo: nat, nr: nat)
      requires lo + nr <= vmemmap.Length
      modifies vmemmap
      ensures forall x :: lo <= x < lo + nr ==> vmemmap[..][x] == RAW
      ensures Elsewhere(old(vmemmap[..]), vmemmap[..], lo, lo + nr)
    {
      for i := 0 to nr
        invariant forall x :: lo <= x < lo + i ==> vmemmap[x] == RAW
        invariant forall x :: 0 <= x < vmemmap.Length && !(lo <= x < lo + nr) ==> vmemmap[x] == old(vmemmap[x])
      {
        vmemmap[lo + i] := RAW;
      }
    }

    method AttachUnused(lo: nat, nr: nat, used: nat)
      requires Valid()
      requires mem == Initial(lo, nr, used, used) && Descending(freeArea[..])
      modifies vmemmap, freeArea, this`mem
      ensures Valid()
      ensures mem == Initial(lo, nr, used, nr)
      ensures Elsewhere(old(vmemmap[..]), vmemmap[..], lo, lo + nr)
      ensures Descending(freeArea[..])
    {
      var i := used;
      while i < nr
        invariant used <= i && (i <= nr || i == used)
        invariant Ranged()
        invariant mem == Initial(lo, nr, used, i)
        invariant Tidy(vmemmap[..], freeArea[..], mem)
        invariant Complete(mem)
        invariant Elsewhere(old(vmemmap[..]), vmemmap[..], lo, lo + nr)
        invariant Descending(freeArea[..])
      {
        AttachNext(lo, nr, used, i);
        i := i + 1;
      }
      assert Span(lo, used, i) == Span(lo, used, nr);
    }

    method AttachNext(lo: nat, ghost nr: nat, ghost used: nat, i: nat)
      requires Ranged() && used <= i < nr && mem == Initial(lo, nr, used, i)
      requires Tidy(vmemmap[..], freeArea[..], mem) && Descending(freeArea[..])
      modifies vmemmap, freeArea, this`mem
      ensures Elsewhere(old(vmemmap[..]), vmemmap[..], lo, lo + nr)
      ensures Ranged() && mem == Initial(lo, nr, used, i + 1)
      ensures Tidy(vmemmap[..], freeArea[..], mem) && Complete(mem)
      ensures Descending(freeArea[..])
    {
      InitialStep(vmemmap[..], freeArea[..], lo, nr, used, i);
      mem := mem.(raw := mem.raw - {lo + i});
      ghost var areas, free := freeArea[..], mem.free;
      var n, b := Attach(lo + i, 0, lo + i);
      DescendingMore(areas, freeArea[..], free, mem.free, lo + i, n, b);
    }

    /** Allocating a block and giving it back leaves the same blocks on every free list. */
    method AllocThenPut(order: nat)
      requires Valid()
      modifies vmemmap, freeArea, this`mem
      ensures Elsewhere(old(vmemmap[..]), vmemmap[..], mem.lo, mem.hi)
      ensures Valid()
      ensures mem == old(mem)
      ensures SameContents(old(freeArea[..]), freeArea[..])
    {
      ghost var m := mem;
      ghost var areas := freeArea[..];
      var r, q, _ := Alloc(order);
      if r.Some? {
        WasNotAllocated(m, r.value, order, q);
        var panics, _, _ := Put(r.value);
      }
      SameBlocks(areas, freeArea[..], m.free);
    }

    /** What the test on the buddy decides. */
    lemma {:induction false} BuddyCheck(pages: seq<Page>, areas: seq<seq<nat>>, m: Memory, k: nat, q: nat)
      requires Ranged() && m.lo == mem.lo && m.hi == mem.hi
      requires Tidy(pages, areas, m) && Spare(Pages(k, q), m) && k < MAX_ORDER
      ensures var b := FindBuddy(Head(k, q), k);
        && (b.Some? ==> b.value == Head(k, Buddy(q)) && b.value < |pages|)
        && (Canonical(m.free, k, Buddy(q)) <==> b.Some? && pages[b.value].linked && pages[b.value].order == k)
        && (!Canonical(m.free, k, Buddy(q)) ==> Unjoinable(m.free, k, q))
    {
      FindsBuddy(k, q);
      LinkedIsCanonical(pages, areas, m, k, Buddy(q));
      BuddyCanonical(m.free, k, q);
    }
  }

  lemma {:induction false} SpareHead(pages: seq<Page>, areas: seq<seq<nat>>, m: Memory, k: nat, q: nat)
    requires Tidy(pages, areas, m) && Spare(Pages(k, q), m)
    ensures m.lo <= Head(k, q) < m.hi && pages[Head(k, q)] == BLANK
  {
    HeadIn(k, q);
    SpareIsBlank(pages, areas, m, Pages(k, q), Head(k, q));
  }

  /** A list that has lost one element, and lists of which those of the orders from `lo` to `hi` have. */
  ghost predicate Thinned(a: seq<nat>, b: seq<nat>) { exists x :: x in a && b == Without(a, x) }

  ghost predicate Thinner(areas: seq<seq<nat>>, areas': seq<seq<nat>>, lo: nat, hi: nat) {
    && |areas| == |areas'|
    && forall j :: 0 <= j < |areas| ==>
       if lo <= j < hi then Thinned(areas[j], areas'[j]) else areas'[j] == areas[j]
  }

  /** A block of order `k`, joined with a block from each list below `n`, has become the first one of
      list `n`. */
  ghost predicate Fronted(areas: seq<seq<nat>>, areas': seq<seq<nat>>, k: nat, n: nat, x: nat) {
    k <= n < |areas| == |areas'| && areas'[n] == [x] + areas[n] && Thinner(areas, areas'[n := areas[n]], k, n)
  }

  /** The upper halves of a block at `p` are the last ones of the lists of the orders from `lo` to `hi`. */
  ghost predicate Tailed(areas: seq<seq<nat>>, areas': seq<seq<nat>>, p: nat, lo: nat, hi: nat) {
    && |areas| == |areas'|
    && forall j :: 0 <= j < |areas| ==> areas'[j] == if lo <= j < hi then areas[j] + [p + Bits.Pow2(j)] else areas[j]
  }

  lemma {:induction false} TailedMore(areas: seq<seq<nat>>, areas': seq<seq<nat>>, p: nat, lo: nat, hi: nat)
    requires Tailed(areas, areas', p, lo, hi) && 0 < lo <= hi && lo <= |areas|
    ensures Tailed(areas, areas'[lo - 1 := areas'[lo - 1] + [p + Bits.Pow2(lo - 1)]], p, lo - 1, hi)
  {
  }

  lemma {:induction false} ThinnerMore(areas: seq<seq<nat>>, areas': seq<seq<nat>>, lo: nat, hi: nat, x: nat)
    requires Thinner(areas, areas', lo, hi) && lo <= hi < |areas| && x in areas'[hi]
    ensures Thinner(areas, areas'[hi := Without(areas'[hi], x)], lo, hi + 1)
  {
    assert Thinned(areas[hi], Without(areas[hi], x));
  }

  /** Each list begins with its highest page. */
  ghost predicate Descending(areas: seq<seq<nat>>) {
    forall k :: 0 <= k < |areas| ==> Falling(areas[k])
  }

  ghost predicate Falling(s: seq<nat>) {
    forall i, j :: 0 <= i < j < |s| ==> s[i] > s[j]
  }

  lemma {:induction false} FallingWithout(s: seq<nat>, x: nat)
    requires Falling(s)
    ensures Falling(Without(s, x)) && forall y :: y in Without(s, x) ==> y in s
    decreases |s|
  {
    if s != [] && s[0] != x {
      FallingWithout(s[1..], x);
      var t := Without(s[1..], x);
      assert Without(s, x) == [s[0]] + t;
      forall j | 0 <= j < |t| ensures s[0] > t[j] { assert t[j] in s[1..]; }
    }
  }

  /** A block that contains the highest free page comes first in a list that begins with its highest
      page. */
  lemma {:induction false} DescendingMore(areas: seq<seq<nat>>, areas': seq<seq<nat>>, free: set<nat>,
      free': set<nat>, p: nat, n: nat, b: nat)
    requires Descending(areas) && Fronted(areas, areas', 0, n, Head(n, b)) && p in Pages(n, b)
    requires Lists(areas', free') && forall x :: x in free' ==> x <= p
    ensures Descending(areas')
  {
    forall k | 0 <= k < |areas'| ensures Falling(areas'[k]) {
      if k == n {
        forall j | 0 <= j < |areas[n]| ensures Head(n, b) > areas[n][j] {
          assert areas'[n][j + 1] == areas[n][j];
          HighestFirst(areas', free', p, n, b, areas[n][j]);
          assert areas'[n][0] != areas'[n][j + 1];
        }
      } else {
        assert areas'[k] == areas'[n := areas[n]][k];
        if k < n {
          var x :| x in areas[k] && areas'[k] == Without(areas[k], x);
          FallingWithout(areas[k], x);
        }
      }
    }
  }

  lemma {:induction false} HighestFirst(areas: seq<seq<nat>>, free: set<nat>, p: nat, n: nat, b: nat, y: nat)
    requires Lists(areas, free) && n <= MAX_ORDER && p in Pages(n, b) && (forall x :: x in free ==> x <= p)
    requires y in areas[n]
    ensures y <= Head(n, b)
  {
    var c := FreeHead(areas, free, n, y);
    HeadIn(n, c);
    assert y in free;
    if b < c { PageBefore(n, b, c, p); } else if c < b { HeadOrder(n, c, b); }
  }

  lemma {:induction false} PageBefore(k: nat, q: nat, r: nat, p: nat)
    requires q < r && p in Pages(k, q)
    ensures p < Head(k, r)
    decreases k
  {
    if k > 0 { PageBefore(k - 1, if p in Pages(k - 1, 2 * q) then 2 * q else 2 * q + 1, 2 * r, p); }
  }

  /** The block of order `k` at `p` has left its list, and its upper halves down to the order `lo` have
      become the last ones of theirs. */
  ghost predicate Carved(areas: seq<seq<nat>>, areas': seq<seq<nat>>, p: nat, lo: nat, k: nat) {
    k < |areas| && Tailed(areas[k := Without(areas[k], p)], areas', p, lo, k)
  }

  /** What dropping a reference does to the lists: nothing before the last one. */
  ghost predicate Listed(areas: seq<seq<nat>>, areas': seq<seq<nat>>, g: Grant, n: nat, b: nat) {
    if g.refs > 1 then areas' == areas else Fronted(areas, areas', g.k, n, Head(n, b)) && PagesOf(g) <= Pages(n, b)
  }

  lemma {:induction false} UpperHead(k: nat, q: nat)
    requires k > 0
    ensures Head(k - 1, 2 * q + 1) == Head(k, q) + Bits.Pow2(k - 1)
  {
    HeadIs(k - 1, 2 * q);
    HeadIs(k - 1, 2 * q + 1);
  }

  /** Records of pages outside the range of the pool are the same. */
  ghost predicate Elsewhere(pages: seq<Page>, pages': seq<Page>, lo: nat, hi: nat) {
    |pages| == |pages'| && forall x :: 0 <= x < |pages| && !(lo <= x < hi) ==> pages'[x] == pages[x]
  }

  /** The upper half of a spare block goes back to the free lists. */
  lemma {:induction false} UpperHalf(pages: seq<Page>, areas: seq<seq<nat>>, m: Memory, k: nat, q: nat)
    requires Tidy(pages, areas, m) && Spare(Pages(k, q), m) && 0 < k <= MAX_ORDER
    ensures m.lo <= Head(k, q) < m.hi && m.lo <= Head(k - 1, 2 * q + 1) < m.hi
    ensures Head(k - 1, 2 * q) == Head(k, q) != Head(k - 1, 2 * q + 1) && pages[Head(k - 1, 2 * q + 1)] == BLANK
    ensures var b, m' := Head(k - 1, 2 * q + 1), m.(free := m.free + Pages(k - 1, 2 * q + 1));
      && Tidy(pages[b := Page(0, k - 1, true)], areas[k - 1 := areas[k - 1] + [b]], m')
      && Spare(Pages(k - 1, 2 * q), m')
  {
    Halves(m, k, q);
    SpareHead(pages, areas, m, k, q);
    SpareHead(pages, areas, m, k - 1, 2 * q + 1);
    Link(pages, areas, m, k - 1, 2 * q + 1, areas[k - 1] + [Head(k - 1, 2 * q + 1)]);
  }

  lemma {:induction false} UpperReleased(pages: seq<Page>, areas: seq<seq<nat>>, m: Memory, p: nat, k: nat, q: nat)
    requires p < |pages| && Tidy(pages[p := BLANK], areas, m) && Spare(Pages(k, q), m) && 0 < k <= MAX_ORDER
    requires pages[p] == Page(0, k, false) && p == Head(k, q)
    ensures m.lo <= Head(k - 1, 2 * q + 1) < m.hi && p == Head(k - 1, 2 * q) != Head(k - 1, 2 * q + 1)
    ensures Spare(Pages(k - 1, 2 * q), m.(free := m.free + Pages(k - 1, 2 * q + 1)))
    ensures var b, m' := Head(k - 1, 2 * q + 1), m.(free := m.free + Pages(k - 1, 2 * q + 1));
      b < |pages| &&
      var pages' := pages[p := pages[p].(order := k - 1)][b := pages[b].(order := k - 1, linked := true)];
      && pages'[p] == Page(0, k - 1, false)
      && Elsewhere(pages, pages', m.lo, m.hi)
      && Tidy(pages'[p := BLANK], areas[k - 1 := areas[k - 1] + [b]], m')
  {
    UpperHalf(pages[p := BLANK], areas, m, k, q);
    var b := Head(k - 1, 2 * q + 1);
    var pages' := pages[p := pages[p].(order := k - 1)][b := pages[b].(order := k - 1, linked := true)];
    assert pages'[p := BLANK] == pages[p := BLANK][b := Page(0, k - 1, true)];
  }

  /** Two buddies, the second one free, join to a spare block of the next order. */
  lemma {:induction false} JoinBuddies(m: Memory, k: nat, q: nat)
    requires Spare(Pages(k, q), m) && Pages(k, Buddy(q)) <= m.free && Separate(m)
    ensures m.lo <= Head(k, Buddy(q)) < m.hi
    ensures var m' := m.(free := m.free - Pages(k, Buddy(q)));
      Spare(Pages(k + 1, q / 2), m') && m'.free + Pages(k + 1, q / 2) == m.free + Pages(k, q)
    ensures Head(k, q) < Head(k, Buddy(q)) <==> q % 2 == 0
    ensures Head(k + 1, q / 2) == if q % 2 == 0 then Head(k, q) else Head(k, Buddy(q))
  {
    ParentPages(k, q);
    HeadIn(k, Buddy(q));
    if q % 2 == 0 { HeadOrder(k, q, Buddy(q)); } else { HeadOrder(k, Buddy(q), q); }
  }

  lemma {:induction false} Halves(m: Memory, k: nat, q: nat)
    requires k > 0 && Spare(Pages(k, q), m)
    ensures Head(k - 1, 2 * q) == Head(k, q) != Head(k - 1, 2 * q + 1)
    ensures Spare(Pages(k - 1, 2 * q + 1), m)
    ensures Unjoinable(m.free, k - 1, 2 * q + 1)
    ensures Spare(Pages(k - 1, 2 * q), m.(free := m.free + Pages(k - 1, 2 * q + 1)))
  {
    var a, b := Pages(k - 1, 2 * q), Pages(k - 1, 2 * q + 1);
    Apart(k - 1, 2 * q, 2 * q + 1);
    HeadIn(k - 1, 2 * q);
    HeadIn(k - 1, 2 * q + 1);
    SpareParts(m, a, b, Pages(k, q));
    assert Buddy(2 * q + 1) == 2 * q && Head(k - 1, 2 * q) !in m.free;
  }

  lemma SpareParts(m: Memory, a: set<nat>, b: set<nat>, s: set<nat>)
    requires Spare(s, m) && a + b == s && a !! b
    ensures Spare(b, m)
    ensures Spare(a, m.(free := m.free + b))
    ensures s !! m.free
  {
  }

  ghost predicate Sub(a: set<nat>, b: set<nat>) { a <= b }

  lemma {:induction false} Regained(free: set<nat>, k: nat, q: nat)
    requires k > 0 && Sub(Pages(k, q), free)
    ensures free - Pages(k, q) + Pages(k - 1, 2 * q + 1) == free - Pages(k - 1, 2 * q)
    ensures Sub(Pages(k - 1, 2 * q), free)
    ensures Head(k - 1, 2 * q) == Head(k, q)
  {
    Apart(k - 1, 2 * q, 2 * q + 1);
  }

  /** The memory after the free block of order `k` at `p` is handed out. */
  ghost function Allotted(m: Memory, p: nat, k: nat, q: nat): Memory {
    With(m, p, Grant(k, q, 1)).(free := m.free - Pages(k, q))
  }

  lemma {:induction false} Handed(pages: seq<Page>, areas: seq<seq<nat>>, m: Memory, p: nat, k: nat, q: nat)
    requires p < |pages| && p == Head(k, q) && k <= MAX_ORDER && Complete(m) && pages[p] == Page(0, k, false)
    requires Tidy(pages[p := BLANK], areas, m.(free := m.free - Pages(k, q)))
    requires Spare(Pages(k, q), m.(free := m.free - Pages(k, q)))
    ensures Tidy(pages[p := Page(1, k, false)], areas, Allotted(m, p, k, q))
    ensures Complete(Allotted(m, p, k, q))
    ensures m.lo <= p < m.hi <= |pages|
  {
    var m0, g := m.(free := m.free - Pages(k, q)), Grant(k, q, 1);
    SpareHead(pages[p := BLANK], areas, m0, k, q);
    HeadIn(k, q);
    SpareIsBlank(pages[p := BLANK], areas, m0, Pages(k, q), p);
    Allot(pages[p := BLANK], areas, m0, p, g);
    CompleteAllot(m, With(m, p, g).(free := m.free - PagesOf(g)), p, g);
    assert pages[p := BLANK][p := Page(1, k, false)] == pages[p := Page(1, k, false)];
  }

  /** If the lists of this and all higher orders are empty, no aligned run of pages is free. */
  lemma {:induction false} NothingFits(areas: seq<seq<nat>>, free: set<nat>, order: nat)
    requires Lists(areas, free)
    requires forall j :: order <= j <= MAX_ORDER ==> areas[j] == []
    ensures order > MAX_ORDER || forall q :: !(Pages(order, q) <= free)
  {
    if order <= MAX_ORDER {
      forall q ensures !(Pages(order, q) <= free) {
        if Pages(order, q) <= free {
          var i, r := CanonicalAbove(free, order, q);
          assert IsFreeHead(free, i, Head(i, r));
        }
      }
    }
  }

  lemma {:induction false} FreeHead(areas: seq<seq<nat>>, free: set<nat>, k: nat, x: nat) returns (q: nat)
    requires Lists(areas, free) && k <= MAX_ORDER && x in areas[k]
    ensures Head(k, q) == x && Canonical(free, k, q)
  {
    assert IsFreeHead(free, k, x);
    q :| Head(k, q) == x && Canonical(free, k, q);
  }

  lemma {:induction false} NoSmaller(areas: seq<seq<nat>>, free: set<nat>, order: nat, k: nat)
    requires Lists(areas, free) && k <= MAX_ORDER && forall j :: order <= j < k ==> areas[j] == []
    ensures forall j, b :: order <= j < k ==> !Canonical(free, j, b)
  {
    forall j, b | order <= j < k ensures !Canonical(free, j, b) { ListedIsCanonical(areas, free, j, b); }
  }

  /** The memory after one reference to the block at `p` is given up. */
  ghost function Dropped(m: Memory, p: nat): Memory
    requires p in m.alloc
  {
    if m.alloc[p].refs > 1 then With(m, p, m.alloc[p].(refs := m.alloc[p].refs - 1))
    else Less(m, p).(free := m.free + PagesOf(m.alloc[p]))
  }

  lemma InRange(pages: seq<Page>, areas: seq<seq<nat>>, m: Memory, p: nat)
    requires Records(pages, areas, m) && p in m.alloc
    ensures m.lo <= p < m.hi <= |pages|
  {
  }

  lemma {:induction false} DropRecords(pages: seq<Page>, areas: seq<seq<nat>>, m: Memory, p: nat)
    requires Tidy(pages, areas, m) && Complete(m) && m.lo <= p < m.hi
    ensures pages[p].refcount == 0 <==> p !in m.alloc
    ensures p in m.alloc ==> pages[p] == Page(m.alloc[p].refs, m.alloc[p].k, false) && Complete(Dropped(m, p))
    ensures p in m.alloc && m.alloc[p].refs > 1 ==>
      Tidy(pages[p := pages[p].(refcount := pages[p].refcount - 1)], areas, Dropped(m, p))
    ensures p in m.alloc && m.alloc[p].refs <= 1 ==>
      Tidy(pages[p := pages[p].(refcount := pages[p].refcount - 1)][p := BLANK], areas, Less(m, p))
    ensures p in m.alloc && m.alloc[p].refs <= 1 ==> Spare(Pages(m.alloc[p].k, m.alloc[p].q), Less(m, p))
    ensures p in m.alloc ==> m.alloc[p].refs > 0 && m.alloc[p].k <= MAX_ORDER && p == Head(m.alloc[p].k, m.alloc[p].q)
  {
    if p in m.alloc {
      assert Granted(p, m.alloc[p], m);
      if m.alloc[p].refs > 1 {
        Recount(pages, areas, m, p, m.alloc[p].refs - 1);
        CompleteRecount(m, p, m.alloc[p].refs - 1);
      } else {
        Revoke(pages, areas, m, p);
        CompleteRevoke(m, Dropped(m, p), p);
        assert pages[p := pages[p].(refcount := pages[p].refcount - 1)][p := BLANK] == pages[p := BLANK];
      }
    }
  }

  predicate Between(p: nat, a: nat, b: nat) { a <= p < b }

  /** The pages `from` to `to`, counted from page `lo`. */
  function Span(lo: nat, from: nat, to: nat): set<nat> { Interval(lo + from, lo + to) }

  function Interval(a: nat, b: nat): set<nat> { set p: nat | a <= p < b && Between(p, a, b) }

  /** The memory of a new pool once the pages below `done` have been looked at. */
  ghost function Initial(lo: nat, nr: nat, used: nat, done: nat): Memory {
    Memory(Span(lo, used, done), map[], Span(lo, 0, nr) - Span(lo, used, done), lo, lo + nr)
  }

  lemma {:induction false} InitialTidy(pages: seq<Page>, areas: seq<seq<nat>>, lo: nat, nr: nat, used: nat)
    requires |areas| == MAX_ORDER + 1 && lo + nr <= |pages|
    requires forall k :: 0 <= k < |areas| ==> areas[k] == []
    requires forall x :: lo <= x < lo + nr ==> pages[x] == RAW
    ensures Tidy(pages, areas, Initial(lo, nr, used, used)) && Complete(Initial(lo, nr, used, used))
  {
    var m := Initial(lo, nr, used, used);
    assert m.free == {};
    forall k, q ensures !Canonical(m.free, k, q) { HeadIn(k, q); }
    assert forall x :: m.lo <= x < m.hi ==> Covered(m, x);
  }

  lemma {:induction false} InitialStep(pages: seq<Page>, areas: seq<seq<nat>>, lo: nat, nr: nat, used: nat, i: nat)
    requires used <= i < nr && Tidy(pages, areas, Initial(lo, nr, used, i))
    ensures var m, p := Initial(lo, nr, used, i), lo + i;
      && p < |pages| && pages[p] == Page(0, 0, false)
      && Tidy(pages[p := BLANK], areas, m.(raw := m.raw - {p}))
      && Spare(Pages(0, p), m.(raw := m.raw - {p}))
      && m.(raw := m.raw - {p}, free := m.free + Pages(0, p)) == Initial(lo, nr, used, i + 1)
    ensures Complete(Initial(lo, nr, used, i + 1))
  {
    var m, p := Initial(lo, nr, used, i), lo + i;
    Unraw(pages, areas, m, p);
    assert m.free + {p} == Span(lo, used, i + 1);
    assert m.raw - {p} == Span(lo, 0, nr) - Span(lo, used, i + 1);
    var m' := Initial(lo, nr, used, i + 1);
    assert forall x :: m.lo <= x < m.hi ==> Covered(m', x);
  }

  lemma {:induction false} WasNotAllocated(m: Memory, p: nat, k: nat, q: nat)
    requires Separate(m) && p == Head(k, q) && Pages(k, q) <= m.free
    ensures p !in m.alloc
    ensures Dropped(Allotted(m, p, k, q), p) == m
  {
    HeadIn(k, q);
    if p in m.alloc { HeadIn(m.alloc[p].k, m.alloc[p].q); }
    assert With(m, p, Grant(k, q, 1)).alloc - {p} == m.alloc;
    assert m.free - Pages(k, q) + Pages(k, q) == m.free;
  }

  /** Lists with the same elements, each as often. */
  ghost predicate SameContents(areas: seq<seq<nat>>, areas': seq<seq<nat>>) {
    |areas| == |areas'| && forall k :: 0 <= k < |areas| ==> multiset(areas[k]) == multiset(areas'[k])
  }

  /** The free pages determine the content of every free list up to order. */
  lemma {:induction false} SameBlocks(areas: seq<seq<nat>>, areas': seq<seq<nat>>, free: set<nat>)
    requires Lists(areas, free) && Lists(areas', free)
    ensures SameContents(areas, areas')
  {
    forall k | 0 <= k < |areas| ensures multiset(areas[k]) == multiset(areas'[k]) {
      forall x ensures multiset(areas[k])[x] == multiset(areas'[k])[x] {
        OnceAtMost(areas[k], x);
        OnceAtMost(areas'[k], x);
        assert x in areas[k] <==> IsFreeHead(free, k, x);
      }
    }
  }

  lemma {:induction false} OnceAtMost(s: seq<nat>, x: nat)
    requires Distinct(s)
    ensures multiset(s)[x] == if x in s then 1 else 0
    decreases |s|
  {
    if s != [] {
      OnceAtMost(s[1..], x);
      assert s == [s[0]] + s[1..];
    }
  }

  lemma {:induction false} CountTaken(free: set<nat>, k: nat, q: nat)
    requires Pages(k, q) <= free
    ensures |free - Pages(k, q)| + Bits.Pow2(k) == |free|
  {
    PageCount(k, q);
  }

  /** Giving up the last reference frees exactly the pages of the block. */
  lemma {:induction false} DropCount(m: Memory, p: nat)
    requires Separate(m) && p in m.alloc
    ensures |Dropped(m, p).free| == |m.free| + if m.alloc[p].refs > 1 then 0 else Bits.Pow2(m.alloc[p].k)
  {
    assert Granted(p, m.alloc[p], m);
    PageCount(m.alloc[p].k, m.alloc[p].q);
  }

  /** In a valid pool every page of the range is in exactly one place: free, unmanaged, or in one
      allocated block. */
  lemma {:induction false} Partition(m: Memory, p: nat)
    requires Separate(m) && Complete(m) && m.lo <= p < m.hi
    ensures p in m.free ==> p !in m.raw && forall h :: h in m.alloc ==> p !in PagesOf(m.alloc[h])
    ensures p in m.raw ==> forall h :: h in m.alloc ==> p !in PagesOf(m.alloc[h])
    ensures p !in m.free && p !in m.raw ==> exists h ::
      h in m.alloc && p in PagesOf(m.alloc[h]) &&
      forall h' :: h' in m.alloc && p in PagesOf(m.alloc[h']) ==> h' == h
  {
    assert Covered(m, p);
    forall h | h in m.alloc ensures p in PagesOf(m.alloc[h]) ==> p !in m.free && p !in m.raw {
      assert Granted(h, m.alloc[h], m);
    }
  }
}
