/**
 What one more reference does to the record of a page, and exactly when the records then still
 describe a pool.
 */
module PageReferences {
  import Bits
  import BuddyBlocks
  import opened PoolState

  /** One more reference, in 32 bits. */
  function OneMore(r: Page): Page { r.(refcount := (r.refcount + 1) % U32) }

  /** The counter has 32 bits and begins again at 0; no order is the largest 32-bit number. */
  lemma {:induction false} OneMoreIs(r: Page)
    requires r.refcount < Bits.Pow2(32)
    ensures OneMore(r) == r.(refcount := if r.refcount == Bits.Pow2(32) - 1 then 0 else r.refcount + 1)
    ensures NO_ORDER == Bits.Pow2(32) - 1
  {
    assert Bits.Pow2(4) == 16 && Bits.Pow2(8) == 256 && Bits.Pow2(12) == 4096 && Bits.Pow2(16) == 0x1_0000;
    assert Bits.Pow2(20) == 0x10_0000 && Bits.Pow2(24) == 0x100_0000 && Bits.Pow2(28) == 0x1000_0000;
  }

  /** Some division of the range into free, allocated and unmanaged pages fits the records and lists. */
  ghost predicate Describable(pages: seq<Page>, areas: seq<seq<nat>>, lo: nat, hi: nat) {
    exists m: Memory :: m.lo == lo && m.hi == hi && Tidy(pages, areas, m) && Complete(m)
  }

  ghost predicate CanRefer(m: Memory, p: nat) { p in m.alloc && m.alloc[p].refs < U32 - 1 }

  /** The first page of an allocated block whose counter does not wrap around, an unmanaged page, or
      an allocated block of one page. */
  ghost predicate KeepsPool(m: Memory, p: nat) {
    CanRefer(m, p) || p in m.raw || (p in m.alloc && m.alloc[p].k == 0)
  }

  /** The memory after one more reference to page `p`: an unmanaged page looks like an allocated
      one, and an allocated one whose counter wraps around like an unmanaged one. */
  ghost function Referenced(m: Memory, p: nat): Memory {
    if CanRefer(m, p) then With(m, p, m.alloc[p].(refs := m.alloc[p].refs + 1))
    else if p in m.raw then With(m, p, Grant(0, p, 1)).(raw := m.raw - {p})
    else Less(m, p).(raw := m.raw + {p})
  }

  /** One more reference to a page leaves records of a pool exactly in these cases. */
  lemma {:induction false} GetKeepsPool(pages: seq<Page>, areas: seq<seq<nat>>, m: Memory, p: nat)
    requires Tidy(pages, areas, m) && Complete(m) && m.lo <= p < m.hi
    ensures Describable(pages[p := OneMore(pages[p])], areas, m.lo, m.hi) <==> KeepsPool(m, p)
    ensures KeepsPool(m, p) ==> Tidy(pages[p := OneMore(pages[p])], areas, Referenced(m, p))
    ensures KeepsPool(m, p) ==> Complete(Referenced(m, p))
  {
    if KeepsPool(m, p) {
      Refer(pages, areas, m, p);
    } else {
      var pages' := pages[p := OneMore(pages[p])];
      Misfit(pages, areas, m, p);
      forall m': Memory | m'.lo == m.lo && m'.hi == m.hi ensures !Tidy(pages', areas, m') {
        if Tidy(pages', areas, m') { AllOccur(pages', areas, m', p); }
      }
    }
  }

  lemma {:induction false} Refer(pages: seq<Page>, areas: seq<seq<nat>>, m: Memory, p: nat)
    requires Tidy(pages, areas, m) && Complete(m) && m.lo <= p < m.hi && KeepsPool(m, p)
    ensures Tidy(pages[p := OneMore(pages[p])], areas, Referenced(m, p))
    ensures Complete(Referenced(m, p))
  {
    if CanRefer(m, p) {
      CountUp(pages, areas, m, p);
    } else if p in m.raw {
      Adopt(pages, areas, m, p);
    } else {
      Disown(pages, areas, m, p);
    }
  }

  lemma {:induction false} CountUp(pages: seq<Page>, areas: seq<seq<nat>>, m: Memory, p: nat)
    requires Tidy(pages, areas, m) && Complete(m) && m.lo <= p < m.hi && CanRefer(m, p)
    ensures Tidy(pages[p := OneMore(pages[p])], areas, Referenced(m, p)) && Complete(Referenced(m, p))
  {
    var refs := m.alloc[p].refs + 1;
    assert OneMore(pages[p]) == pages[p].(refcount := refs) by { ReferredRecord(pages, areas, m, p); }
    assert Referenced(m, p) == With(m, p, m.alloc[p].(refs := refs));
    Recount(pages, areas, m, p, refs);
    CompleteRecount(m, p, refs);
  }

  lemma {:induction false} ReferredRecord(pages: seq<Page>, areas: seq<seq<nat>>, m: Memory, p: nat)
    requires Tidy(pages, areas, m) && m.lo <= p < m.hi && KeepsPool(m, p)
    ensures CanRefer(m, p) ==> OneMore(pages[p]) == pages[p].(refcount := m.alloc[p].refs + 1)
    ensures !CanRefer(m, p) ==> OneMore(pages[p]) == if p in m.raw then Page(1, 0, false) else RAW
  {
    if p in m.alloc { assert Granted(p, m.alloc[p], m); }
  }

  /** The record of an unmanaged page with one reference is that of an allocated page. */
  lemma {:induction false} Adopt(pages: seq<Page>, areas: seq<seq<nat>>, m: Memory, p: nat)
    requires Tidy(pages, areas, m) && Complete(m) && p in m.raw && !CanRefer(m, p)
    ensures p < |pages| && Tidy(pages[p := OneMore(pages[p])], areas, Referenced(m, p)) && Complete(Referenced(m, p))
  {
    ReferredRecord(pages, areas, m, p);
    var m0, g := m.(raw := m.raw - {p}), Grant(0, p, 1);
    Unraw(pages, areas, m, p);
    Allot(pages[p := BLANK], areas, m0, p, g);
    assert pages[p := BLANK][p := Page(1, 0, false)] == pages[p := Page(1, 0, false)];
    var m' := With(m, p, g).(raw := m.raw - {p});
    forall x | m.lo <= x < m.hi ensures Covered(m', x) {
      assert Covered(m, x);
      if x == p {
        assert x in PagesOf(m'.alloc[p]);
      } else if x !in m.free && x !in m.raw {
        var h :| h in m.alloc && x in PagesOf(m.alloc[h]);
        assert h != p by { assert Granted(h, m.alloc[h], m); BuddyBlocks.HeadIn(m.alloc[h].k, m.alloc[h].q); }
        assert x in PagesOf(m'.alloc[h]);
      }
    }
  }

  /** The record of an allocated page without references is that of an unmanaged page. */
  lemma {:induction false} Disown(pages: seq<Page>, areas: seq<seq<nat>>, m: Memory, p: nat)
    requires Tidy(pages, areas, m) && Complete(m) && p in m.alloc && m.alloc[p].k == 0 && !CanRefer(m, p)
    requires p !in m.raw
    ensures p < |pages| && Tidy(pages[p := OneMore(pages[p])], areas, Referenced(m, p)) && Complete(Referenced(m, p))
  {
    ReferredRecord(pages, areas, m, p);
    Revoke(pages, areas, m, p);
    assert PagesOf(m.alloc[p]) == {p} by { assert Granted(p, m.alloc[p], m); }
    Raw(pages[p := BLANK], areas, Less(m, p), p);
    assert pages[p := BLANK][p := RAW] == pages[p := RAW];
    var m' := Less(m, p).(raw := m.raw + {p});
    forall x | m.lo <= x < m.hi ensures Covered(m', x) {
      assert Covered(m, x);
      if x != p && x !in m.free && x !in m.raw {
        var h :| h in m.alloc && x in PagesOf(m.alloc[h]);
        assert h in m'.alloc && x in PagesOf(m'.alloc[h]);
      }
    }
  }

  /** A spare page becomes an unmanaged one. */
  lemma {:induction false} Raw(pages: seq<Page>, areas: seq<seq<nat>>, m: Memory, x: nat)
    requires Tidy(pages, areas, m) && Spare({x}, m)
    ensures x < |pages| && Tidy(pages[x := RAW], areas, m.(raw := m.raw + {x}))
  {
    SpareIsBlank(pages, areas, m, {x}, x);
    RecordsRaw(pages, areas, m, x);
  }

  lemma RecordsRaw(pages: seq<Page>, areas: seq<seq<nat>>, m: Memory, x: nat)
    requires Records(pages, areas, m) && m.lo <= x < m.hi && pages[x] == BLANK && x !in m.alloc
    ensures Records(pages[x := RAW], areas, m.(raw := m.raw + {x}))
  {
  }

  /** The records that occur in a pool: of a linked page, of an allocated one and of the others. */
  predicate Occurs(r: Page) {
    if r.linked then r.refcount == 0
    else if r.refcount > 0 then r.order <= BuddyBlocks.MAX_ORDER
    else r == BLANK || r == RAW
  }

  lemma {:induction false} AllOccur(pages: seq<Page>, areas: seq<seq<nat>>, m: Memory, p: nat)
    requires Tidy(pages, areas, m) && m.lo <= p < m.hi
    ensures Occurs(pages[p])
  {
    if pages[p].refcount > 0 { assert Granted(p, m.alloc[p], m); }
  }

  /** In all other cases no memory fits the record. */
  lemma {:induction false} Misfit(pages: seq<Page>, areas: seq<seq<nat>>, m: Memory, p: nat)
    requires Tidy(pages, areas, m) && m.lo <= p < m.hi && !KeepsPool(m, p)
    ensures !Occurs(OneMore(pages[p]))
  {
    if p in m.alloc { assert Granted(p, m.alloc[p], m); }
  }

  /** A pool of one page, which is free: a reference to it leaves records that no pool has. */
  lemma {:induction false} GetOnFreePage()
    ensures exists pages, areas, m ::
      Tidy(pages, areas, m) && Complete(m) && m.lo <= 0 < m.hi &&
      !Describable(pages[0 := OneMore(pages[0])], areas, m.lo, m.hi)
  {
    var none := seq(BuddyBlocks.MAX_ORDER + 1, _ => []);
    var areas, m := none[0 := [0]], Memory({0}, map[], {}, 0, 1);
    OnePage(none);
    assert Covered(m, 0);
    GetKeepsPool([Page(0, 0, true)], areas, m, 0);
  }

  lemma {:induction false} OnePage(none: seq<seq<nat>>)
    requires |none| == BuddyBlocks.MAX_ORDER + 1 && forall k :: 0 <= k < |none| ==> none[k] == []
    ensures Tidy([Page(0, 0, true)], none[0 := [0]], Memory({0}, map[], {}, 0, 1))
  {
    var m := Memory({}, map[], {}, 0, 1);
    forall k, q ensures !BuddyBlocks.Canonical(m.free, k, q) { BuddyBlocks.HeadIn(k, q); }
    assert Tidy([BLANK], none, m);
    assert BuddyBlocks.Pages(0, 0) == {0} && BuddyBlocks.Pages(0, BuddyBlocks.Buddy(0)) == {1};
    Link([BLANK], none, m, 0, 0, [0]);
    assert [BLANK][0 := Page(0, 0, true)] == [Page(0, 0, true)] && m.free + {0} == {0};
  }
}
