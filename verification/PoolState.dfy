/**
 What the page records and free lists of a pool must look like, and the two elementary changes of
 it: unlinking a free block and linking one.
 */
module PoolState {
  import opened BuddyBlocks

  const U32: nat := 0x1_0000_0000
  const NO_ORDER: nat := U32 - 1

  /** The part of a page record that the allocator uses; `linked` says whether the list node of the
      page is on a list. */
  datatype Page = Page(refcount: nat, order: nat, linked: bool)

  const BLANK: Page := Page(0, NO_ORDER, false)
  const RAW: Page := Page(0, 0, false)

  ghost predicate Distinct(s: seq<nat>) {
    forall i, j :: 0 <= i < j < |s| ==> s[i] != s[j]
  }

  function Without(s: seq<nat>, x: nat): seq<nat> {
    if s == [] then [] else if s[0] == x then s[1..] else [s[0]] + Without(s[1..], x)
  }

  lemma {:induction false} WithoutMembers(s: seq<nat>, x: nat)
    requires Distinct(s)
    ensures forall y :: y in Without(s, x) <==> y in s && y != x
    decreases |s|
  {
    if s != [] {
      assert s == [s[0]] + s[1..];
      if s[0] != x { WithoutMembers(s[1..], x); }
    }
  }

  lemma {:induction false} WithoutDistinct(s: seq<nat>, x: nat)
    requires Distinct(s)
    ensures Distinct(Without(s, x))
    decreases |s|
  {
    if s != [] && s[0] != x {
      WithoutDistinct(s[1..], x);
      WithoutMembers(s[1..], x);
      assert s[0] !in s[1..];
    }
  }

  /** An allocated block and the number of references to it. */
  datatype Grant = Grant(k: nat, q: nat, refs: nat)

  function PagesOf(g: Grant): set<nat> { Pages(g.k, g.q) }

  /** The memory of a pool: which pages are free, which blocks are allocated, by first page, and
      which pages the allocator does not manage. */
  datatype Memory = Memory(free: set<nat>, alloc: map<nat, Grant>, raw: set<nat>, lo: nat, hi: nat)

  ghost predicate IsFreeHead(free: set<nat>, k: nat, x: nat) {
    exists q :: Head(k, q) == x && Canonical(free, k, q)
  }

  /** Free list `k` holds the first pages of the canonical blocks of order `k`, each once. */
  ghost predicate Lists(areas: seq<seq<nat>>, free: set<nat>) {
    && |areas| == MAX_ORDER + 1
    && (forall k :: 0 <= k < |areas| ==> Distinct(areas[k]))
    && (forall k, x {:trigger IsFreeHead(free, k, x)} :: 0 <= k < |areas| ==>
       (x in areas[k] <==> IsFreeHead(free, k, x)))
  }

  /** The record of each page: first pages of free blocks are linked and carry their order, first
      pages of allocated blocks carry order and references, all other managed pages are blank. */
  ghost predicate Records(pages: seq<Page>, areas: seq<seq<nat>>, m: Memory) {
    && m.hi <= |pages| && |areas| == MAX_ORDER + 1
    && (forall k, x {:trigger x in areas[k]} :: 0 <= k < |areas| && x in areas[k] ==>
       m.lo <= x < m.hi && pages[x] == Page(0, k, true))
    && (forall p {:trigger pages[p]} :: m.lo <= p < m.hi && pages[p].linked ==>
       pages[p].order <= MAX_ORDER && p in areas[pages[p].order])
    && (forall p :: p in m.alloc ==> m.lo <= p < m.hi && pages[p] == Page(m.alloc[p].refs, m.alloc[p].k, false))
    && (forall p {:trigger pages[p]} :: m.lo <= p < m.hi && pages[p].refcount > 0 ==> p in m.alloc)
    && (forall p :: p in m.raw ==> m.lo <= p < m.hi && pages[p] == RAW)
    && (forall p {:trigger pages[p]} ::
       m.lo <= p < m.hi && !pages[p].linked && pages[p].refcount == 0 && p !in m.raw ==> pages[p] == BLANK)
  }

  ghost predicate Within(s: set<nat>, lo: nat, hi: nat) {
    forall p :: p in s ==> lo <= p < hi
  }

  /** A set of pages that nothing in the pool accounts for. */
  ghost predicate Spare(s: set<nat>, m: Memory) {
    && Within(s, m.lo, m.hi) && s !! m.free && s !! m.raw
    && forall p :: p in m.alloc ==> PagesOf(m.alloc[p]) !! s
  }

  /** Free pages, allocated blocks and unmanaged pages do not overlap; allocated blocks are aligned. */
  ghost predicate Separate(m: Memory) {
    && Within(m.free, m.lo, m.hi) && m.free !! m.raw
    && (forall p :: p in m.alloc ==> Granted(p, m.alloc[p], m))
    && (forall p, r :: p in m.alloc && r in m.alloc && p != r ==> PagesOf(m.alloc[p]) !! PagesOf(m.alloc[r]))
  }

  ghost predicate Granted(p: nat, g: Grant, m: Memory) {
    && g.k <= MAX_ORDER && 0 < g.refs < U32 && Head(g.k, g.q) == p
    && Within(PagesOf(g), m.lo, m.hi) && PagesOf(g) !! m.free && PagesOf(g) !! m.raw
  }

  ghost predicate Tidy(pages: seq<Page>, areas: seq<seq<nat>>, m: Memory) {
    Lists(areas, m.free) && Records(pages, areas, m) && Separate(m)
  }

  /** Every page is accounted for. */
  ghost predicate Complete(m: Memory) {
    forall p :: m.lo <= p < m.hi ==> Covered(m, p)
  }

  lemma {:induction false} HeadInjective(k: nat, q: nat, r: nat)
    requires Head(k, q) == Head(k, r)
    ensures q == r
  {
    HeadIn(k, q);
    HeadIn(k, r);
    if q != r { Apart(k, q, r); }
  }

  lemma {:induction false} ListedIsCanonical(areas: seq<seq<nat>>, free: set<nat>, k: nat, q: nat)
    requires Lists(areas, free) && k <= MAX_ORDER
    ensures Head(k, q) in areas[k] <==> Canonical(free, k, q)
  {
    assert Head(k, q) in areas[k] <==> IsFreeHead(free, k, Head(k, q));
    if Head(k, q) in areas[k] {
      var r :| Head(k, r) == Head(k, q) && Canonical(free, k, r);
      HeadInjective(k, q, r);
    }
    if Canonical(free, k, q) {
      assert IsFreeHead(free, k, Head(k, q));
    }
  }

  /** A canonical block is recognised by the record of its first page. */
  lemma {:induction false} LinkedIsCanonical(pages: seq<Page>, areas: seq<seq<nat>>, m: Memory, k: nat, q: nat)
    requires Tidy(pages, areas, m) && k <= MAX_ORDER
    ensures var x := Head(k, q);
      Canonical(m.free, k, q) <==> m.lo <= x < m.hi && pages[x].linked && pages[x].order == k
  {
    ListedIsCanonical(areas, m.free, k, q);
  }

  // ----- Unlinking -----

  lemma {:induction false} ListsUnlink(areas: seq<seq<nat>>, free: set<nat>, k: nat, q: nat)
    requires Lists(areas, free) && Canonical(free, k, q)
    ensures Lists(areas[k := Without(areas[k], Head(k, q))], free - Pages(k, q))
  {
    var x, rest := Head(k, q), free - Pages(k, q);
    var areas' := areas[k := Without(areas[k], x)];
    WithoutMembers(areas[k], x);
    WithoutDistinct(areas[k], x);
    forall j: nat, y: nat | j < |areas| ensures y in areas'[j] <==> IsFreeHead(rest, j, y) {
      HeadsUnlink(free, rest, k, q, j, y);
    }
  }

  lemma {:induction false} HeadsUnlink(free: set<nat>, rest: set<nat>, k: nat, q: nat, j: nat, y: nat)
    requires Canonical(free, k, q) && rest == free - Pages(k, q)
    ensures IsFreeHead(rest, j, y) <==> IsFreeHead(free, j, y) && !(j == k && y == Head(k, q))
  {
    assert rest + Pages(k, q) == free;
    if IsFreeHead(rest, j, y) {
      var r :| Head(j, r) == y && Canonical(rest, j, r);
      CanonicalStep(rest, k, q, j, r);
      NotTaken(rest, k, q, j, r);
    }
    if IsFreeHead(free, j, y) && !(j == k && y == Head(k, q)) {
      var r :| Head(j, r) == y && Canonical(free, j, r);
      CanonicalStep(rest, k, q, j, r);
    }
  }

  lemma {:induction false} NotTaken(rest: set<nat>, k: nat, q: nat, j: nat, r: nat)
    requires Pages(k, q) !! rest && Canonical(rest, j, r)
    ensures Head(j, r) != Head(k, q)
  {
    HeadIn(j, r);
    HeadIn(k, q);
  }

  lemma {:induction false} RecordsUnlink(pages: seq<Page>, areas: seq<seq<nat>>, m: Memory, free': set<nat>,
      k: nat, x: nat)
    requires Records(pages, areas, m) && k <= MAX_ORDER && x in areas[k] && Distinct(areas[k])
    requires x !in m.raw
    ensures x < |pages| && Records(pages[x := BLANK], areas[k := Without(areas[k], x)], m.(free := free'))
  {
    WithoutMembers(areas[k], x);
  }

  lemma {:induction false} Unlink(pages: seq<Page>, areas: seq<seq<nat>>, m: Memory, k: nat, q: nat)
    requires Tidy(pages, areas, m) && Canonical(m.free, k, q)
    ensures Head(k, q) < |pages|
    ensures Tidy(pages[Head(k, q) := BLANK], areas[k := Without(areas[k], Head(k, q))],
      m.(free := m.free - Pages(k, q)))
    ensures Spare(Pages(k, q), m.(free := m.free - Pages(k, q)))
  {
    ListedIsCanonical(areas, m.free, k, q);
    HeadIn(k, q);
    ListsUnlink(areas, m.free, k, q);
    RecordsUnlink(pages, areas, m, m.free - Pages(k, q), k, Head(k, q));
  }

  // ----- Linking -----

  lemma {:induction false} ListsLink(areas: seq<seq<nat>>, rest: set<nat>, k: nat, q: nat, list: seq<nat>)
    requires Lists(areas, rest) && Pages(k, q) !! rest && Canonical(rest + Pages(k, q), k, q)
    requires list == [Head(k, q)] + areas[k] || list == areas[k] + [Head(k, q)]
    ensures Lists(areas[k := list], rest + Pages(k, q))
  {
    var x, free := Head(k, q), rest + Pages(k, q);
    var areas' := areas[k := list];
    forall j: nat, y: nat | j < |areas| ensures y in areas'[j] <==> IsFreeHead(free, j, y) {
      HeadsLink(rest, free, k, q, j, y);
    }
    HeadsLink(rest, free, k, q, k, x);
    assert x !in areas[k];
  }

  lemma {:induction false} HeadsLink(rest: set<nat>, free: set<nat>, k: nat, q: nat, j: nat, y: nat)
    requires Pages(k, q) !! rest && free == rest + Pages(k, q) && Canonical(free, k, q)
    ensures IsFreeHead(free, j, y) <==> IsFreeHead(rest, j, y) || (j == k && y == Head(k, q))
    ensures !IsFreeHead(rest, k, Head(k, q))
  {
    assert free - Pages(k, q) == rest;
    HeadsUnlink(free, rest, k, q, j, y);
    HeadsUnlink(free, rest, k, q, k, Head(k, q));
  }

  lemma {:induction false} RecordsLink(pages: seq<Page>, areas: seq<seq<nat>>, m: Memory, free': set<nat>,
      k: nat, x: nat, list: seq<nat>)
    requires Records(pages, areas, m) && k <= MAX_ORDER
    requires m.lo <= x < m.hi && pages[x] == BLANK && x !in m.alloc
    requires list == [x] + areas[k] || list == areas[k] + [x]
    ensures Records(pages[x := Page(0, k, true)], areas[k := list], m.(free := free'))
  {
    assert forall y :: y in list <==> y == x || y in areas[k];
  }

  /** A block of order `k` that cannot be joined with its buddy. */
  ghost predicate Unjoinable(free: set<nat>, k: nat, q: nat) {
    k == MAX_ORDER || !(Pages(k, Buddy(q)) <= free)
  }

  lemma {:induction false} Link(pages: seq<Page>, areas: seq<seq<nat>>, m: Memory, k: nat, q: nat, list: seq<nat>)
    requires Tidy(pages, areas, m) && Spare(Pages(k, q), m) && k <= MAX_ORDER
    requires Unjoinable(m.free, k, q)
    requires list == [Head(k, q)] + areas[k] || list == areas[k] + [Head(k, q)]
    ensures Head(k, q) < |pages|
    ensures Tidy(pages[Head(k, q) := Page(0, k, true)], areas[k := list], m.(free := m.free + Pages(k, q)))
  {
    HeadIn(k, q);
    CanonicalNew(m.free, k, q);
    ListsLink(areas, m.free, k, q, list);
    SpareIsBlank(pages, areas, m, Pages(k, q), Head(k, q));
    RecordsLink(pages, areas, m, m.free + Pages(k, q), k, Head(k, q), list);
  }

  /** A page that nothing accounts for has a blank record. */
  lemma {:induction false} SpareIsBlank(pages: seq<Page>, areas: seq<seq<nat>>, m: Memory, s: set<nat>, x: nat)
    requires Tidy(pages, areas, m) && Spare(s, m) && x in s
    ensures m.lo <= x < m.hi && pages[x] == BLANK && x !in m.alloc
  {
    if pages[x].linked {
      var k := pages[x].order;
      assert IsFreeHead(m.free, k, x);
      var q :| Head(k, q) == x && Canonical(m.free, k, q);
      HeadIn(k, q);
    }
    if pages[x].refcount > 0 {
      var g := m.alloc[x];
      HeadIn(g.k, g.q);
    }
  }

  // ----- Allocated and unmanaged pages -----

  function With(m: Memory, p: nat, g: Grant): Memory { m.(alloc := m.alloc[p := g]) }

  function Less(m: Memory, p: nat): Memory { m.(alloc := m.alloc - {p}) }

  lemma RecordsGrant(pages: seq<Page>, areas: seq<seq<nat>>, m: Memory, p: nat, g: Grant)
    requires Records(pages, areas, m) && m.lo <= p < m.hi && pages[p] == BLANK && g.refs > 0 && p !in m.raw
    ensures Records(pages[p := Page(g.refs, g.k, false)], areas, With(m, p, g))
  {
  }

  /** A spare block becomes an allocated one. */
  lemma {:induction false} Allot(pages: seq<Page>, areas: seq<seq<nat>>, m: Memory, p: nat, g: Grant)
    requires Tidy(pages, areas, m) && Spare(PagesOf(g), m)
    requires g.k <= MAX_ORDER && 0 < g.refs < U32 && p == Head(g.k, g.q)
    ensures p < |pages| && Tidy(pages[p := Page(g.refs, g.k, false)], areas, With(m, p, g))
  {
    HeadIn(g.k, g.q);
    SpareIsBlank(pages, areas, m, PagesOf(g), p);
    RecordsGrant(pages, areas, m, p, g);
  }

  lemma RecordsRevoke(pages: seq<Page>, areas: seq<seq<nat>>, m: Memory, p: nat)
    requires Records(pages, areas, m) && p in m.alloc && p !in m.raw
    ensures Records(pages[p := BLANK], areas, Less(m, p))
  {
  }

  /** An allocated block becomes a spare one. */
  lemma {:induction false} Revoke(pages: seq<Page>, areas: seq<seq<nat>>, m: Memory, p: nat)
    requires Tidy(pages, areas, m) && p in m.alloc
    ensures p < |pages| && Tidy(pages[p := BLANK], areas, Less(m, p)) && Spare(PagesOf(m.alloc[p]), Less(m, p))
  {
    HeadIn(m.alloc[p].k, m.alloc[p].q);
    RecordsRevoke(pages, areas, m, p);
  }

  /** The number of references to an allocated block changes. */
  lemma {:induction false} Recount(pages: seq<Page>, areas: seq<seq<nat>>, m: Memory, p: nat, refs: nat)
    requires Tidy(pages, areas, m) && p in m.alloc && 0 < refs < U32
    ensures p < |pages| && Tidy(pages[p := pages[p].(refcount := refs)], areas, With(m, p, m.alloc[p].(refs := refs)))
  {
    var g := m.alloc[p].(refs := refs);
    Revoke(pages, areas, m, p);
    Allot(pages[p := BLANK], areas, Less(m, p), p, g);
    assert With(Less(m, p), p, g) == With(m, p, g);
    assert pages[p := BLANK][p := Page(refs, g.k, false)] == pages[p := pages[p].(refcount := refs)];
  }

  lemma RecordsUnraw(pages: seq<Page>, areas: seq<seq<nat>>, m: Memory, x: nat)
    requires Records(pages, areas, m) && x in m.raw && x !in m.alloc
    ensures Records(pages[x := BLANK], areas, m.(raw := m.raw - {x}))
  {
  }

  /** An unmanaged page becomes a spare one. */
  lemma {:induction false} Unraw(pages: seq<Page>, areas: seq<seq<nat>>, m: Memory, x: nat)
    requires Tidy(pages, areas, m) && x in m.raw
    ensures x < |pages| && Tidy(pages[x := BLANK], areas, m.(raw := m.raw - {x})) && Spare({x}, m.(raw := m.raw - {x}))
  {
    forall h | h in m.alloc ensures h in PagesOf(m.alloc[h]) { HeadIn(m.alloc[h].k, m.alloc[h].q); }
    RecordsUnraw(pages, areas, m, x);
  }

  // ----- Accounting for every page -----

  ghost predicate Covered(m: Memory, p: nat) {
    p in m.free || p in m.raw || exists h :: h in m.alloc && p in PagesOf(m.alloc[h])
  }

  lemma {:induction false} CompleteAllot(m: Memory, m': Memory, p: nat, g: Grant)
    requires Complete(m) && p !in m.alloc
    requires m' == With(m, p, g).(free := m.free - PagesOf(g))
    ensures Complete(m')
  {
    forall x | m.lo <= x < m.hi ensures Covered(m', x) {
      assert Covered(m, x);
      if x in PagesOf(g) {
        assert p in m'.alloc && x in PagesOf(m'.alloc[p]);
      } else if x !in m.free && x !in m.raw {
        var h :| h in m.alloc && x in PagesOf(m.alloc[h]);
        assert h in m'.alloc && x in PagesOf(m'.alloc[h]);
      }
    }
  }

  lemma {:induction false} CompleteRevoke(m: Memory, m': Memory, p: nat)
    requires Complete(m) && p in m.alloc
    requires m' == Less(m, p).(free := m.free + PagesOf(m.alloc[p]))
    ensures Complete(m')
  {
    forall x | m.lo <= x < m.hi ensures Covered(m', x) {
      assert Covered(m, x);
      if x !in m'.free && x !in m.raw {
        var h :| h in m.alloc && x in PagesOf(m.alloc[h]);
        assert h in m'.alloc && x in PagesOf(m'.alloc[h]);
      }
    }
  }

  lemma {:induction false} CompleteRecount(m: Memory, p: nat, refs: nat)
    requires Complete(m) && p in m.alloc
    ensures Complete(With(m, p, m.alloc[p].(refs := refs)))
  {
    var m' := With(m, p, m.alloc[p].(refs := refs));
    forall x | m.lo <= x < m.hi ensures Covered(m', x) {
      assert Covered(m, x);
      if x !in m.free && x !in m.raw {
        var h :| h in m.alloc && x in PagesOf(m.alloc[h]);
        assert h in m'.alloc && x in PagesOf(m'.alloc[h]);
      }
    }
  }
}
