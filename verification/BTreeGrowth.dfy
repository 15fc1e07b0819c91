/**
 One step of the way up in an insertion: entering a key and the subtree right of it in the last
 node of the path, with or without splitting it.
 */
module BTreeGrowth {
  import BTreeNode
  import opened BTree
  import opened BTreeHeap

  ghost function Grown<V>(t: Tree<V>, i: nat, k: int, v: V, b: Tree<V>): Tree<V>
    requires Sound(t) && i <= |t.keys|
  {
    WithSlots(t.addr, t.height, BTreeNode.Inserted(SlotsOf(t), i, k, v, b))
  }

  ghost function LeftHalf<V>(t: Tree<V>, m: nat): Tree<V>
    requires Sound(t) && m < |t.keys|
  {
    WithSlots(t.addr, t.height, BTreeNode.LeftPart(SlotsOf(t), m))
  }

  ghost function RightHalf<V>(t: Tree<V>, m: nat, addr: nat): Tree<V>
    requires Sound(t) && m < |t.keys|
  {
    WithSlots(addr, t.height, BTreeNode.RightPart(SlotsOf(t), m))
  }

  // ----- Memory -----

  function SlotsIn<V>(rec: Rec<V>): BTreeNode.Slots<V, nat> { BTreeNode.Slots(rec.keys, rec.vals, rec.kids) }

  function RecWith<V>(height: nat, s: BTreeNode.Slots<V, nat>): Rec<V> { Rec(height, s.keys, s.vals, s.kids) }

  lemma {:induction false} RecGrown<V>(t: Tree<V>, i: nat, k: int, v: V, b: Tree<V>)
    requires Sound(t) && i <= |t.keys|
    ensures RecOf(Grown(t, i, k, v, b)) == RecWith(t.height, BTreeNode.Inserted(SlotsIn(RecOf(t)), i, k, v, Root(b)))
  {
    assert Roots(BTreeNode.Gap(t.kids, i + 1, b)) == BTreeNode.Gap(Roots(t.kids), i + 1, Root(b));
  }

  lemma {:induction false} RecHalves<V>(t: Tree<V>, m: nat, addr: nat)
    requires Sound(t) && m < |t.keys|
    ensures RecOf(LeftHalf(t, m)) == RecWith(t.height, BTreeNode.LeftPart(SlotsIn(RecOf(t)), m))
    ensures RecOf(RightHalf(t, m, addr)) == RecWith(t.height, BTreeNode.RightPart(SlotsIn(RecOf(t)), m))
  {
    assert Roots(t.kids[..m + 1]) == Roots(t.kids)[..m + 1];
    assert Roots(t.kids[m + 1..]) == Roots(t.kids)[m + 1..];
  }

  ghost predicate Owned(addrs: multiset<nat>, next: nat) {
    next > 0 && forall a :: a in addrs ==> addrs[a] == 1 && 0 < a < next
  }

  /** The memory during the way up: the tree with `l` at the end of the path, and apart from it `r`. */
  ghost predicate Pending<V>(heap: Heap<V>, next: nat, fs: seq<Frame<V>>, l: Tree<V>, r: Tree<V>) {
    Path(fs) && Stored(heap, Plug(fs, l)) && Stored(heap, r) && Owned(FrameAddrs(fs) + Addrs(l) + Addrs(r), next)
  }

  lemma {:induction false} StoredNode<V>(heap: Heap<V>, heap': Heap<V>, t: Tree<V>)
    requires Sound(t) && t.addr > 0 && t.addr in heap' && heap'[t.addr] == RecOf(t) && StoredAll(heap, t.kids)
    requires forall a :: a in Sum(t.kids) ==> a in heap' && a in heap && heap'[a] == heap[a]
    ensures Stored(heap', t)
  {
    forall i | 0 <= i < |t.kids| ensures Stored(heap', t.kids[i]) {
      SumAt(t.kids, i);
      StoredAgree(heap, heap', t.kids[i]);
    }
  }

  /** Every address of a stored tree is in the memory. */
  lemma {:induction false} StoredHas<V>(heap: Heap<V>, t: Tree<V>)
    requires Stored(heap, t)
    ensures forall a :: a in Addrs(t) ==> a in heap
    decreases t
  {
    if t.Tree? { StoredHasAll(heap, t.kids); }
  }

  lemma {:induction false} StoredHasAll<V>(heap: Heap<V>, ts: seq<Tree<V>>)
    requires StoredAll(heap, ts)
    ensures forall a :: a in Sum(ts) ==> a in heap
    decreases ts
  {
    if ts != [] {
      assert Stored(heap, ts[0]);
      StoredHas(heap, ts[0]);
      assert forall i :: 0 <= i < |ts[1..]| ==> ts[1..][i] == ts[i + 1];
      StoredHasAll(heap, ts[1..]);
    }
  }

  lemma {:induction false} AddrsGrown<V>(t: Tree<V>, i: nat, k: int, v: V, b: Tree<V>)
    requires Sound(t) && i <= |t.keys|
    ensures Sum(Grown(t, i, k, v, b).kids) == Sum(t.kids) + Addrs(b)
  {
    SumGap(t.kids, i + 1, b);
  }

  lemma {:induction false} AddrsHalves<V>(t: Tree<V>, m: nat, addr: nat)
    requires Sound(t) && m < |t.keys|
    ensures Sum(LeftHalf(t, m).kids) + Sum(RightHalf(t, m, addr).kids) == Sum(t.kids)
  {
    assert t.kids == t.kids[..m + 1] + t.kids[m + 1..];
    SumJoin(t.kids[..m + 1], t.kids[m + 1..]);
  }

  /** What the last node of a path, with `l` below it, tells about the memory. */
  lemma {:induction false} LastNode<V>(heap: Heap<V>, next: nat, up: seq<Frame<V>>, f: Frame<V>, l: Tree<V>, r: Tree<V>)
    requires Path(up) && Framed(f) && Pending(heap, next, up + [f], l, r)
    ensures Stored(heap, Plug(up, Fill(f, l)))
    ensures Stored(heap, Fill(f, l))
    ensures Stored(heap, r)
    ensures Owned(FrameAddrs(up) + multiset{f.node.addr} + (Sum(Fill(f, l).kids) + Addrs(r)), next)
  {
    assert (up + [f])[..|up|] == up;
    StoredSub(heap, up, Fill(f, l));
    AddrsFill(f, l);
    Rearrange(FrameAddrs(up), multiset{f.node.addr}, Sum(f.node.kids[..f.i]), Sum(f.node.kids[f.i + 1..]), Addrs(l),
      Addrs(r));
  }

  lemma Rearrange(a: multiset<nat>, x: multiset<nat>, b: multiset<nat>, c: multiset<nat>, l: multiset<nat>,
      r: multiset<nat>)
    ensures (a + x + b + c) + l + r == a + x + ((b + c + l) + r)
  {
  }

  /** Replacing the last node of the path. */
  lemma {:induction false} Replace<V>(heap: Heap<V>, heap': Heap<V>, up: seq<Frame<V>>, t: Tree<V>, u: Tree<V>)
    requires Path(up) && Stored(heap, Plug(up, t)) && t.Tree? && u.Tree? && u.addr == t.addr
    requires Stored(heap', u) && Agree(heap, heap', FrameAddrs(up))
    ensures Stored(heap', Plug(up, u))
  {
    StoredPlug(heap, heap', up, t, u);
  }

  lemma {:induction false} PathAddrs<V>(heap: Heap<V>, fs: seq<Frame<V>>, c: Tree<V>)
    requires Path(fs) && Stored(heap, Plug(fs, c))
    ensures forall a :: a in FrameAddrs(fs) ==> a in heap
  {
    StoredHas(heap, Plug(fs, c));
    PlugAddrs(fs, c);
  }

  /** Entering the key without a split completes the tree in memory. */
  lemma {:induction false} Fit<V>(heap: Heap<V>, next: nat, up: seq<Frame<V>>, t: Tree<V>, r: Tree<V>, i: nat,
      k: int, v: V)
    requires Path(up) && Sound(t) && i <= |t.keys|
    requires Stored(heap, Plug(up, t)) && Stored(heap, t) && Stored(heap, r)
    requires Owned(FrameAddrs(up) + multiset{t.addr} + (Sum(t.kids) + Addrs(r)), next)
    ensures var g := Grown(t, i, k, v, r); var heap' := heap[t.addr := RecOf(g)];
      Stored(heap', Plug(up, g)) && Owned(Addrs(Plug(up, g)), next)
  {
    var g := Grown(t, i, k, v, r);
    var heap' := heap[t.addr := RecOf(g)];
    AddrsGrown(t, i, k, v, r);
    GrownKids(heap, t, i, k, v, r);
    StoredHasAll(heap, g.kids);
    NotTwice(FrameAddrs(up), t.addr, Sum(g.kids), next);
    StoredNode(heap, heap', g);
    PathAddrs(heap, up, t);
    Replace(heap, heap', up, t, g);
    PlugAddrs(up, g);
    assert FrameAddrs(up) + (multiset{t.addr} + Sum(g.kids)) == FrameAddrs(up) + multiset{t.addr} + Sum(g.kids);
  }

  lemma {:induction false} NotTwice(a: multiset<nat>, x: nat, b: multiset<nat>, next: nat)
    requires Owned(a + multiset{x} + b, next)
    ensures x !in a && x !in b && 0 < x < next && next !in a && next !in b
  {
    var all := a + multiset{x} + b;
    assert all[x] == a[x] + 1 + b[x] && all[next] == a[next] + multiset{x}[next] + b[next];
    assert x in all && next !in all;
  }

  lemma GrownKids<V>(heap: Heap<V>, t: Tree<V>, i: nat, k: int, v: V, r: Tree<V>)
    requires Sound(t) && i <= |t.keys| && StoredAll(heap, t.kids) && Stored(heap, r)
    ensures StoredAll(heap, Grown(t, i, k, v, r).kids) && Sound(Grown(t, i, k, v, r))
  {
  }

  /** Splitting leaves the left half in the tree and the right half apart from it. */
  lemma {:induction false} Split<V>(heap: Heap<V>, next: nat, up: seq<Frame<V>>, t: Tree<V>, r: Tree<V>, i: nat,
      k: int, v: V, m: nat)
    requires Path(up) && Sound(t) && i <= |t.keys| && m <= |t.keys|
    requires Stored(heap, Plug(up, t)) && Stored(heap, t) && Stored(heap, r)
    requires Owned(FrameAddrs(up) + multiset{t.addr} + (Sum(t.kids) + Addrs(r)), next)
    ensures var g := Grown(t, i, k, v, r);
      var l', r' := LeftHalf(g, m), RightHalf(g, m, next);
      Pending(heap[t.addr := RecOf(l')][next := RecOf(r')], next + 1, up, l', r')
  {
    var g := Grown(t, i, k, v, r);
    var l', r' := LeftHalf(g, m), RightHalf(g, m, next);
    var heap' := heap[t.addr := RecOf(l')][next := RecOf(r')];
    AddrsGrown(t, i, k, v, r);
    GrownKids(heap, t, i, k, v, r);
    AddrsHalves(g, m, next);
    NotTwice(FrameAddrs(up), t.addr, Sum(g.kids), next);
    PathAddrs(heap, up, t);
    SplitStored(heap, heap', g, m, next);
    Replace(heap, heap', up, t, l');
    SplitOwned(FrameAddrs(up), t.addr, Sum(l'.kids), Sum(r'.kids), next);
  }

  lemma {:induction false} SplitStored<V>(heap: Heap<V>, heap': Heap<V>, g: Tree<V>, m: nat, next: nat)
    requires Sound(g) && m < |g.keys| && g.addr > 0 && next > 0 && g.addr != next && StoredAll(heap, g.kids)
    requires heap' == heap[g.addr := RecOf(LeftHalf(g, m))][next := RecOf(RightHalf(g, m, next))]
    requires g.addr !in Sum(g.kids) && next !in Sum(g.kids)
    ensures Stored(heap', LeftHalf(g, m))
    ensures Stored(heap', RightHalf(g, m, next))
  {
    var l, r := LeftHalf(g, m), RightHalf(g, m, next);
    StoredHasAll(heap, g.kids);
    assert Agree(heap, heap', Sum(g.kids));
    AddrsHalves(g, m, next);
    StoredHalf(heap, heap', l, Sum(l.kids), Sum(r.kids));
    StoredHalf(heap, heap', r, Sum(r.kids), Sum(l.kids));
  }

  lemma {:induction false} StoredHalf<V>(heap: Heap<V>, heap': Heap<V>, t: Tree<V>, a: multiset<nat>, b: multiset<nat>)
    requires Sound(t) && t.addr > 0 && t.addr in heap' && heap'[t.addr] == RecOf(t) && StoredAll(heap, t.kids)
    requires a == Sum(t.kids) && Agree(heap, heap', a + b)
    ensures Stored(heap', t)
  {
    assert forall x :: x in a ==> x in a + b;
    StoredNode(heap, heap', t);
  }

  lemma {:induction false} SplitOwned(a: multiset<nat>, x: nat, b: multiset<nat>, c: multiset<nat>, next: nat)
    requires Owned(a + multiset{x} + (b + c), next)
    ensures Owned(a + (multiset{x} + b) + (multiset{next} + c), next + 1)
  {
    var old', new' := a + multiset{x} + (b + c), a + (multiset{x} + b) + (multiset{next} + c);
    assert next !in old';
    forall y | y in new' ensures new'[y] == 1 && 0 < y < next + 1 {
      assert new'[y] == old'[y] + multiset{next}[y];
    }
  }

  // ----- Entries -----

  ghost predicate Spread<V>(fs: seq<Frame<V>>, l: Tree<V>, k: int, v: V, r: Tree<V>, entries: seq<Entry<V>>)
    requires Path(fs)
  {
    entries == Pre(fs) + (Flat(l) + [Entry(k, v)] + Flat(r)) + Post(fs)
  }

  lemma {:induction false} SpreadGrown<V>(up: seq<Frame<V>>, f: Frame<V>, l: Tree<V>, k: int, v: V, r: Tree<V>,
      entries: seq<Entry<V>>)
    requires Path(up) && Framed(f) && Path(up + [f]) && Spread(up + [f], l, k, v, r, entries)
    ensures entries == Pre(up) + Flat(Grown(Fill(f, l), f.i, k, v, r)) + Post(up)
  {
    assert (up + [f])[..|up|] == up;
    FlatInserted(Fill(f, l), f.i, k, v, r);
    FlatWithKid(f.node, f.i, l);
    Flatten(Pre(up), Before(f.node, f.i), Flat(l), Entry(k, v), Flat(r), After(f.node, f.i), Post(up));
  }

  lemma Flatten<T>(a: seq<T>, b: seq<T>, c: seq<T>, x: T, d: seq<T>, e: seq<T>, g: seq<T>)
    ensures (a + b) + (c + [x] + d) + (e + g) == a + (b + c + [x] + d + e) + g
  {
  }

  lemma {:induction false} FitEntries<V>(up: seq<Frame<V>>, f: Frame<V>, l: Tree<V>, k: int, v: V, r: Tree<V>,
      entries: seq<Entry<V>>)
    requires Path(up) && Framed(f) && Path(up + [f]) && Spread(up + [f], l, k, v, r, entries)
    ensures Flat(Plug(up, Grown(Fill(f, l), f.i, k, v, r))) == entries
  {
    SpreadGrown(up, f, l, k, v, r, entries);
    PlugFlat(up, Grown(Fill(f, l), f.i, k, v, r));
  }

  lemma {:induction false} SplitEntries<V>(up: seq<Frame<V>>, f: Frame<V>, l: Tree<V>, k: int, v: V, r: Tree<V>,
      entries: seq<Entry<V>>, m: nat, addr: nat)
    requires Path(up) && Framed(f) && Path(up + [f]) && Spread(up + [f], l, k, v, r, entries) && m <= |f.node.keys|
    ensures var g := Grown(Fill(f, l), f.i, k, v, r);
      Spread(up, LeftHalf(g, m), g.keys[m], g.vals[m], RightHalf(g, m, addr), entries)
  {
    var g := Grown(Fill(f, l), f.i, k, v, r);
    SpreadGrown(up, f, l, k, v, r, entries);
    FlatCut(g, m, g.addr, addr, g.height);
  }

  /** The key that goes up belongs where the path leaves the node. */
  lemma {:induction false} SlotOnPath<V>(up: seq<Frame<V>>, f: Frame<V>, l: Tree<V>, k: int, v: V, r: Tree<V>,
      entries: seq<Entry<V>>)
    requires Path(up) && Framed(f) && Path(up + [f]) && Spread(up + [f], l, k, v, r, entries) && Ascending(entries)
    ensures BTreeNode.SlotFor(f.node.keys, k) == f.i
  {
    assert (up + [f])[..|up|] == up;
    var t := f.node;
    var xs, ys := Pre(up) + Before(t, f.i) + Flat(l), Flat(r) + (After(t, f.i) + Post(up));
    Middle(Pre(up) + Before(t, f.i), Flat(l), Entry(k, v), Flat(r), After(t, f.i) + Post(up));
    AscendingSplit(xs, k, v, ys);
    BoundsCut(Pre(up) + Before(t, f.i), Flat(l), k);
    BoundsCut(Pre(up), Before(t, f.i), k);
    BoundsCut(Flat(r), After(t, f.i) + Post(up), k);
    BoundsCut(After(t, f.i), Post(up), k);
    KeysBefore(t, f.i, k);
    assert f.i < |t.keys| ==> After(t, f.i)[0].key == t.keys[f.i];
    BTreeNode.SlotUnique(t.keys, k, BTreeNode.SlotFor(t.keys, k), f.i);
  }

  lemma Middle<T>(a: seq<T>, b: seq<T>, x: T, c: seq<T>, d: seq<T>)
    ensures a + (b + [x] + c) + d == (a + b) + [x] + (c + d)
  {
  }

  lemma {:induction false} BoundsCut<V>(xs: seq<Entry<V>>, ys: seq<Entry<V>>, k: int)
    ensures AllBelow(xs + ys, k) ==> AllBelow(xs, k) && AllBelow(ys, k)
    ensures AllAbove(xs + ys, k) ==> AllAbove(xs, k) && AllAbove(ys, k)
  {
    assert forall j :: 0 <= j < |xs| ==> xs[j] == (xs + ys)[j];
    assert forall j :: 0 <= j < |ys| ==> ys[j] == (xs + ys)[|xs| + j];
  }

  lemma {:induction false} KeysBefore<V>(t: Tree<V>, i: nat, k: int)
    requires Sound(t) && i <= |t.keys| && AllBelow(Before(t, i), k)
    ensures forall j :: 0 <= j < i ==> t.keys[j] < k
    decreases i
  {
    if i > 0 {
      var xs, ys := Before(t, i - 1), Flat(t.kids[i - 1]);
      BoundsCut(xs, ys + [Entry(t.keys[i - 1], t.vals[i - 1])], k);
      assert xs + (ys + [Entry(t.keys[i - 1], t.vals[i - 1])]) == Before(t, i);
      KeysBefore(t, i - 1, k);
      assert Before(t, i)[|Before(t, i)| - 1].key == t.keys[i - 1];
    }
  }

  // ----- Shape -----

  lemma {:induction false} FitBalanced<V>(up: seq<Frame<V>>, f: Frame<V>, l: Tree<V>, k: int, v: V, r: Tree<V>,
      order: nat, h: nat)
    requires Framed(f) && PathOk(up + [f], order, h) && |f.node.keys| < order - 1 && Path(up)
    requires Balanced(l, order, h - |up| - 1, false) && Balanced(r, order, h - |up| - 1, false)
    ensures Balanced(Plug(up, Grown(Fill(f, l), f.i, k, v, r)), order, h, true)
  {
    assert (up + [f])[|up|] == f && FrameOk(f, order, h - |up|, |up| == 0);
    assert forall j :: 0 <= j < |up| ==> (up + [f])[j] == up[j];
    var g := Grown(Fill(f, l), f.i, k, v, r);
    assert forall j :: 0 <= j < |g.kids| ==> Balanced(g.kids[j], order, h - |up| - 1, false);
    PlugBalanced(up, g, order, h);
  }

  lemma {:induction false} SplitBalanced<V>(up: seq<Frame<V>>, f: Frame<V>, l: Tree<V>, k: int, v: V,
      r: Tree<V>, order: nat, h: nat, addr: nat)
    requires Framed(f) && PathOk(up + [f], order, h) && |f.node.keys| == order - 1 && addr > 0 && order >= 3
    requires Balanced(l, order, h - |up| - 1, false) && Balanced(r, order, h - |up| - 1, false)
    ensures var g := Grown(Fill(f, l), f.i, k, v, r);
      Balanced(LeftHalf(g, order / 2), order, h - |up|, false)
        && Balanced(RightHalf(g, order / 2, addr), order, h - |up|, false)
  {
    assert (up + [f])[|up|] == f && FrameOk(f, order, h - |up|, |up| == 0);
    var g := Grown(Fill(f, l), f.i, k, v, r);
    assert forall j :: 0 <= j < |g.kids| ==> Balanced(g.kids[j], order, h - |up| - 1, false);
  }
}
