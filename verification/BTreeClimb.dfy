/**
 Paths through a B-tree: how a search goes down, and how an insertion comes back up.
 */
module BTreeClimb {
  import BTreeNode
  import opened BTree
  import opened BTreeHeap
  import opened BTreeGrowth

  /** A place that holds the address of a node: the root pointer or a child of a node. */
  datatype Place = Top | Kid(parent: nat, i: nat)

  function Height<V>(t: Tree<V>): nat { if t.Nil? then 0 else t.height }

  /** The place that holds the address of the subtree at the end of a path. */
  ghost function PlaceOf<V>(fs: seq<Frame<V>>): Place
    requires Path(fs)
  {
    if fs == [] then Top else Kid(fs[|fs| - 1].node.addr, fs[|fs| - 1].i)
  }

  /** The array of places follows the path. */
  ghost predicate Recorded<V>(path: seq<Place>, fs: seq<Frame<V>>) {
    Path(fs) && |fs| < |path| && forall j :: 0 <= j <= |fs| ==> path[j] == PlaceOf(fs[..j])
  }

  /** The indices at which the path left its nodes. */
  ghost predicate Noted<V>(indices: seq<nat>, fs: seq<Frame<V>>) {
    |fs| <= |indices| && forall j :: 0 <= j < |fs| ==> indices[j] == fs[j].i
  }

  lemma {:induction false} NotedStep<V>(indices: seq<nat>, fs: seq<Frame<V>>, f: Frame<V>)
    requires Noted(indices, fs) && |fs| < |indices|
    ensures Noted(indices[|fs| := f.i], fs + [f])
  {
  }

  lemma {:induction false} RecordedStep<V>(path: seq<Place>, fs: seq<Frame<V>>, f: Frame<V>)
    requires Recorded(path, fs) && Framed(f) && |fs| + 1 < |path|
    ensures Recorded(path[|fs| + 1 := Kid(f.node.addr, f.i)], fs + [f])
  {
    var fs', path' := fs + [f], path[|fs| + 1 := Kid(f.node.addr, f.i)];
    forall j | 0 <= j <= |fs'| ensures path'[j] == PlaceOf(fs'[..j]) {
      if j <= |fs| {
        assert fs'[..j] == fs[..j];
      } else {
        assert fs'[..j] == fs';
      }
    }
  }

  lemma {:induction false} StepOk<V>(fs: seq<Frame<V>>, t: Tree<V>, i: nat, order: nat, h: nat)
    requires |fs| <= h && PathOk(fs, order, h) && Balanced(t, order, h - |fs|, |fs| == 0) && t.Tree? && i < |t.kids|
    ensures |fs| < h
    ensures PathOk(fs + [Frame(t, i)], order, h)
    ensures Balanced(t.kids[i], order, h - |fs| - 1, false)
  {
    var fs' := fs + [Frame(t, i)];
    assert forall j :: 0 <= j < |fs| ==> fs'[j] == fs[j];
  }

  /** The path leads to the empty place where `k` belongs. */
  ghost predicate Reached<V>(tree: Tree<V>, order: nat, k: int, fs: seq<Frame<V>>) {
    && Path(fs) && Plug(fs, Nil) == tree && PathOk(fs, order, Height(tree))
    && AllBelow(Pre(fs), k) && AllAbove(Post(fs), k)
  }

  ghost predicate AllFull<V>(fs: seq<Frame<V>>, from: nat, order: nat) {
    forall j :: from <= j < |fs| ==> fs[j].node.Tree? && |fs[j].node.keys| == order - 1
  }

  lemma AllFullStep<V>(fs: seq<Frame<V>>, n: nat, order: nat)
    requires 0 < n <= |fs| && AllFull(fs, n, order) && fs[n - 1].node.Tree?
    ensures |fs[n - 1].node.keys| == order - 1 ==> AllFull(fs, n - 1, order)
    ensures |fs[n - 1].node.keys| != order - 1 ==> !AllFull(fs, 0, order)
  {
  }

  lemma {:induction false} Target<V>(tree: Tree<V>, order: nat, k: int, v: V, fs: seq<Frame<V>>)
    requires Reached(tree, order, k, fs) && Ascending(Flat(tree))
    ensures Ascending(Pre(fs) + [Entry(k, v)] + Post(fs))
    ensures MapOf(Pre(fs) + [Entry(k, v)] + Post(fs)) == MapOf(Flat(tree))[k := v]
  {
    NotThere(fs, k);
    AscendingJoin(Pre(fs), k, v, Post(fs));
    MapOfInsert(Pre(fs), k, v, Post(fs));
  }

  /** The state on the way up: the memory holds the tree with `l` at the end of the path and, apart
      from it, `r`; all entries in order are those of the path, `l`, the key to enter and `r`. */
  ghost predicate Climbing<V>(heap: Heap<V>, next: nat, root: nat, fs: seq<Frame<V>>, l: Tree<V>, k: int, v: V,
      r: Tree<V>, entries: seq<Entry<V>>, order: nat, h: nat) {
    && 3 <= order && |fs| <= h && Pending(heap, next, fs, l, r) && root == Root(Plug(fs, l))
    && Spread(fs, l, k, v, r, entries) && Ascending(entries) && PathOk(fs, order, h)
    && Balanced(l, order, h - |fs|, false) && Balanced(r, order, h - |fs|, false)
  }

  /** A tree of height `h` with the given entries is in memory. */
  ghost predicate Standing<V>(heap: Heap<V>, next: nat, root: nat, tree: Tree<V>, entries: seq<Entry<V>>,
      order: nat, h: nat) {
    && 3 <= order && root == Root(tree) && Stored(heap, tree) && Owned(Addrs(tree), next)
    && Balanced(tree, order, h, true) && h == Height(tree) && Flat(tree) == entries && Ascending(entries)
  }

  /** At first nothing hangs left or right of the new key. */
  lemma {:induction false} Begin<V>(heap: Heap<V>, next: nat, root: nat, tree: Tree<V>, order: nat, k: int,
      v: V, fs: seq<Frame<V>>)
    requires Standing(heap, next, root, tree, Flat(tree), order, Height(tree)) && Reached(tree, order, k, fs)
      && |fs| == Height(tree)
    ensures Climbing(heap, next, root, fs, Nil, k, v, Nil, Pre(fs) + [Entry(k, v)] + Post(fs), order, |fs|)
    ensures MapOf(Pre(fs) + [Entry(k, v)] + Post(fs)) == MapOf(Flat(tree))[k := v]
  {
    var none: Tree<V> := Nil;
    PlugAddrs(fs, none);
    assert FrameAddrs(fs) + Addrs(none) + Addrs(none) == FrameAddrs(fs) + Addrs(none);
    assert Flat(none) + [Entry(k, v)] + Flat(none) == [Entry(k, v)];
    Target(tree, order, k, v, fs);
  }

  lemma {:induction false} ClimbNode<V>(heap: Heap<V>, next: nat, root: nat, up: seq<Frame<V>>, f: Frame<V>,
      l: Tree<V>, k: int, v: V, r: Tree<V>, entries: seq<Entry<V>>, order: nat, h: nat)
    requires Climbing(heap, next, root, up + [f], l, k, v, r, entries, order, h)
    ensures next > 0 && order >= 3 && Path(up) && Framed(f) && f.node.addr > 0 && f.node.addr in heap
      && heap[f.node.addr] == RecOf(Fill(f, l))
    ensures Stored(heap, Plug(up, Fill(f, l)))
    ensures root == Root(Plug(up, Fill(f, l))) && |f.node.keys| <= order - 1
    ensures BTreeNode.SlotFor(f.node.keys, k) == f.i
    ensures RecOf(Grown(Fill(f, l), f.i, k, v, r)) ==
      RecWith(f.node.height, BTreeNode.Inserted(SlotsIn(RecOf(Fill(f, l))), f.i, k, v, Root(r)))
  {
    PathSnoc(up, f);
    LastNode(heap, next, up, f, l, r);
    PathGrows(up, f, l);
    SlotOnPath(up, f, l, k, v, r, entries);
    RecGrown(Fill(f, l), f.i, k, v, r);
    assert FrameOk((up + [f])[|up|], order, h - |up|, |up| == 0);
  }

  lemma Prefix<T>(s: seq<T>, n: nat)
    requires 0 < n <= |s|
    ensures s[..n] == s[..n - 1] + [s[n - 1]]
  {
  }

  lemma {:induction false} PathSnoc<V>(up: seq<Frame<V>>, f: Frame<V>)
    requires Path(up + [f])
    ensures Path(up) && Framed(f)
  {
    assert (up + [f])[|up|] == f;
    assert forall j :: 0 <= j < |up| ==> (up + [f])[j] == up[j];
  }

  lemma {:induction false} ClimbFit<V>(heap: Heap<V>, next: nat, root: nat, up: seq<Frame<V>>, f: Frame<V>,
      l: Tree<V>, k: int, v: V, r: Tree<V>, entries: seq<Entry<V>>, order: nat, h: nat)
    requires Climbing(heap, next, root, up + [f], l, k, v, r, entries, order, h)
    requires f.node.Tree? && |f.node.keys| < order - 1
    ensures Path(up) && Framed(f)
    ensures var g := Grown(Fill(f, l), f.i, k, v, r);
      Standing(heap[f.node.addr := RecOf(g)], next, root, Plug(up, g), entries, order, h)
  {
    PathSnoc(up, f);
    FitEntries(up, f, l, k, v, r, entries);
    FitBalanced(up, f, l, k, v, r, order, h);
    FitPending(heap, next, up, f, l, r, k, v);
    PathGrows(up, f, l);
    PlugRoot(up, Fill(f, l), Grown(Fill(f, l), f.i, k, v, r));
    PlugHeight(up, Grown(Fill(f, l), f.i, k, v, r), order, h);
  }

  lemma PlugHeight<V>(up: seq<Frame<V>>, g: Tree<V>, order: nat, h: nat)
    requires Path(up) && Balanced(Plug(up, g), order, h, true)
    ensures Height(Plug(up, g)) == h
  {
  }

  lemma {:induction false} FitPending<V>(heap: Heap<V>, next: nat, up: seq<Frame<V>>, f: Frame<V>, l: Tree<V>,
      r: Tree<V>, k: int, v: V)
    requires Path(up) && Framed(f) && Pending(heap, next, up + [f], l, r)
    ensures var g := Grown(Fill(f, l), f.i, k, v, r);
      Stored(heap[f.node.addr := RecOf(g)], Plug(up, g)) && Owned(Addrs(Plug(up, g)), next)
  {
    LastNode(heap, next, up, f, l, r);
    Fit(heap, next, up, Fill(f, l), r, f.i, k, v);
  }

  lemma {:induction false} ClimbSplit<V>(heap: Heap<V>, next: nat, root: nat, up: seq<Frame<V>>, f: Frame<V>,
      l: Tree<V>, k: int, v: V, r: Tree<V>, entries: seq<Entry<V>>, order: nat, h: nat)
    requires Climbing(heap, next, root, up + [f], l, k, v, r, entries, order, h)
    requires f.node.Tree? && |f.node.keys| == order - 1
    ensures Path(up) && Framed(f)
    ensures var g := Grown(Fill(f, l), f.i, k, v, r); var m := order / 2;
      var l', r' := LeftHalf(g, m), RightHalf(g, m, next);
      Climbing(heap[f.node.addr := RecOf(l')][next := RecOf(r')], next + 1, root, up, l', g.keys[m], g.vals[m], r',
        entries, order, h)
  {
    PathSnoc(up, f);
    var m := order / 2;
    var g := Grown(Fill(f, l), f.i, k, v, r);
    SplitEntries(up, f, l, k, v, r, entries, m, next);
    SplitBalanced(up, f, l, k, v, r, order, h, next);
    SplitPending(heap, next, up, f, l, r, k, v, m);
    PathGrows(up, f, l);
    PlugRoot(up, Fill(f, l), LeftHalf(g, m));
    PathOkUp(up, f, order, h);
  }

  lemma {:induction false} PathOkUp<V>(up: seq<Frame<V>>, f: Frame<V>, order: nat, h: nat)
    requires PathOk(up + [f], order, h)
    ensures PathOk(up, order, h)
  {
    assert forall j :: 0 <= j < |up| ==> (up + [f])[j] == up[j];
  }

  lemma {:induction false} SplitPending<V>(heap: Heap<V>, next: nat, up: seq<Frame<V>>, f: Frame<V>, l: Tree<V>,
      r: Tree<V>, k: int, v: V, m: nat)
    requires Path(up) && Framed(f) && Pending(heap, next, up + [f], l, r) && m <= |f.node.keys|
    ensures var g := Grown(Fill(f, l), f.i, k, v, r);
      var l', r' := LeftHalf(g, m), RightHalf(g, m, next);
      Pending(heap[f.node.addr := RecOf(l')][next := RecOf(r')], next + 1, up, l', r')
  {
    LastNode(heap, next, up, f, l, r);
    Split(heap, next, up, Fill(f, l), r, f.i, k, v, m);
  }

  lemma {:induction false} TopLevel<V>(heap: Heap<V>, next: nat, root: nat, fs: seq<Frame<V>>, l: Tree<V>,
      k: int, v: V, r: Tree<V>, entries: seq<Entry<V>>, order: nat, h: nat)
    requires Climbing(heap, next, root, fs[..0], l, k, v, r, entries, order, h)
    ensures Climbing(heap, next, root, [], l, k, v, r, entries, order, h) && root == Root(l)
  {
    assert fs[..0] == [];
  }

  /** When the root has been split, a new root over the halves completes the tree. */
  lemma {:induction false} ClimbTop<V>(heap: Heap<V>, next: nat, root: nat, fs: seq<Frame<V>>, l: Tree<V>,
      k: int, v: V, r: Tree<V>, entries: seq<Entry<V>>, order: nat, h: nat)
    requires Climbing(heap, next, root, fs, l, k, v, r, entries, order, h) && fs == []
    ensures root == Root(l) && (l.Tree? ==> l.addr in heap && heap[l.addr].height == h) && (l.Nil? ==> h == 0)
    ensures Standing(heap[next := Rec(h + 1, [k], [v], [Root(l), Root(r)])], next + 1, next,
                             Tree(next, h + 1, [k], [v], [l, r]), entries, order, h + 1)
  {
    assert FrameAddrs(fs) + Addrs(l) + Addrs(r) == Addrs(l) + Addrs(r);
    assert Pre(fs) + (Flat(l) + [Entry(k, v)] + Flat(r)) + Post(fs) == Flat(l) + [Entry(k, v)] + Flat(r);
    NewRoot(heap, next, l, r, k, v, entries, order, h);
  }

  /** A new root over two trees of the same height. */
  lemma {:induction false} NewRoot<V>(heap: Heap<V>, next: nat, l: Tree<V>, r: Tree<V>, k: int, v: V,
      entries: seq<Entry<V>>, order: nat, h: nat)
    requires Stored(heap, l) && Stored(heap, r) && Owned(Addrs(l) + Addrs(r), next)
    requires entries == Flat(l) + [Entry(k, v)] + Flat(r) && order >= 3
    requires Balanced(l, order, h, false) && Balanced(r, order, h, false)
    ensures var t := Tree(next, h + 1, [k], [v], [l, r]);
      && Stored(heap[next := Rec(h + 1, [k], [v], [Root(l), Root(r)])], t)
      && Owned(Addrs(t), next + 1)
      && Flat(t) == entries && Balanced(t, order, h + 1, true)
    ensures l.Tree? ==> l.addr in heap && heap[l.addr].height == h
  {
    var t := Tree(next, h + 1, [k], [v], [l, r]);
    PairAddrs(l, r);
    RootStored(heap, next, t, l, r);
    RootOwned(next, Addrs(l) + Addrs(r));
    RootEntries(next, h + 1, l, r, k, v);
    RootBalanced(t, l, r, order, h);
  }

  lemma {:induction false} RootBalanced<V>(t: Tree<V>, l: Tree<V>, r: Tree<V>, order: nat, h: nat)
    requires Sound(t) && t.addr > 0 && t.height == h + 1 && t.kids == [l, r] && order >= 3
    requires Balanced(l, order, h, false) && Balanced(r, order, h, false)
    ensures Balanced(t, order, h + 1, true)
  {
  }

  lemma {:induction false} PairAddrs<V>(l: Tree<V>, r: Tree<V>)
    ensures Sum([l, r]) == Addrs(l) + Addrs(r)
  {
    assert [l, r] == [l] + [r];
    SumJoin([l], [r]);
    SumOne(l);
    SumOne(r);
  }

  lemma {:induction false} RootStored<V>(heap: Heap<V>, next: nat, t: Tree<V>, l: Tree<V>, r: Tree<V>)
    requires Sound(t) && t.addr == next > 0 && t.kids == [l, r] && Stored(heap, l) && Stored(heap, r)
      && Owned(Sum(t.kids), next)
    ensures Stored(heap[next := Rec(t.height, t.keys, t.vals, [Root(l), Root(r)])], t)
  {
    assert Roots(t.kids) == [Root(l), Root(r)];
    assert next !in Sum(t.kids);
    StoredHasAll(heap, t.kids);
    StoredNode(heap, heap[next := RecOf(t)], t);
  }

  lemma {:induction false} RootEntries<V>(addr: nat, height: nat, l: Tree<V>, r: Tree<V>, k: int, v: V)
    ensures Flat(Tree(addr, height, [k], [v], [l, r])) == Flat(l) + [Entry(k, v)] + Flat(r)
  {
    var t := Tree(addr, height, [k], [v], [l, r]);
    assert After(t, 1) == [] && After(t, 0) == [Entry(k, v)] + Flat(r) + [];
    assert Flat(l) + ([Entry(k, v)] + Flat(r) + []) == Flat(l) + [Entry(k, v)] + Flat(r);
  }

  lemma {:induction false} RootOwned(next: nat, a: multiset<nat>)
    requires Owned(a, next)
    ensures Owned(multiset{next} + a, next + 1)
  {
    var all := multiset{next} + a;
    assert next !in a;
    forall y | y in all ensures all[y] == 1 && 0 < y < next + 1 {
      assert all[y] == multiset{next}[y] + a[y];
    }
  }

  lemma {:induction false} FoundStored<V>(heap: Heap<V>, fs: seq<Frame<V>>, t: Tree<V>, i: nat, v: V, next: nat)
    requires Path(fs) && Stored(heap, Plug(fs, t)) && Sound(t) && i < |t.keys| && Owned(Addrs(Plug(fs, t)), next)
    ensures var t' := t.(vals := t.vals[i := v]); var heap' := heap[t.addr := RecOf(t')];
      Stored(heap', Plug(fs, t')) && Owned(Addrs(Plug(fs, t')), next) && Root(Plug(fs, t')) == Root(Plug(fs, t))
  {
    var t' := t.(vals := t.vals[i := v]);
    var heap' := heap[t.addr := RecOf(t')];
    StoredSub(heap, fs, t);
    PlugAddrs(fs, t);
    PlugAddrs(fs, t');
    assert FrameAddrs(fs) + multiset{t.addr} + Sum(t.kids) == FrameAddrs(fs) + (multiset{t.addr} + Sum(t.kids));
    NotTwice(FrameAddrs(fs), t.addr, Sum(t.kids), next);
    StoredHasAll(heap, t.kids);
    StoredNode(heap, heap', t');
    PathAddrs(heap, fs, t);
    Replace(heap, heap', fs, t, t');
    PlugRoot(fs, t, t');
  }

  lemma {:induction false} PlugRoot<V>(fs: seq<Frame<V>>, c: Tree<V>, c': Tree<V>)
    requires Path(fs) && Root(c) == Root(c')
    ensures Root(Plug(fs, c)) == Root(Plug(fs, c'))
    decreases |fs|
  {
    if fs != [] { PlugRoot(fs[..|fs| - 1], Fill(fs[|fs| - 1], c), Fill(fs[|fs| - 1], c')); }
  }

  lemma {:induction false} FoundBalanced<V>(fs: seq<Frame<V>>, t: Tree<V>, i: nat, v: V, order: nat, h: nat)
    requires Path(fs) && PathOk(fs, order, h) && Balanced(t, order, h - |fs|, fs == []) && t.Tree? && i < |t.vals|
    ensures var t' := t.(vals := t.vals[i := v]);
      Balanced(Plug(fs, t'), order, h, true) && Height(Plug(fs, t')) == h
  {
    var t' := t.(vals := t.vals[i := v]);
    PlugBalanced(fs, t', order, h);
  }

  lemma {:induction false} FoundAt<V>(fs: seq<Frame<V>>, t: Tree<V>, i: nat, k: int, v: V)
    requires Path(fs) && Sound(t) && i < |t.keys| && t.keys[i] == k && Ascending(Flat(Plug(fs, t)))
    ensures var t' := t.(vals := t.vals[i := v]);
      && Ascending(Flat(Plug(fs, t')))
      && MapOf(Flat(Plug(fs, t'))) == MapOf(Flat(Plug(fs, t)))[k := v]
      && k in MapOf(Flat(Plug(fs, t))) && MapOf(Flat(Plug(fs, t)))[k] == t.vals[i]
  {
    var t' := t.(vals := t.vals[i := v]);
    PlugFlat(fs, t);
    PlugFlat(fs, t');
    FlatWithVal(t, i, v);
    var xs, ys := Pre(fs) + (Before(t, i) + Flat(t.kids[i])), Flat(t.kids[i + 1]) + After(t, i + 1) + Post(fs);
    Middle(Pre(fs), Before(t, i) + Flat(t.kids[i]), Entry(k, t.vals[i]), Flat(t.kids[i + 1]) + After(t, i + 1),
      Post(fs));
    Middle(Pre(fs), Before(t, i) + Flat(t.kids[i]), Entry(k, v), Flat(t.kids[i + 1]) + After(t, i + 1), Post(fs));
    Replaced(xs, k, t.vals[i], v, ys);
  }

  lemma {:induction false} Replaced<V>(xs: seq<Entry<V>>, k: int, u: V, v: V, ys: seq<Entry<V>>)
    requires Ascending(xs + [Entry(k, u)] + ys)
    ensures Ascending(xs + [Entry(k, v)] + ys)
    ensures MapOf(xs + [Entry(k, v)] + ys) == MapOf(xs + [Entry(k, u)] + ys)[k := v]
    ensures k in MapOf(xs + [Entry(k, u)] + ys) && MapOf(xs + [Entry(k, u)] + ys)[k] == u
  {
    AscendingSplit(xs, k, u, ys);
    AscendingJoin(xs, k, v, ys);
    MapOfInsert(xs, k, u, ys);
    MapOfInsert(xs, k, v, ys);
  }

  /** At the end of a search that fails, the key lies between the entries on both sides. */
  lemma {:induction false} NotThere<V>(fs: seq<Frame<V>>, k: int)
    requires Path(fs) && AllBelow(Pre(fs), k) && AllAbove(Post(fs), k)
    ensures Flat(Plug(fs, Nil)) == Pre(fs) + Post(fs) && k !in MapOf(Flat(Plug(fs, Nil)))
  {
    PlugFlat(fs, Nil);
    Between(Pre(fs), Post(fs), k);
  }

  lemma {:induction false} Between<V>(xs: seq<Entry<V>>, ys: seq<Entry<V>>, k: int)
    requires AllBelow(xs, k) && AllAbove(ys, k)
    ensures xs + [] + ys == xs + ys && k !in MapOf(xs + ys)
  {
    MapOfJoin(xs, ys);
    KeysBelow(xs, k);
    KeysBelow(ys, k);
  }

  lemma {:induction false} AscendingPart<V>(a: seq<Entry<V>>, b: seq<Entry<V>>, c: seq<Entry<V>>)
    requires Ascending(a + b + c)
    ensures Ascending(b)
  {
    assert forall i :: 0 <= i < |b| ==> b[i] == (a + b + c)[|a| + i];
  }

  lemma {:induction false} BelowAndAbove<V>(t: Tree<V>, k: int, i: nat)
    requires Sound(t) && Ascending(Flat(t)) && BTreeNode.IsSlot(t.keys, k, i) && !(i < |t.keys| && t.keys[i] == k)
    ensures AllBelow(Before(t, i), k) && AllAbove(After(t, i), k)
  {
    if i > 0 { LastBelow(t, k, i); }
    if i < |t.keys| { FirstAbove(t, k, i); }
  }

  lemma {:induction false} LastBelow<V>(t: Tree<V>, k: int, i: nat)
    requires Sound(t) && Ascending(Flat(t)) && 0 < i <= |t.keys| && t.keys[i - 1] < k
    ensures AllBelow(Before(t, i), k)
  {
    var j := i - 1;
    var xs, e := Before(t, j) + Flat(t.kids[j]), Entry(t.keys[j], t.vals[j]);
    FlatWithVal(t, j, t.vals[j]);
    AscendingSplit(xs, t.keys[j], t.vals[j], Flat(t.kids[i]) + After(t, i));
    BoundsJoin(xs, [e], k);
  }

  lemma {:induction false} FirstAbove<V>(t: Tree<V>, k: int, i: nat)
    requires Sound(t) && Ascending(Flat(t)) && i < |t.keys| && k < t.keys[i]
    ensures AllAbove(After(t, i), k)
  {
    var ys, e := Flat(t.kids[i + 1]) + After(t, i + 1), Entry(t.keys[i], t.vals[i]);
    FlatWithVal(t, i, t.vals[i]);
    AscendingSplit(Before(t, i) + Flat(t.kids[i]), t.keys[i], t.vals[i], ys);
    Cons(e, Flat(t.kids[i + 1]), After(t, i + 1));
    BoundsJoin([e], ys, k);
  }

  lemma Cons<T>(x: T, c: seq<T>, d: seq<T>)
    ensures [x] + c + d == [x] + (c + d)
  {
  }

  lemma BoundsJoin<V>(xs: seq<Entry<V>>, ys: seq<Entry<V>>, k: int)
    ensures AllBelow(xs, k) && AllBelow(ys, k) ==> AllBelow(xs + ys, k)
    ensures AllAbove(xs, k) && AllAbove(ys, k) ==> AllAbove(xs + ys, k)
  {
  }

  lemma {:induction false} PathGrows<V>(fs: seq<Frame<V>>, f: Frame<V>, c: Tree<V>)
    requires Path(fs) && Framed(f)
    ensures var fs' := fs + [f];
      && Path(fs') && Plug(fs', c) == Plug(fs, Fill(f, c))
      && Pre(fs') == Pre(fs) + Before(f.node, f.i) && Post(fs') == After(f.node, f.i) + Post(fs)
  {
    var fs' := fs + [f];
    assert fs'[..|fs'| - 1] == fs;
  }

  lemma {:induction false} Descend<V>(fs: seq<Frame<V>>, t: Tree<V>, k: int, i: nat)
    requires Path(fs) && Sound(t) && Ascending(Flat(Plug(fs, t))) && AllBelow(Pre(fs), k) && AllAbove(Post(fs), k)
    requires BTreeNode.IsSlot(t.keys, k, i) && !(i < |t.keys| && t.keys[i] == k)
    ensures var fs' := fs + [Frame(t, i)];
      && Path(fs') && Plug(fs', t.kids[i]) == Plug(fs, t)
      && AllBelow(Pre(fs'), k) && AllAbove(Post(fs'), k)
  {
    PathGrows(fs, Frame(t, i), t.kids[i]);
    assert Fill(Frame(t, i), t.kids[i]) == t;
    PlugFlat(fs, t);
    AscendingPart(Pre(fs), Flat(t), Post(fs));
    BelowAndAbove(t, k, i);
    BoundsJoin(Pre(fs), Before(t, i), k);
    BoundsJoin(After(t, i), Post(fs), k);
  }

  /** The first key of an empty tree. */
  lemma {:induction false} EmptyBegin<V>(heap: Heap<V>, next: nat, root: nat, tree: Tree<V>, order: nat, k: int, v: V)
    requires Standing(heap, next, root, tree, Flat(tree), order, Height(tree)) && root == 0
    ensures tree == Nil && Climbing(heap, next, root, [], Nil, k, v, Nil, [Entry(k, v)], order, 0)
    ensures MapOf([Entry(k, v)]) == MapOf(Flat(tree))[k := v]
  {
    Begin(heap, next, root, tree, order, k, v, []);
    assert [] + [Entry(k, v)] + [] == [Entry(k, v)];
  }

  // ----- Searching -----

  /** The key is not in the tree and every node on the way to its place is full. */
  ghost predicate FullPath<V>(t: Tree<V>, k: int, order: nat) {
    t.Nil? ||
    var i := BTreeNode.SlotFor(t.keys, k);
    && |t.keys| == order - 1 && i < |t.kids| && !(i < |t.keys| && t.keys[i] == k)
    && FullPath(t.kids[i], k, order)
  }

  /** On the way down `t` is what is left of the tree, and `k` belongs there. */
  ghost predicate Searching<V>(heap: Heap<V>, order: nat, tree: Tree<V>, k: int, fs: seq<Frame<V>>, t: Tree<V>) {
    && Path(fs) && Plug(fs, t) == tree && Stored(heap, t) && Ascending(Flat(tree)) && |fs| <= Height(tree)
    && PathOk(fs, order, Height(tree)) && Balanced(t, order, Height(tree) - |fs|, fs == [])
    && AllBelow(Pre(fs), k) && AllAbove(Post(fs), k)
    && (FullPath(tree, k, order) <==> AllFull(fs, 0, order) && FullPath(t, k, order))
  }

  lemma {:induction false} SearchBegin<V>(heap: Heap<V>, next: nat, root: nat, tree: Tree<V>, order: nat, k: int)
    requires Standing(heap, next, root, tree, Flat(tree), order, Height(tree))
    ensures Searching(heap, order, tree, k, [], tree)
  {
  }

  lemma {:induction false} SearchNode<V>(heap: Heap<V>, order: nat, tree: Tree<V>, k: int, fs: seq<Frame<V>>,
      t: Tree<V>)
    requires Searching(heap, order, tree, k, fs, t) && t.Tree?
    ensures t.addr in heap && heap[t.addr] == RecOf(t) && Sound(t) && |fs| < Height(tree)
  {
  }

  lemma {:induction false} SearchStep<V>(heap: Heap<V>, order: nat, tree: Tree<V>, k: int, fs: seq<Frame<V>>,
      t: Tree<V>, i: nat)
    requires Searching(heap, order, tree, k, fs, t) && t.Tree?
    requires i == BTreeNode.SlotFor(t.keys, k) && !(i < |t.keys| && t.keys[i] == k)
    ensures i < |t.kids| && Searching(heap, order, tree, k, fs + [Frame(t, i)], t.kids[i])
  {
    KidStored(heap, t, i);
    FullStep(fs, Frame(t, i), order);
    StepOk(fs, t, i, order, Height(tree));
    Descend(fs, t, k, i);
  }

  lemma {:induction false} KidStored<V>(heap: Heap<V>, t: Tree<V>, i: nat)
    requires Stored(heap, t) && t.Tree? && i < |t.kids|
    ensures Stored(heap, t.kids[i])
  {
    assert StoredAll(heap, t.kids);
  }

  lemma {:induction false} FullStep<V>(fs: seq<Frame<V>>, f: Frame<V>, order: nat)
    requires f.node.Tree?
    ensures AllFull(fs + [f], 0, order) <==> AllFull(fs, 0, order) && |f.node.keys| == order - 1
  {
    assert forall j :: 0 <= j < |fs| ==> (fs + [f])[j] == fs[j];
    assert (fs + [f])[|fs|] == f;
  }

  /** Where a key is: at index `i` of the node `t` at the end of the path. */
  ghost predicate Located<V>(heap: Heap<V>, order: nat, tree: Tree<V>, k: int, addr: nat, i: nat,
      fs: seq<Frame<V>>, t: Tree<V>) {
    && Path(fs) && Plug(fs, t) == tree && Sound(t) && t.addr == addr && Stored(heap, t) && |fs| <= Height(tree)
    && PathOk(fs, order, Height(tree)) && Balanced(t, order, Height(tree) - |fs|, fs == [])
    && i < |t.keys| && t.keys[i] == k
  }

  lemma {:induction false} SearchFinds<V>(heap: Heap<V>, order: nat, tree: Tree<V>, k: int, fs: seq<Frame<V>>,
      t: Tree<V>, i: nat)
    requires Searching(heap, order, tree, k, fs, t) && t.Tree? && i == BTreeNode.SlotFor(t.keys, k) && i < |t.keys|
      && t.keys[i] == k
    ensures Located(heap, order, tree, k, t.addr, i, fs, t)
    ensures k in MapOf(Flat(tree)) && i < |t.vals| && MapOf(Flat(tree))[k] == t.vals[i] && !FullPath(tree, k, order)
  {
    FoundAt(fs, t, i, k, t.vals[i]);
  }

  lemma {:induction false} SearchFails<V>(heap: Heap<V>, order: nat, tree: Tree<V>, k: int, fs: seq<Frame<V>>)
    requires Searching(heap, order, tree, k, fs, Nil)
    ensures Reached(tree, order, k, fs)
    ensures |fs| == Height(tree) && k !in MapOf(Flat(tree))
    ensures FullPath(tree, k, order) <==> AllFull(fs, 0, order)
  {
    NotThere(fs, k);
  }

  /** Replacing the value of a key that is there. */
  lemma {:induction false} Overwritten<V>(heap: Heap<V>, next: nat, root: nat, tree: Tree<V>, order: nat,
      k: int, v: V, addr: nat, i: nat, fs: seq<Frame<V>>, t: Tree<V>)
    requires Standing(heap, next, root, tree, Flat(tree), order, Height(tree))
      && Located(heap, order, tree, k, addr, i, fs, t)
    ensures addr in heap && heap[addr] == RecOf(t)
    ensures var tree' := Plug(fs, t.(vals := t.vals[i := v]));
      var heap' := heap[addr := heap[addr].(vals := heap[addr].vals[i := v])];
      && Standing(heap', next, root, tree', Flat(tree'), order, Height(tree))
      && MapOf(Flat(tree')) == MapOf(Flat(tree))[k := v]
  {
    FoundAt(fs, t, i, k, v);
    FoundStored(heap, fs, t, i, v, next);
    FoundBalanced(fs, t, i, v, order, Height(tree));
    assert RecOf(t.(vals := t.vals[i := v])) == heap[addr].(vals := heap[addr].vals[i := v]);
  }

  lemma RootNil<V>(heap: Heap<V>, t: Tree<V>)
    requires Stored(heap, t) && Root(t) == 0
    ensures t == Nil
  {
  }

  /** The last node of a path holds the address of what comes behind it. */
  lemma {:induction false} LastOnPath<V>(heap: Heap<V>, fs: seq<Frame<V>>, t: Tree<V>)
    requires Path(fs) && fs != [] && Stored(heap, Plug(fs, t))
    ensures var f := fs[|fs| - 1];
      f.node.addr in heap && f.i < |heap[f.node.addr].kids| && heap[f.node.addr].kids[f.i] == Root(t)
  {
    var f := fs[|fs| - 1];
    StoredSub(heap, fs[..|fs| - 1], Fill(f, t));
    assert Fill(f, t).kids[f.i] == t;
  }
}
