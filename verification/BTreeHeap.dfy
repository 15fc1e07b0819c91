/**
 How B-trees lie in memory, and the path from the root to a subtree.
 */
module BTreeHeap {
  import BTreeNode
  import opened BTree

  /** The contents of an allocated node; children are addresses, 0 is null. */
  datatype Rec<V> = Rec(height: nat, keys: seq<int>, vals: seq<V>, kids: seq<nat>)

  type Heap<V> = map<int, Rec<V>>

  function Root<V>(t: Tree<V>): nat { if t.Nil? then 0 else t.addr }

  ghost function Roots<V>(ts: seq<Tree<V>>): seq<nat> { seq(|ts|, i requires 0 <= i < |ts| => Root(ts[i])) }

  ghost function RecOf<V>(t: Tree<V>): Rec<V>
    requires t.Tree?
  {
    Rec(t.height, t.keys, t.vals, Roots(t.kids))
  }

  ghost predicate Stored<V>(heap: Heap<V>, t: Tree<V>) {
    t.Nil? || (Sound(t) && t.addr > 0 && t.addr in heap && heap[t.addr] == RecOf(t) && StoredAll(heap, t.kids))
  }

  ghost predicate StoredAll<V>(heap: Heap<V>, ts: seq<Tree<V>>) {
    forall i :: 0 <= i < |ts| ==> Stored(heap, ts[i])
  }

  /** The addresses that a tree occupies. */
  ghost function Addrs<V>(t: Tree<V>): multiset<nat>
    decreases t
  {
    if t.Nil? then multiset{} else multiset{t.addr} + Sum(t.kids)
  }

  ghost function Sum<V>(ts: seq<Tree<V>>): multiset<nat>
    decreases ts
  {
    if ts == [] then multiset{} else Addrs(ts[0]) + Sum(ts[1..])
  }

  lemma {:induction false} SumJoin<V>(ss: seq<Tree<V>>, ts: seq<Tree<V>>)
    ensures Sum(ss + ts) == Sum(ss) + Sum(ts)
    decreases |ss|
  {
    if ss == [] {
      assert ss + ts == ts;
    } else {
      assert (ss + ts)[1..] == ss[1..] + ts;
      SumJoin(ss[1..], ts);
    }
  }

  lemma {:induction false} SumOne<V>(t: Tree<V>)
    ensures Sum([t]) == Addrs(t)
  {
    assert [t][1..] == [];
  }

  lemma {:induction false} SumAt<V>(ts: seq<Tree<V>>, i: nat)
    requires i < |ts|
    ensures Sum(ts) == Sum(ts[..i]) + Addrs(ts[i]) + Sum(ts[i + 1..])
  {
    assert ts == ts[..i] + ts[i..] && ts[i..][1..] == ts[i + 1..];
    SumJoin(ts[..i], ts[i..]);
  }

  lemma {:induction false} SumGap<V>(ts: seq<Tree<V>>, i: nat, b: Tree<V>)
    requires i <= |ts|
    ensures Sum(BTreeNode.Gap(ts, i, b)) == Sum(ts) + Addrs(b)
  {
    var us := BTreeNode.Gap(ts, i, b);
    SumAt(us, i);
    assert us[..i] == ts[..i] && us[i + 1..] == ts[i..] && ts == ts[..i] + ts[i..];
    SumJoin(ts[..i], ts[i..]);
  }

  /** Memory that stays the same on the addresses of a tree keeps the tree. */
  lemma {:induction false} StoredAgree<V>(heap: Heap<V>, heap': Heap<V>, t: Tree<V>)
    requires Stored(heap, t)
    requires forall a :: a in Addrs(t) ==> a in heap' && a in heap && heap'[a] == heap[a]
    ensures Stored(heap', t)
    decreases t
  {
    if t.Tree? {
      forall i | 0 <= i < |t.kids| ensures Stored(heap', t.kids[i]) {
        SumAt(t.kids, i);
        StoredAgree(heap, heap', t.kids[i]);
      }
    }
  }

  // ----- Paths -----

  /** A node on the path, and the child through which the path goes on. */
  datatype Frame<V> = Frame(node: Tree<V>, i: nat)

  ghost predicate Framed<V>(f: Frame<V>) { Sound(f.node) && f.i <= |f.node.keys| }

  ghost predicate Path<V>(fs: seq<Frame<V>>) { forall j :: 0 <= j < |fs| ==> Framed(fs[j]) }

  ghost function Fill<V>(f: Frame<V>, c: Tree<V>): Tree<V>
    requires Framed(f)
  {
    WithKid(f.node, f.i, c)
  }

  /** The tree with `c` at the end of the path. */
  ghost function Plug<V>(fs: seq<Frame<V>>, c: Tree<V>): Tree<V>
    requires Path(fs)
    decreases |fs|
  {
    if fs == [] then c else Plug(fs[..|fs| - 1], Fill(fs[|fs| - 1], c))
  }

  /** The entries left of the end of the path, and right of it. */
  ghost function Pre<V>(fs: seq<Frame<V>>): seq<Entry<V>>
    requires Path(fs)
    decreases |fs|
  {
    if fs == [] then [] else Pre(fs[..|fs| - 1]) + Before(fs[|fs| - 1].node, fs[|fs| - 1].i)
  }

  ghost function Post<V>(fs: seq<Frame<V>>): seq<Entry<V>>
    requires Path(fs)
    decreases |fs|
  {
    if fs == [] then [] else After(fs[|fs| - 1].node, fs[|fs| - 1].i) + Post(fs[..|fs| - 1])
  }

  lemma {:induction false} PlugFlat<V>(fs: seq<Frame<V>>, c: Tree<V>)
    requires Path(fs)
    ensures Flat(Plug(fs, c)) == Pre(fs) + Flat(c) + Post(fs)
    decreases |fs|
  {
    if fs != [] {
      var f, up := fs[|fs| - 1], fs[..|fs| - 1];
      PlugFlat(up, Fill(f, c));
      FlatWithKid(f.node, f.i, c);
      Nest(Pre(up), Before(f.node, f.i), Flat(c), After(f.node, f.i), Post(up));
    }
  }

  lemma Nest<T>(a: seq<T>, b: seq<T>, c: seq<T>, d: seq<T>, e: seq<T>)
    ensures a + (b + c + d) + e == (a + b) + c + (d + e)
  {
  }

  ghost function FrameAddrs<V>(fs: seq<Frame<V>>): multiset<nat>
    requires Path(fs)
    decreases |fs|
  {
    if fs == [] then multiset{} else
      var f := fs[|fs| - 1];
      FrameAddrs(fs[..|fs| - 1]) + multiset{f.node.addr} + Sum(f.node.kids[..f.i]) + Sum(f.node.kids[f.i + 1..])
  }

  lemma {:induction false} AddrsFill<V>(f: Frame<V>, c: Tree<V>)
    requires Framed(f)
    ensures Addrs(Fill(f, c)) == multiset{f.node.addr} + Sum(f.node.kids[..f.i]) + Sum(f.node.kids[f.i + 1..])
      + Addrs(c)
    ensures Sum(Fill(f, c).kids) == Sum(f.node.kids[..f.i]) + Sum(f.node.kids[f.i + 1..]) + Addrs(c)
  {
    var us := Fill(f, c).kids;
    SumAt(us, f.i);
    assert us[..f.i] == f.node.kids[..f.i] && us[f.i + 1..] == f.node.kids[f.i + 1..];
  }

  lemma {:induction false} PlugAddrs<V>(fs: seq<Frame<V>>, c: Tree<V>)
    requires Path(fs)
    ensures Addrs(Plug(fs, c)) == FrameAddrs(fs) + Addrs(c)
    decreases |fs|
  {
    if fs != [] {
      PlugAddrs(fs[..|fs| - 1], Fill(fs[|fs| - 1], c));
      AddrsFill(fs[|fs| - 1], c);
    }
  }

  lemma {:induction false} StoredSub<V>(heap: Heap<V>, fs: seq<Frame<V>>, c: Tree<V>)
    requires Path(fs) && Stored(heap, Plug(fs, c))
    ensures Stored(heap, c)
    decreases |fs|
  {
    if fs != [] {
      var f := fs[|fs| - 1];
      StoredSub(heap, fs[..|fs| - 1], Fill(f, c));
      assert Fill(f, c).kids[f.i] == c;
    }
  }

  ghost predicate Agree<V>(heap: Heap<V>, heap': Heap<V>, addrs: multiset<nat>) {
    forall a :: a in addrs ==> a in heap' && a in heap && heap'[a] == heap[a]
  }

  lemma {:induction false} AgreeParts<V>(heap: Heap<V>, heap': Heap<V>, a: multiset<nat>, x: nat,
      b: multiset<nat>, c: multiset<nat>)
    requires Agree(heap, heap', a + multiset{x} + b + c)
    ensures Agree(heap, heap', a)
    ensures Agree(heap, heap', multiset{x})
    ensures Agree(heap, heap', b)
    ensures Agree(heap, heap', c)
  {
    assert forall y :: y in a || y == x || y in b || y in c ==> y in a + multiset{x} + b + c;
  }

  /** Exchanging the end of a path for a tree with the same root needs no change on the path. */
  lemma {:induction false} StoredPlug<V>(heap: Heap<V>, heap': Heap<V>, fs: seq<Frame<V>>, c: Tree<V>, c': Tree<V>)
    requires Path(fs) && Stored(heap, Plug(fs, c)) && Stored(heap', c') && Root(c) == Root(c')
    requires Agree(heap, heap', FrameAddrs(fs))
    ensures Stored(heap', Plug(fs, c'))
    decreases |fs|
  {
    if fs != [] {
      var f, up := fs[|fs| - 1], fs[..|fs| - 1];
      AgreeParts(heap, heap', FrameAddrs(up), f.node.addr, Sum(f.node.kids[..f.i]), Sum(f.node.kids[f.i + 1..]));
      StoredSub(heap, up, Fill(f, c));
      StoredFill(heap, heap', f, c, c');
      StoredPlug(heap, heap', up, Fill(f, c), Fill(f, c'));
    }
  }

  lemma {:induction false} StoredFill<V>(heap: Heap<V>, heap': Heap<V>, f: Frame<V>, c: Tree<V>, c': Tree<V>)
    requires Framed(f) && Stored(heap, Fill(f, c)) && Stored(heap', c') && Root(c) == Root(c')
    requires Agree(heap, heap', multiset{f.node.addr})
    requires Agree(heap, heap', Sum(f.node.kids[..f.i]))
    requires Agree(heap, heap', Sum(f.node.kids[f.i + 1..]))
    ensures Stored(heap', Fill(f, c'))
  {
    var t, t' := Fill(f, c), Fill(f, c');
    assert f.node.addr in multiset{f.node.addr};
    assert Roots(t.kids) == Roots(t'.kids);
    forall j | 0 <= j < |t'.kids| ensures Stored(heap', t'.kids[j]) {
      if j != f.i {
        assert Stored(heap, t.kids[j]) && t.kids[j] == f.node.kids[j];
        StoredIn(heap, heap', if j < f.i then f.node.kids[..f.i] else f.node.kids[f.i + 1..], if j < f.i then j
          else j - f.i - 1);
      }
    }
  }

  lemma {:induction false} StoredIn<V>(heap: Heap<V>, heap': Heap<V>, ts: seq<Tree<V>>, j: nat)
    requires j < |ts| && Stored(heap, ts[j]) && Agree(heap, heap', Sum(ts))
    ensures Stored(heap', ts[j])
  {
    SumAt(ts, j);
    StoredAgree(heap, heap', ts[j]);
  }

  // ----- Shape along a path -----

  ghost predicate FrameOk<V>(f: Frame<V>, order: nat, h: nat, root: bool) {
    && Framed(f) && h > 0 && f.node.height == h && f.node.addr > 0
    && (if root then 1 else MinKeys(order)) <= |f.node.keys| <= order - 1
    && forall j :: 0 <= j < |f.node.kids| && j != f.i ==> Balanced(f.node.kids[j], order, h - 1, false)
  }

  ghost predicate PathOk<V>(fs: seq<Frame<V>>, order: nat, h: nat) {
    |fs| <= h && forall j :: 0 <= j < |fs| ==> FrameOk(fs[j], order, h - j, j == 0)
  }

  lemma {:induction false} PlugBalanced<V>(fs: seq<Frame<V>>, c: Tree<V>, order: nat, h: nat)
    requires Path(fs) && PathOk(fs, order, h) && Balanced(c, order, h - |fs|, fs == [])
    ensures Balanced(Plug(fs, c), order, h, true)
    decreases |fs|
  {
    if fs != [] {
      var f, up := fs[|fs| - 1], fs[..|fs| - 1];
      assert FrameOk(f, order, h - |up|, up == []);
      var t := Fill(f, c);
      assert forall j :: 0 <= j < |t.kids| ==> Balanced(t.kids[j], order, h - |fs|, false);
      PlugBalanced(up, t, order, h);
    }
  }
}
