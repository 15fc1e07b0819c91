/**
 The memory of a B-tree: nodes with their arrays at addresses, seen from outside as a map from
 addresses to node contents.
 */
module BTreeStore {
  import opened BTreeNode
  import opened BTreeHeap
  import opened BTreeGrowth

  /** The arrays of node `n` hold the contents `rec`. */
  ghost predicate Holds<V(0)>(n: Node<V, nat>, rec: Rec<V>, order: nat)
    reads n, n.keys, n.vals, n.kids
  {
    n.Valid() && n.order == order && n.height == rec.height && n.Contents() == SlotsIn(rec)
  }

  ghost predicate Apart<V(0)>(n: Node<V, nat>, m: Node<V, nat>) { n != m && n.Arrays() !! m.Arrays() }

  /** The nodes hold the contents, occupy `repr` and share no array. */
  ghost predicate Backed<V(0)>(nodes: map<int, Node<V, nat>>, heap: Heap<V>, repr: set<object>, order: nat)
    reads repr
  {
    && nodes.Keys == heap.Keys
    && (forall a {:trigger nodes[a]} :: a in nodes ==> nodes[a] in repr && nodes[a].Arrays() <= repr)
    && (forall a {:trigger Holds(nodes[a], heap[a], order)} :: a in nodes ==> Holds(nodes[a], heap[a], order))
    && (forall a, b {:trigger Apart(nodes[a], nodes[b])} :: a in nodes && b in nodes && a != b ==>
       Apart(nodes[a], nodes[b]))
  }

  /** The same, but for the node at `a`. */
  ghost predicate Others<V(0)>(nodes: map<int, Node<V, nat>>, heap: Heap<V>, a: int, repr: set<object>, order: nat)
    requires a in nodes
    reads repr - {nodes[a]} - nodes[a].Arrays()
  {
    && nodes.Keys == heap.Keys
    && (forall b {:trigger nodes[b]} :: b in nodes ==> nodes[b] in repr && nodes[b].Arrays() <= repr)
    && (forall b, c {:trigger Apart(nodes[b], nodes[c])} :: b in nodes && c in nodes && b != c ==>
       Apart(nodes[b], nodes[c]))
    && (forall b {:trigger Holds(nodes[b], heap[b], order)} :: b in nodes && b != a ==>
       Apart(nodes[b], nodes[a]) && Holds(nodes[b], heap[b], order))
  }

  lemma {:induction false} Rejoin<V(0)>(nodes: map<int, Node<V, nat>>, heap: Heap<V>, a: int, rec: Rec<V>,
      repr: set<object>, order: nat)
    requires a in nodes && Others(nodes, heap, a, repr, order) && Holds(nodes[a], rec, order)
    ensures Backed(nodes, heap[a := rec], repr, order)
  {
    var heap' := heap[a := rec];
    forall b | b in nodes ensures Holds(nodes[b], heap'[b], order) {
      if b != a { assert Holds(nodes[b], heap[b], order); }
    }
  }

  /** A node apart from all others can be added. */
  lemma {:induction false} Join<V(0)>(nodes: map<int, Node<V, nat>>, heap: Heap<V>, a: int, n: Node<V, nat>,
      rec: Rec<V>, repr: set<object>, order: nat)
    requires Backed(nodes, heap, repr, order) && Holds(n, rec, order) && n !in repr && n.Arrays() !! repr
    ensures Backed(nodes[a := n], heap[a := rec], repr + {n} + n.Arrays(), order)
  {
    var nodes', heap', repr' := nodes[a := n], heap[a := rec], repr + {n} + n.Arrays();
    forall b | b in nodes' ensures Holds(nodes'[b], heap'[b], order) && nodes'[b] in repr'
      && nodes'[b].Arrays() <= repr' {
      if b != a { assert Holds(nodes[b], heap[b], order); }
    }
    forall b, c | b in nodes' && c in nodes' && b != c ensures Apart(nodes'[b], nodes'[c]) {
      if b != a && c != a { assert Apart(nodes[b], nodes[c]); }
      if b != a { Outside(nodes[b], n, repr); }
      if c != a { Outside(nodes[c], n, repr); }
    }
  }

  lemma {:induction false} Outside<V(0)>(m: Node<V, nat>, n: Node<V, nat>, repr: set<object>)
    requires m in repr && m.Arrays() <= repr && n !in repr && n.Arrays() !! repr
    ensures Apart(m, n) && Apart(n, m)
  {
  }

  class Store<V(0)> {
    const order: nat
    var nodes: map<int, Node<V, nat>>
    var next: nat
    ghost var heap: Heap<V>
    ghost var repr: set<object>

    ghost predicate Valid()
      reads this, repr
    {
      3 <= order && this !in repr && Backed(nodes, heap, repr, order)
    }

    constructor (order: nat)
      requires 3 <= order
      ensures Valid() && this.order == order && heap == map[] && next == 1 && repr == {}
    {
      this.order, nodes, next, heap, repr := order, map[], 1, map[], {};
    }

    method KeyIndexIn(a: nat, k: int) returns (i: nat, found: bool)
      requires Valid() && a in heap
      ensures i == SlotFor(heap[a].keys, k) && found == (i < |heap[a].keys| && heap[a].keys[i] == k)
    {
      var n := nodes[a];
      assert Holds(n, heap[a], order);
      i := KeyIndex(n.keys, n.nbKeys, k);
      assert n.keys[..n.nbKeys] == n.Contents().keys;
      SlotUnique(heap[a].keys, k, i, SlotFor(heap[a].keys, k));
      found := i < n.nbKeys && n.keys[i] == k;
    }

    method KidOf(a: nat, i: nat) returns (c: nat)
      requires Valid() && a in heap && i < |heap[a].kids|
      ensures c == heap[a].kids[i]
    {
      var n := nodes[a];
      assert Holds(n, heap[a], order);
      c := n.kids[i];
      assert c == n.Contents().kids[i];
    }

    method HeightOf(a: nat) returns (h: nat)
      requires Valid() && a in heap
      ensures h == heap[a].height
    {
      assert Holds(nodes[a], heap[a], order);
      h := nodes[a].height;
    }

    method SetVal(a: nat, i: nat, v: V)
      requires Valid() && a in heap && i < |heap[a].vals|
      modifies this`heap, repr
      ensures Valid()
      ensures repr == old(repr)
      ensures heap == old(heap)[a := old(heap[a]).(vals := old(heap[a]).vals[i := v])]
    {
      var n := nodes[a];
      ghost var rec := heap[a];
      assert Holds(n, rec, order);
      assert Others(nodes, heap, a, repr, order);
      n.SetVal(i, v);
      Rejoin(nodes, heap, a, rec.(vals := rec.vals[i := v]), repr, order);
      heap := heap[a := rec.(vals := rec.vals[i := v])];
    }

    /** Gives a new node the next address. */
    method Enter(n: Node<V, nat>, ghost rec: Rec<V>) returns (a: nat)
      requires Valid() && Holds(n, rec, order) && n !in repr && n.Arrays() !! repr && this !in n.Arrays()
      modifies this
      ensures Valid()
      ensures repr == old(repr) + {n} + n.Arrays() && a == old(next) && next == a + 1
      ensures heap == old(heap)[a := rec]
    {
      a, next := next, next + 1;
      Join(nodes, heap, a, n, rec, repr, order);
      nodes := nodes[a := n];
      heap := heap[a := rec];
      repr := repr + {n} + n.Arrays();
    }

    /** Enters a key and the subtree right of it in the node at `a`; the upper part of a full node is
        returned as a node without address. */
    method InsertAt(a: nat, k: int, v: V, b: nat) returns (upper: Node?<V, nat>, medK: int, medV: V)
      requires Valid() && a in heap
      modifies this`heap, repr
      ensures Valid()
      ensures repr == old(repr) && Shaped(SlotsIn(old(heap[a]))) && |old(heap[a]).keys| < order
      ensures upper == null <==> |old(heap[a]).keys| < order - 1
      ensures var rec, m := old(heap[a]), order / 2;
        var whole := Inserted(SlotsIn(rec), SlotFor(rec.keys, k), k, v, b);
        && heap == old(heap)[a := RecWith(rec.height, if upper == null then whole else LeftPart(whole, m))]
        && (upper != null ==> medK == whole.keys[m] && medV == whole.vals[m])
        && (upper != null ==>
           fresh(upper) && fresh(upper.Arrays()) && Holds(upper, RecWith(rec.height, RightPart(whole, m)), order))
    {
      var n := nodes[a];
      ghost var rec, slot, over := heap[a], 0, 0;
      assert Holds(n, rec, order);
      assert Others(nodes, heap, a, repr, order);
      upper, medK, medV, slot, over := n.InsertBr(k, v, b);
      SlotUnique(rec.keys, k, slot, SlotFor(rec.keys, k));
      Rejoin(nodes, heap, a, RecWith(rec.height, n.Contents()), repr, order);
      heap := heap[a := RecWith(rec.height, n.Contents())];
    }

    /** Enters a key and the subtree right of it in the node at `a`; a full node is split, and the
        address of the new node returned with the median. */
    method InsertBr(a: nat, k: int, v: V, b: nat) returns (right: nat, medK: int, medV: V)
      requires Valid() && a in heap && 0 < next
      modifies this, repr
      ensures forall o :: o in repr ==> o in old(repr) || fresh(o)
      ensures Valid() && Shaped(SlotsIn(old(heap[a]))) && |old(heap[a]).keys| < order
      ensures var rec, m := old(heap[a]), order / 2;
        var whole := Inserted(SlotsIn(rec), SlotFor(rec.keys, k), k, v, b);
        if |rec.keys| < order - 1 then
          right == 0 && next == old(next) && heap == old(heap)[a := RecWith(rec.height, whole)]
        else
          && right == old(next) && next == right + 1 && medK == whole.keys[m] && medV == whole.vals[m]
          && heap == old(heap)[a := RecWith(rec.height, LeftPart(whole, m))][right := RecWith(rec.height,
             RightPart(whole, m))]
    {
      var upper;
      ghost var height := heap[a].height;
      upper, medK, medV := InsertAt(a, k, v, b);
      right := 0;
      if upper != null {
        right := Enter(upper, RecWith(height, upper.Contents()));
      }
    }

    /** A new node of one key over two subtrees. */
    method NewNode(height: nat, l: nat, r: nat, k: int, v: V) returns (a: nat)
      requires Valid()
      modifies this
      ensures forall o :: o in repr ==> o in old(repr) || fresh(o)
      ensures Valid() && a == old(next) && next == a + 1
      ensures heap == old(heap)[a := Rec(height, [k], [v], [l, r])]
    {
      var n := new Node<V, nat>.Single(order, height, k, v, l, r);
      a := Enter(n, Rec(height, [k], [v], [l, r]));
    }
  }
}
