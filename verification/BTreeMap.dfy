/**
 The B-tree in memory: search, and insertion that goes down recording the path and comes back up
 splitting full nodes.
 */
module BTreeMap {
  import opened Wrappers
  import BTreeNode
  import opened BTree
  import opened BTreeHeap
  import opened BTreeClimb
  import BTreeGrowth
  import BTreeStore

  /** The cell of a value: its node and its index there. */
  datatype Cell = Cell(addr: nat, i: nat)

  class Map<V(0)> {
    const store: BTreeStore.Store<V>
    var root: nat
    ghost var tree: Tree<V>

    ghost predicate Valid()
      reads this, store, store.repr
    {
      && this !in store.repr && store.Valid()
      && Standing(store.heap, store.next, root, tree, Flat(tree), store.order, Height(tree))
    }

    /** The map that the tree represents. */
    ghost function Model(): map<int, V>
      reads this
    {
      MapOf(Flat(tree))
    }

    constructor (order: nat)
      requires 3 <= order
      ensures Valid() && Model() == map[] && store.order == order && fresh(store) && fresh(store.repr)
    {
      store := new BTreeStore.Store(order);
      root, tree := 0, Nil;
    }

    /** The cell of the value of `k`, if the key is in the tree. */
    method Find(k: int) returns (r: Option<Cell>, ghost fs: seq<Frame<V>>, ghost t: Tree<V>)
      requires Valid()
      ensures r.Some? <==> k in Model()
      ensures r.Some? ==> Located(store.heap, store.order, tree, k, r.value.addr, r.value.i, fs, t)
      ensures r.Some? ==> r.value.i < |t.vals| && t.vals[r.value.i] == Model()[k]
    {
      var cur := root;
      fs, t := [], tree;
      SearchBegin(store.heap, store.next, root, tree, store.order, k);
      while cur != 0
        invariant cur == Root(t) && Searching(store.heap, store.order, tree, k, fs, t)
        decreases t
      {
        SearchNode(store.heap, store.order, tree, k, fs, t);
        var i, found := store.KeyIndexIn(cur, k);
        if found {
          SearchFinds(store.heap, store.order, tree, k, fs, t, i);
          return Some(Cell(cur, i)), fs, t;
        }
        SearchStep(store.heap, store.order, tree, k, fs, t, i);
        cur := store.KidOf(cur, i);
        fs, t := fs + [Frame(t, i)], t.kids[i];
      }
      RootNil(store.heap, t);
      SearchFails(store.heap, store.order, tree, k, fs);
      r := None;
    }

    method Member(k: int) returns (r: bool)
      requires Valid()
      ensures r <==> k in Model()
    {
      var c, _, _ := Find(k);
      r := c.Some?;
    }

    /** Replaces the value in a cell. */
    method Overwrite(c: Cell, ghost k: int, v: V, ghost fs: seq<Frame<V>>, ghost t: Tree<V>)
      requires Valid()
      requires Located(store.heap, store.order, tree, k, c.addr, c.i, fs, t)
      modifies this`tree, store`heap, store.repr
      ensures Valid()
      ensures Model() == old(Model())[k := v] && Height(tree) == old(Height(tree)) && store.repr == old(store.repr)
    {
      Overwritten(store.heap, store.next, root, tree, store.order, k, v, c.addr, c.i, fs, t);
      tree := Plug(fs, t.(vals := t.vals[c.i := v]));
      store.SetVal(c.addr, c.i, v);
    }

    /** The address stored in a place. */
    method Deref(p: Place, ghost fs: seq<Frame<V>>, ghost t: Tree<V>) returns (a: nat)
      requires store.Valid() && Path(fs) && p == PlaceOf(fs)
      requires Stored(store.heap, Plug(fs, t)) && root == Root(Plug(fs, t))
      ensures a == Root(t)
    {
      match p
      case Top => a := root;
      case Kid(parent, i) =>
        LastOnPath(store.heap, fs, t);
        a := store.KidOf(parent, i);
    }

    /** One step of the way down, to child `i`. */
    method StepDown(path: array<Place>, pathKeys: array<nat>, cur: nat, node: nat, i: nat, ghost k: int,
        ghost fs: seq<Frame<V>>, ghost t: Tree<V>) returns (kid: nat)
      requires Valid()
      requires path !in store.repr && pathKeys !in store.repr && path.Length == Height(tree) + 1
        && pathKeys.Length == Height(tree)
      requires Searching(store.heap, store.order, tree, k, fs, t) && Recorded(path[..], fs) && Noted(pathKeys[..], fs)
      requires cur == |fs| && t.Tree? && node == t.addr && i == BTreeNode.SlotFor(t.keys, k)
      requires !(i < |t.keys| && t.keys[i] == k)
      modifies path, pathKeys
      ensures i < |t.kids| && kid == Root(t.kids[i]) && cur < Height(tree)
      ensures Valid()
      ensures Searching(store.heap, store.order, tree, k, fs + [Frame(t, i)], t.kids[i])
      ensures Recorded(path[..], fs + [Frame(t, i)])
      ensures Noted(pathKeys[..], fs + [Frame(t, i)])
    {
      SearchNode(store.heap, store.order, tree, k, fs, t);
      SearchStep(store.heap, store.order, tree, k, fs, t, i);
      kid := store.KidOf(node, i);
      Note(path, pathKeys, cur, node, i, fs, Frame(t, i));
    }

    method Note(path: array<Place>, pathKeys: array<nat>, cur: nat, node: nat, i: nat, ghost fs: seq<Frame<V>>,
        ghost f: Frame<V>)
      requires Valid()
      requires path !in store.repr && pathKeys !in store.repr && cur + 1 < path.Length && cur < pathKeys.Length
      requires cur == |fs| && Framed(f) && node == f.node.addr && i == f.i
      requires Recorded(path[..], fs) && Noted(pathKeys[..], fs)
      modifies path, pathKeys
      ensures Valid()
      ensures Recorded(path[..], fs + [f])
      ensures Noted(pathKeys[..], fs + [f])
    {
      RecordedStep(path[..], fs, f);
      NotedStep(pathKeys[..], fs, f);
      ghost var p, n := path[..], pathKeys[..];
      pathKeys[cur] := i;
      path[cur + 1] := Kid(node, i);
      assert path[..] == p[cur + 1 := Kid(node, i)] && pathKeys[..] == n[cur := i];
    }

    /** Goes down to `k` or the place where it belongs, recording the places passed and the indices
        taken. */
    method Descent(path: array<Place>, pathKeys: array<nat>, k: int)
      returns (node: nat, i: nat, cur: nat, ghost fs: seq<Frame<V>>, ghost t: Tree<V>)
      requires Valid()
      requires root != 0 && path.Length == Height(tree) + 1 && pathKeys.Length == Height(tree)
      requires path !in store.repr && pathKeys !in store.repr
      modifies path, pathKeys
      ensures Valid()
      ensures node != 0 ==> Located(store.heap, store.order, tree, k, node, i, fs, t)
      ensures node != 0 ==> k in Model() && !FullPath(tree, k, store.order)
      ensures node == 0 ==> Reached(tree, store.order, k, fs)
      ensures node == 0 ==> cur == |fs| == Height(tree) && Recorded(path[..], fs) && k !in Model()
      ensures node == 0 ==> Noted(pathKeys[..], fs)
      ensures node == 0 ==> (FullPath(tree, k, store.order) <==> AllFull(fs, 0, store.order))
    {
      path[0] := Top;
      cur, i, fs, t := 0, 0, [], tree;
      SearchBegin(store.heap, store.next, root, tree, store.order, k);
      node := Deref(path[cur], fs, t);
      while node != 0
        invariant cur == |fs| && node == Root(t) && |fs| <= Height(tree)
        invariant Searching(store.heap, store.order, tree, k, fs, t)
        invariant Recorded(path[..], fs)
        invariant Noted(pathKeys[..], fs)
        invariant Valid()
        decreases t
      {
        SearchNode(store.heap, store.order, tree, k, fs, t);
        var found;
        i, found := store.KeyIndexIn(node, k);
        if found {
          SearchFinds(store.heap, store.order, tree, k, fs, t, i);
          return;
        }
        node := StepDown(path, pathKeys, cur, node, i, k, fs, t);
        cur := cur + 1;
        fs, t := fs + [Frame(t, i)], t.kids[i];
      }
      RootNil(store.heap, t);
      SearchFails(store.heap, store.order, tree, k, fs);
    }

    /** What holds on the way up. */
    ghost predicate OnTheWay(fs: seq<Frame<V>>, l: Tree<V>, k: int, v: V, r: Tree<V>, entries: seq<Entry<V>>, h: nat)
      reads this, store, store.repr
    {
      && this !in store.repr && store.Valid()
      && Climbing(store.heap, store.next, root, fs, l, k, v, r, entries, store.order, h)
    }

    /** The insertion is complete with the tree `t`. */
    ghost predicate Complete(t: Tree<V>, entries: seq<Entry<V>>, h: nat)
      reads this, store, store.repr
    {
      && this !in store.repr && store.Valid()
      && Standing(store.heap, store.next, root, t, entries, store.order, h)
    }

    /** One step of the way up: enters the key and the tree right of it in the last node of the path;
        `l` is the complete tree if the key fits, and else the left half that stays on the path. */
    method InsertOnPath(node: nat, k: int, v: V, b: nat, ghost up: seq<Frame<V>>, ghost f: Frame<V>,
        ghost l0: Tree<V>, ghost r0: Tree<V>, ghost entries: seq<Entry<V>>, ghost h: nat)
      returns (right: nat, medK: int, medV: V, ghost l: Tree<V>, ghost r: Tree<V>)
      requires OnTheWay(up + [f], l0, k, v, r0, entries, h)
      requires f.node.Tree? && node == f.node.addr && b == Root(r0)
      modifies store, store.repr
      ensures forall o :: o in store.repr ==> o in old(store.repr) || fresh(o)
      ensures right == 0 <==> |f.node.keys| < store.order - 1
      ensures right == 0 ==> Complete(l, entries, h)
      ensures right != 0 ==> |f.node.keys| == store.order - 1 && right == Root(r)
      ensures right != 0 ==> OnTheWay(up, l, medK, medV, r, entries, h)
    {
      ghost var heap, next, order := store.heap, store.next, store.order;
      ClimbNode(heap, next, root, up, f, l0, k, v, r0, entries, order, h);
      ghost var g := BTreeGrowth.Grown(Fill(f, l0), f.i, k, v, r0);
      right, medK, medV := store.InsertBr(node, k, v, b);
      if right == 0 {
        ClimbFit(heap, next, root, up, f, l0, k, v, r0, entries, order, h);
        l, r := Plug(up, g), Nil;
      } else {
        ClimbSplit(heap, next, root, up, f, l0, k, v, r0, entries, order, h);
        BTreeGrowth.RecHalves(g, order / 2, right);
        l, r := BTreeGrowth.LeftHalf(g, order / 2), BTreeGrowth.RightHalf(g, order / 2, right);
      }
    }

    /** Enters the key in the node that the place recorded for this level leads to. */
    method ClimbStep(path: array<Place>, cur: nat, k: int, v: V, b: nat, ghost fs: seq<Frame<V>>,
        ghost l0: Tree<V>, ghost r0: Tree<V>, ghost entries: seq<Entry<V>>, ghost h: nat)
      returns (right: nat, medK: int, medV: V, ghost l: Tree<V>, ghost r: Tree<V>)
      requires Recorded(path[..], fs)
      requires 0 < cur <= |fs| && path !in store.repr && b == Root(r0)
      requires OnTheWay(fs[..cur], l0, k, v, r0, entries, h)
      modifies store, store.repr
      ensures forall o :: o in store.repr ==> o in old(store.repr) || fresh(o)
      ensures path !in store.repr && path[..] == old(path[..]) && fs[cur - 1].node.Tree?
      ensures right == 0 ==> |fs[cur - 1].node.keys| < store.order - 1 && Complete(l, entries, h)
      ensures right != 0 ==> |fs[cur - 1].node.keys| == store.order - 1 && right == Root(r)
      ensures right != 0 ==> OnTheWay(fs[..cur - 1], l, medK, medV, r, entries, h)
    {
      ghost var up, f := fs[..cur - 1], fs[cur - 1];
      Prefix(fs, cur);
      ClimbNode(store.heap, store.next, root, up, f, l0, k, v, r0, entries, store.order, h);
      var node := Deref(path[cur - 1], up, Fill(f, l0));
      right, medK, medV, l, r := InsertOnPath(node, k, v, b, up, f, l0, r0, entries, h);
    }

    /** Comes back up along the path, entering the key in the last node and, after each split, the
        median in the node above. */
    method Climb(path: array<Place>, depth: nat, k: int, v: V, ghost fs: seq<Frame<V>>,
        ghost entries: seq<Entry<V>>, ghost h: nat)
      returns (done: bool, insK: int, insV: V, insB: nat, ghost l: Tree<V>, ghost r: Tree<V>)
      requires Recorded(path[..], fs)
      requires depth == |fs| && path !in store.repr
      requires OnTheWay(fs, Nil, k, v, Nil, entries, h)
      modifies store, store.repr
      ensures forall o :: o in store.repr ==> o in old(store.repr) || fresh(o)
      ensures done <==> !AllFull(fs, 0, store.order)
      ensures done ==> Complete(l, entries, h)
      ensures !done ==> insB == Root(r) && OnTheWay(fs[..0], l, insK, insV, r, entries, h)
    {
      insK, insV, insB := k, v, 0;
      l, r := Nil, Nil;
      var cur := depth;
      assert fs[..cur] == fs;
      while cur > 0
        invariant cur <= |fs| && insB == Root(r) && path !in store.repr
        invariant forall o :: o in store.repr ==> o in old(store.repr) || fresh(o)
        invariant Recorded(path[..], fs)
        invariant OnTheWay(fs[..cur], l, insK, insV, r, entries, h)
        invariant AllFull(fs, cur, store.order)
      {
        var right, medK, medV;
        right, medK, medV, l, r := ClimbStep(path, cur, insK, insV, insB, fs, l, r, entries, h);
        AllFullStep(fs, cur, store.order);
        if right == 0 {
          done := true;
          return;
        }
        insK, insV, insB := medK, medV, right;
        cur := cur - 1;
      }
      done := false;
    }

    /** A root of one key over two trees of the same height completes the tree. */
    method MakeRoot(l: nat, r: nat, k: int, v: V, ghost lt: Tree<V>, ghost rt: Tree<V>,
        ghost entries: seq<Entry<V>>, ghost h: nat)
      requires OnTheWay([], lt, k, v, rt, entries, h)
      requires l == Root(lt) && r == Root(rt)
      modifies this`root, this`tree, store
      ensures forall o :: o in store.repr ==> o in old(store.repr) || fresh(o)
      ensures Height(tree) == h + 1 && Flat(tree) == entries
      ensures Valid()
    {
      ClimbTop(store.heap, store.next, root, [], lt, k, v, rt, entries, store.order, h);
      var height := 0;
      if l != 0 {
        height := store.HeightOf(l);
      }
      var top := store.NewNode(height + 1, l, r, k, v);
      root, tree := top, Tree(top, h + 1, [k], [v], [lt, rt]);
    }

    /** The way up, with a new root at its end if the old one was split. */
    method Up(path: array<Place>, depth: nat, k: int, v: V, ghost fs: seq<Frame<V>>)
      requires Valid()
      requires Reached(tree, store.order, k, fs)
      requires Recorded(path[..], fs)
      requires depth == |fs| == Height(tree) && path !in store.repr
      modifies this, store, store.repr
      ensures Valid()
      ensures Model() == old(Model())[k := v]
      ensures forall o :: o in store.repr ==> o in old(store.repr) || fresh(o)
      ensures Height(tree) == old(Height(tree)) + if AllFull(fs, 0, store.order) then 1 else 0
    {
      ghost var h, entries := Height(tree), Pre(fs) + [Entry(k, v)] + Post(fs);
      Begin(store.heap, store.next, root, tree, store.order, k, v, fs);
      var done, insK, insV, insB, l, r := Climb(path, depth, k, v, fs, entries, h);
      if done {
        tree := l;
      } else {
        TopLevel(store.heap, store.next, root, fs, l, insK, insV, r, entries, store.order, h);
        MakeRoot(root, insB, insK, insV, l, r, entries, h);
      }
    }

    /** Inserts the key, or replaces its value; the height grows exactly when the key is new and
        every node on the way to its place is full. */
    method Insert(k: int, v: V)
      requires Valid()
      modifies this, store, store.repr
      ensures Valid()
      ensures forall o :: o in store.repr ==> o in old(store.repr) || fresh(o)
      ensures Model() == old(Model())[k := v]
      ensures Height(tree) == old(Height(tree)) + if FullPath(old(tree), k, store.order) then 1 else 0
    {
      if root == 0 {
        EmptyBegin(store.heap, store.next, root, tree, store.order, k, v);
        MakeRoot(0, 0, k, v, Nil, Nil, [Entry(k, v)], 0);
        return;
      }
      var height := store.HeightOf(root);
      var path := new Place[height + 1];
      var pathKeys := new nat[height];
      var node, i, cur, fs, t := Descent(path, pathKeys, k);
      if node != 0 {
        Overwrite(Cell(node, i), k, v, fs, t);
        return;
      }
      Up(path, cur, k, v, fs);
    }
  }
}
