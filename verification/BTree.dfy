/**
 B-trees as values: their entries in order, their shape, and the search for a key.  Every node
 carries its address, so that a tree also says which memory it occupies.
 */
module BTree {
  import BTreeNode

  datatype Tree<V> = Nil | Tree(addr: nat, height: nat, keys: seq<int>, vals: seq<V>, kids: seq<Tree<V>>)

  datatype Entry<V> = Entry(key: int, val: V)

  ghost predicate Sound<V>(t: Tree<V>) {
    t.Tree? && |t.vals| == |t.keys| && |t.kids| == |t.keys| + 1
  }

  /** The entries of a tree from left to right. */
  ghost function Flat<V>(t: Tree<V>): seq<Entry<V>>
    decreases t, if t.Tree? then |t.keys| + 1 else 0
  {
    if !Sound(t) then [] else Flat(t.kids[0]) + After(t, 0)
  }

  /** The entries of a node right of its child `i`. */
  ghost function After<V>(t: Tree<V>, i: nat): seq<Entry<V>>
    requires Sound(t) && i <= |t.keys|
    decreases t, |t.keys| - i
  {
    if i == |t.keys| then [] else [Entry(t.keys[i], t.vals[i])] + Flat(t.kids[i + 1]) + After(t, i + 1)
  }

  /** The entries of a node left of its child `i`. */
  ghost function Before<V>(t: Tree<V>, i: nat): seq<Entry<V>>
    requires Sound(t) && i <= |t.keys|
    decreases i
  {
    if i == 0 then [] else Before(t, i - 1) + Flat(t.kids[i - 1]) + [Entry(t.keys[i - 1], t.vals[i - 1])]
  }

  lemma {:induction false} Around<V>(t: Tree<V>, i: nat)
    requires Sound(t) && i <= |t.keys|
    ensures Flat(t) == Before(t, i) + Flat(t.kids[i]) + After(t, i)
    decreases i
  {
    if i > 0 { Around(t, i - 1); }
  }

  lemma {:induction false} BeforeSame<V>(t: Tree<V>, u: Tree<V>, i: nat)
    requires Sound(t) && Sound(u) && i <= |t.keys| && i <= |u.keys|
    requires t.keys[..i] == u.keys[..i] && t.vals[..i] == u.vals[..i] && t.kids[..i] == u.kids[..i]
    ensures Before(t, i) == Before(u, i)
    decreases i
  {
    if i > 0 {
      assert t.keys[..i - 1] == t.keys[..i][..i - 1] && u.keys[..i - 1] == u.keys[..i][..i - 1];
      assert t.vals[..i - 1] == t.vals[..i][..i - 1] && u.vals[..i - 1] == u.vals[..i][..i - 1];
      assert t.kids[..i - 1] == t.kids[..i][..i - 1] && u.kids[..i - 1] == u.kids[..i][..i - 1];
      BeforeSame(t, u, i - 1);
      assert t.keys[i - 1] == t.keys[..i][i - 1] && t.vals[i - 1] == t.vals[..i][i - 1]
        && t.kids[i - 1] == t.kids[..i][i - 1];
    }
  }

  lemma {:induction false} AfterSame<V>(t: Tree<V>, i: nat, u: Tree<V>, j: nat)
    requires Sound(t) && Sound(u) && i <= |t.keys| && j <= |u.keys|
    requires t.keys[i..] == u.keys[j..] && t.vals[i..] == u.vals[j..] && t.kids[i + 1..] == u.kids[j + 1..]
    ensures After(t, i) == After(u, j)
    decreases |t.keys| - i
  {
    assert |t.keys[i..]| == |u.keys[j..]|;
    if i < |t.keys| {
      assert t.keys[i + 1..] == t.keys[i..][1..] && u.keys[j + 1..] == u.keys[j..][1..];
      assert t.vals[i + 1..] == t.vals[i..][1..] && u.vals[j + 1..] == u.vals[j..][1..];
      assert t.kids[i + 2..] == t.kids[i + 1..][1..] && u.kids[j + 2..] == u.kids[j + 1..][1..];
      AfterSame(t, i + 1, u, j + 1);
      assert t.keys[i] == t.keys[i..][0] && t.vals[i] == t.vals[i..][0] && t.kids[i + 1] == t.kids[i + 1..][0];
    }
  }

  // ----- Changes of one node -----

  ghost function SlotsOf<V>(t: Tree<V>): BTreeNode.Slots<V, Tree<V>>
    requires t.Tree?
  {
    BTreeNode.Slots(t.keys, t.vals, t.kids)
  }

  ghost function WithSlots<V>(addr: nat, height: nat, s: BTreeNode.Slots<V, Tree<V>>): Tree<V> {
    Tree(addr, height, s.keys, s.vals, s.kids)
  }

  /** Entering a key with its right subtree puts its entries right behind child `i`. */
  lemma {:induction false} FlatInserted<V>(t: Tree<V>, i: nat, k: int, v: V, b: Tree<V>)
    requires Sound(t) && i <= |t.keys|
    ensures var u := WithSlots(t.addr, t.height, BTreeNode.Inserted(SlotsOf(t), i, k, v, b));
      Sound(u) && Flat(u) == Before(t, i) + Flat(t.kids[i]) + [Entry(k, v)] + Flat(b) + After(t, i)
  {
    var u := WithSlots(t.addr, t.height, BTreeNode.Inserted(SlotsOf(t), i, k, v, b));
    assert u.keys[..i] == t.keys[..i] && u.vals[..i] == t.vals[..i] && u.kids[..i] == t.kids[..i];
    assert u.keys[i + 1..] == t.keys[i..] && u.vals[i + 1..] == t.vals[i..] && u.kids[i + 2..] == t.kids[i + 1..];
    BeforeSame(t, u, i);
    AfterSame(t, i, u, i + 1);
    Around(u, i);
    assert After(u, i) == [Entry(k, v)] + Flat(b) + After(u, i + 1);
    Regroup(Before(t, i), Flat(t.kids[i]), Entry(k, v), Flat(b), After(t, i));
  }

  lemma Regroup<T>(a: seq<T>, b: seq<T>, x: T, c: seq<T>, d: seq<T>)
    ensures a + b + ([x] + c + d) == (a + b) + [x] + (c + d)
    ensures a + b + [] == a + b
    ensures a + b + ([x] + c + d) == a + b + [x] + c + d
  {
  }

  /** Cutting a node at an entry keeps the order of the entries. */
  lemma {:induction false} FlatCut<V>(t: Tree<V>, m: nat, addr: nat, addr': nat, height: nat)
    requires Sound(t) && m < |t.keys|
    ensures var l, r := WithSlots(addr, height, BTreeNode.LeftPart(SlotsOf(t), m)),
      WithSlots(addr', height, BTreeNode.RightPart(SlotsOf(t), m));
      Sound(l) && Sound(r) && Flat(t) == Flat(l) + [Entry(t.keys[m], t.vals[m])] + Flat(r)
  {
    var l := WithSlots(addr, height, BTreeNode.LeftPart(SlotsOf(t), m));
    var r := WithSlots(addr', height, BTreeNode.RightPart(SlotsOf(t), m));
    Around(t, m);
    Around(l, m);
    assert l.keys[..m] == t.keys[..m] && l.vals[..m] == t.vals[..m] && l.kids[..m] == t.kids[..m];
    BeforeSame(t, l, m);
    assert r.keys[0..] == t.keys[m + 1..] && r.vals[0..] == t.vals[m + 1..] && r.kids[1..] == t.kids[m + 2..];
    AfterSame(t, m + 1, r, 0);
    assert l.kids[m] == t.kids[m] && r.kids[0] == t.kids[m + 1] && After(l, m) == [];
    Regroup(Before(t, m), Flat(t.kids[m]), Entry(t.keys[m], t.vals[m]), Flat(t.kids[m + 1]), After(t, m + 1));
  }

  ghost function WithKid<V>(t: Tree<V>, i: nat, c: Tree<V>): Tree<V>
    requires t.Tree? && i < |t.kids|
  {
    t.(kids := t.kids[i := c])
  }

  lemma {:induction false} FlatWithKid<V>(t: Tree<V>, i: nat, c: Tree<V>)
    requires Sound(t) && i <= |t.keys|
    ensures Before(WithKid(t, i, c), i) == Before(t, i) && After(WithKid(t, i, c), i) == After(t, i)
    ensures Flat(WithKid(t, i, c)) == Before(t, i) + Flat(c) + After(t, i)
  {
    var u := WithKid(t, i, c);
    BeforeSame(t, u, i);
    AfterSame(t, i, u, i);
    Around(u, i);
  }

  lemma {:induction false} FlatWithVal<V>(t: Tree<V>, i: nat, v: V)
    requires Sound(t) && i < |t.keys|
    ensures var xs, ys := Before(t, i) + Flat(t.kids[i]), Flat(t.kids[i + 1]) + After(t, i + 1);
      && Flat(t) == xs + [Entry(t.keys[i], t.vals[i])] + ys
      && Flat(t.(vals := t.vals[i := v])) == xs + [Entry(t.keys[i], v)] + ys
  {
    var u := t.(vals := t.vals[i := v]);
    Around(t, i);
    Around(u, i);
    BeforeSame(t, u, i);
    AfterSame(t, i + 1, u, i + 1);
    Regroup(Before(t, i), Flat(t.kids[i]), Entry(t.keys[i], t.vals[i]), Flat(t.kids[i + 1]), After(t, i + 1));
    Regroup(Before(t, i), Flat(t.kids[i]), Entry(t.keys[i], v), Flat(t.kids[i + 1]), After(t, i + 1));
  }

  // ----- Entries in ascending order -----

  ghost predicate Ascending<V>(xs: seq<Entry<V>>) {
    forall i, j :: 0 <= i < j < |xs| ==> xs[i].key < xs[j].key
  }

  ghost predicate AllBelow<V>(xs: seq<Entry<V>>, k: int) {
    forall i :: 0 <= i < |xs| ==> xs[i].key < k
  }

  ghost predicate AllAbove<V>(xs: seq<Entry<V>>, k: int) {
    forall i :: 0 <= i < |xs| ==> k < xs[i].key
  }

  /** The map that a list of entries stands for. */
  ghost function MapOf<V>(xs: seq<Entry<V>>): map<int, V> {
    if xs == [] then map[] else MapOf(xs[..|xs| - 1])[xs[|xs| - 1].key := xs[|xs| - 1].val]
  }

  lemma {:induction false} MapOfJoin<V>(xs: seq<Entry<V>>, ys: seq<Entry<V>>)
    ensures MapOf(xs + ys) == MapOf(xs) + MapOf(ys)
    decreases |ys|
  {
    if ys == [] {
      assert xs + ys == xs;
    } else {
      var n := |ys| - 1;
      assert (xs + ys)[..|xs + ys| - 1] == xs + ys[..n];
      MapOfJoin(xs, ys[..n]);
    }
  }

  lemma {:induction false} KeysBelow<V>(xs: seq<Entry<V>>, k: int)
    ensures AllBelow(xs, k) ==> forall j :: j in MapOf(xs) ==> j < k
    ensures AllAbove(xs, k) ==> forall j :: j in MapOf(xs) ==> k < j
    decreases |xs|
  {
    if xs != [] { KeysBelow(xs[..|xs| - 1], k); }
  }

  /** An entry put between smaller and larger ones is an update of the map, whether it replaces one
      or not. */
  lemma {:induction false} MapOfInsert<V>(xs: seq<Entry<V>>, k: int, v: V, ys: seq<Entry<V>>)
    requires AllBelow(xs, k) && AllAbove(ys, k)
    ensures MapOf(xs + [Entry(k, v)] + ys) == MapOf(xs + ys)[k := v]
    ensures k !in MapOf(xs + ys) && MapOf(xs + [Entry(k, v)] + ys)[k] == v
  {
    MapOfJoin(xs, ys);
    MapOfJoin(xs + [Entry(k, v)], ys);
    MapOfJoin(xs, [Entry(k, v)]);
    KeysBelow(xs, k);
    KeysBelow(ys, k);
    assert MapOf([Entry(k, v)]) == map[k := v] by { assert [Entry(k, v)][..0] == []; }
    assert MapOf(xs + [Entry(k, v)] + ys) == MapOf(xs) + map[k := v] + MapOf(ys);
  }

  lemma {:induction false} AscendingJoin<V>(xs: seq<Entry<V>>, k: int, v: V, ys: seq<Entry<V>>)
    requires Ascending(xs + ys) && AllBelow(xs, k) && AllAbove(ys, k)
    ensures Ascending(xs + [Entry(k, v)] + ys)
  {
    assert forall i :: 0 <= i < |xs| ==> xs[i] == (xs + ys)[i];
    assert forall i :: 0 <= i < |ys| ==> ys[i] == (xs + ys)[|xs| + i];
    assert Ascending(xs) && Ascending(ys);
  }

  lemma {:induction false} AscendingSplit<V>(xs: seq<Entry<V>>, k: int, v: V, ys: seq<Entry<V>>)
    requires Ascending(xs + [Entry(k, v)] + ys)
    ensures AllBelow(xs, k) && AllAbove(ys, k) && Ascending(xs) && Ascending(ys) && Ascending(xs + ys)
  {
    var zs := xs + [Entry(k, v)] + ys;
    assert zs[|xs|] == Entry(k, v);
    forall i | 0 <= i < |xs| ensures xs[i] == zs[i] && xs[i].key < k {}
    forall i | 0 <= i < |ys| ensures ys[i] == zs[|xs| + 1 + i] && k < ys[i].key {}
  }

  // ----- Shape -----

  /** The fewest keys a node other than the root may have. */
  function MinKeys(order: nat): int { order - order / 2 - 1 }

  /** All paths down to nil have the length of the height field, and every node has a permitted
      number of keys. */
  ghost predicate Balanced<V>(t: Tree<V>, order: nat, h: nat, root: bool)
    decreases h
  {
    if t.Nil? then h == 0
    else
      && h > 0 && t.height == h && Sound(t) && t.addr > 0
      && (if root then 1 else MinKeys(order)) <= |t.keys| <= order - 1
      && forall i :: 0 <= i < |t.kids| ==> Balanced(t.kids[i], order, h - 1, false)
  }

}
