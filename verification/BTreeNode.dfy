/**
 One node of a B-tree: the search for a key in it and the insertion of a key together with the
 subtree to its right, which may split the node.
 */
module BTreeNode {

  /** The used part of the arrays of a node. */
  datatype Slots<V, C> = Slots(keys: seq<int>, vals: seq<V>, kids: seq<C>)

  ghost predicate Shaped<V, C>(s: Slots<V, C>) {
    |s.vals| == |s.keys| && |s.kids| == |s.keys| + 1
  }

  /** `slot` is where `k` is or belongs among the keys. */
  ghost predicate IsSlot(keys: seq<int>, k: int, slot: nat) {
    slot <= |keys| && (forall j :: 0 <= j < slot ==> keys[j] < k) && (slot < |keys| ==> keys[slot] >= k)
  }

  function SlotFor(keys: seq<int>, k: int): (slot: nat)
    ensures IsSlot(keys, k, slot)
  {
    if keys == [] || keys[0] >= k then 0 else 1 + SlotFor(keys[1..], k)
  }

  lemma SlotUnique(keys: seq<int>, k: int, slot: nat, slot': nat)
    requires IsSlot(keys, k, slot) && IsSlot(keys, k, slot')
    ensures slot == slot'
  {
  }

  /** The node with the new key, value and right subtree entered at `slot`. */
  function Inserted<V, C>(s: Slots<V, C>, slot: nat, k: int, v: V, b: C): Slots<V, C>
    requires slot <= |s.keys| && slot <= |s.vals| && slot < |s.kids|
  {
    Slots(Gap(s.keys, slot, k), Gap(s.vals, slot, v), Gap(s.kids, slot + 1, b))
  }

  function Gap<T>(s: seq<T>, slot: nat, x: T): seq<T>
    requires slot <= |s|
  {
    s[..slot] + [x] + s[slot..]
  }

  /** What lies left of entry `m`, and what lies right of it. */
  function LeftPart<V, C>(s: Slots<V, C>, m: nat): Slots<V, C>
    requires m <= |s.keys| && m <= |s.vals| && m < |s.kids|
  {
    Slots(s.keys[..m], s.vals[..m], s.kids[..m + 1])
  }

  function RightPart<V, C>(s: Slots<V, C>, m: nat): Slots<V, C>
    requires m < |s.keys| && m < |s.vals| && m + 1 < |s.kids|
  {
    Slots(s.keys[m + 1..], s.vals[m + 1..], s.kids[m + 1..])
  }

  lemma GapCut<T>(s: seq<T>, slot: nat, x: T, m: nat)
    requires slot <= |s| && m <= |s|
    ensures slot < m ==> Gap(s, slot, x)[..m] == Gap(s[..m - 1], slot, x) && Gap(s, slot, x)[m..] == s[m - 1..]
    ensures slot >= m ==> Gap(s, slot, x)[..m] == s[..m] && Gap(s, slot, x)[m..] == Gap(s[m..], slot - m, x)
    ensures slot < m ==> Gap(s, slot, x)[m] == s[m - 1]
    ensures slot >= m ==> Gap(s, slot, x)[m] == if slot == m then x else s[m]
  {
  }

  /** The two halves of a full node after an insertion, by the side that the new key falls on. */
  lemma {:induction false} Halves<V, C>(s: Slots<V, C>, slot: nat, k: int, v: V, b: C, med: nat)
    requires Shaped(s) && slot <= |s.keys| && 0 < med < |s.keys|
    ensures var whole := Inserted(s, slot, k, v, b);
      var left, right := LeftPart(whole, med), RightPart(whole, med);
      if slot < med then
        && left == Inserted(LeftPart(s, med - 1), slot, k, v, b)
        && right == Slots(s.keys[med..], s.vals[med..], s.kids[med..])
        && whole.keys[med] == s.keys[med - 1] && whole.vals[med] == s.vals[med - 1]
      else if slot == med then
        && left == LeftPart(s, med)
        && right == Slots(s.keys[med..], s.vals[med..], [b] + s.kids[med + 1..])
        && whole.keys[med] == k && whole.vals[med] == v
      else
        && left == LeftPart(s, med)
        && right == Inserted(RightPart(s, med), slot - (med + 1), k, v, b)
        && whole.keys[med] == s.keys[med] && whole.vals[med] == s.vals[med]
  {
    GapCut(s.keys, slot, k, med);
    GapCut(s.keys, slot, k, med + 1);
    GapCut(s.vals, slot, v, med);
    GapCut(s.vals, slot, v, med + 1);
    GapCut(s.kids, slot + 1, b, med + 1);
  }

  /** The first index whose key is not below `k`. */
  method KeyIndex(ar: array<int>, n: nat, k: int) returns (slot: nat)
    requires n <= ar.Length
    ensures IsSlot(ar[..n], k, slot)
  {
    slot := 0;
    while slot < n && ar[slot] < k
      invariant slot <= n && forall j :: 0 <= j < slot ==> ar[j] < k
    {
      slot := slot + 1;
    }
  }

  ghost predicate Filled<T>(a: array<T>, s: seq<T>)
    reads a
  {
    a.Length == |s| && forall i {:trigger a[i]} :: 0 <= i < |s| ==> a[i] == s[i]
  }

  class Node<V(0), C(0)> {
    var nbKeys: nat
    var height: nat
    const order: nat
    const keys: array<int>
    const vals: array<V>
    const kids: array<C>

    ghost predicate Valid()
      reads this
    {
      && 3 <= order && keys.Length == order - 1 && vals.Length == order - 1 && kids.Length == order
      && nbKeys <= order - 1
      && Apart()
    }

    ghost predicate Apart() {
      var k: object, v: object, c: object := keys, vals, kids;
      k != v && v != c && k != c
    }

    ghost function Arrays(): set<object> {
      var k: object, v: object, c: object := keys, vals, kids;
      {k, v, c}
    }

    /** The whole arrays. */
    function Whole(): (s: Slots<V, C>)
      reads this, keys, vals, kids
      requires Valid()
      ensures Sized(s, order)
    {
      Slots(keys[..], vals[..], kids[..])
    }

    function Contents(): Slots<V, C>
      reads this, keys, vals, kids
      requires Valid()
    {
      LeftPart(Whole(), nbKeys)
    }

    constructor (order: nat, height: nat)
      requires 3 <= order
      ensures Valid() && fresh(Arrays())
      ensures this.order == order && this.height == height && nbKeys == 0
    {
      this.order, this.height, nbKeys := order, height, 0;
      keys := new int[order - 1];
      vals := new V[order - 1];
      kids := new C[order];
    }

    /** A node of one key with the subtrees on both sides. */
    constructor Single(order: nat, height: nat, k: int, v: V, l: C, r: C)
      requires 3 <= order
      ensures Valid() && fresh(Arrays()) && this.order == order && this.height == height
      ensures Contents() == Slots([k], [v], [l, r])
    {
      this.order, this.height, nbKeys := order, height, 1;
      keys := new int[order - 1];
      vals := new V[order - 1];
      kids := new C[order];
      new;
      keys[0] := k;
      vals[0] := v;
      kids[0] := l;
      kids[1] := r;
    }

    /** The arrays hold `w`. */
    ghost predicate Has(w: Slots<V, C>)
      reads keys, vals, kids
    {
      Filled(keys, w.keys) && Filled(vals, w.vals) && Filled(kids, w.kids)
    }

    lemma {:induction false} HasWhole()
      requires Valid()
      ensures Has(Whole())
    {
    }

    lemma {:induction false} HasContents(w: Slots<V, C>)
      requires Valid() && Has(w)
      ensures Sized(w, order) && Contents() == LeftPart(w, nbKeys)
    {
      assert keys[..] == w.keys && vals[..] == w.vals && kids[..] == w.kids;
    }

    /** Writes an entry with the subtree to its right. */
    method SetEntry(i: nat, k: int, v: V, b: C, ghost w: Slots<V, C>)
      requires Valid() && i < order - 1 && Has(w)
      modifies keys, vals, kids
      ensures Has(WithEntry(w, i, k, v, b))
    {
      keys[i] := k;
      vals[i] := v;
      kids[i + 1] := b;
    }

    /** Reads an entry with the subtree to its right. */
    method Entry(i: nat, ghost w: Slots<V, C>) returns (k: int, v: V, b: C)
      requires Valid() && i < order - 1 && Has(w)
      ensures k == w.keys[i] && v == w.vals[i] && b == w.kids[i + 1]
    {
      k, v, b := keys[i], vals[i], kids[i + 1];
    }

    method SetFirst(c: C, ghost w: Slots<V, C>)
      requires Valid() && Has(w)
      modifies kids
      ensures Has(WithFirst(w, c))
    {
      kids[0] := c;
    }

    method SetVal(i: nat, v: V)
      requires Valid() && i < nbKeys
      modifies vals
      ensures Contents() == old(Contents()).(vals := old(Contents()).vals[i := v])
    {
      vals[i] := v;
    }

    /** Moves the entries `slot..n`, each with its right subtree, one place up and writes the new
        entry in the gap. */
    method Shift(n: nat, slot: nat, k: int, v: V, b: C, ghost s: Slots<V, C>) returns (ghost t: Slots<V, C>)
      requires Valid() && slot <= n < order - 1 && Sized(s, order) && Has(s)
      modifies keys, vals, kids
      ensures Has(t)
      ensures IsShifted(s, t, n, slot, k, v, b, order)
    {
      var i := n;
      ShiftedAll(s, slot, n, k, v, b, order);
      while i > slot
        invariant slot <= i <= n
        invariant Has(Shifted(s, i, n))
      {
        ShiftEntry(i, n, s);
        i := i - 1;
      }
      SetEntry(slot, k, v, b, Shifted(s, slot, n));
      t := WithEntry(Shifted(s, slot, n), slot, k, v, b);
    }

    method ShiftEntry(i: nat, ghost n: nat, ghost s: Slots<V, C>)
      requires Valid() && 0 < i <= n < order - 1 && Sized(s, order) && Has(Shifted(s, i, n))
      modifies keys, vals, kids
      ensures Has(Shifted(s, i - 1, n))
    {
      var k, v, b := Entry(i - 1, Shifted(s, i, n));
      SetEntry(i, k, v, b, Shifted(s, i, n));
    }

    /** Copies the entries `from..to` of `other`, each with its right subtree, behind the first
        `at` entries. */
    method CopyFrom(other: Node<V, C>, at: nat, from: nat, to: nat, ghost s: Slots<V, C>, ghost t: Slots<V, C>)
      requires Valid() && other.Valid() && from <= to <= other.order - 1 && at + (to - from) <= order - 1
      requires Arrays() !! other.Arrays() && Sized(s, order) && Sized(t, other.order)
      requires Has(s) && other.Has(t)
      modifies keys, vals, kids
      ensures Has(CopiedSlots(s, at, t, from, to))
      ensures other.Has(t)
    {
      var i := from;
      while i < to
        invariant from <= i <= to
        invariant Has(CopiedSlots(s, at, t, from, i))
        invariant other.Has(t)
      {
        CopyEntry(other, at, from, i, s, t);
        i := i + 1;
      }
    }

    method CopyEntry(other: Node<V, C>, at: nat, from: nat, i: nat, ghost s: Slots<V, C>, ghost t: Slots<V, C>)
      requires Valid() && other.Valid() && from <= i < other.order - 1 && at + (i - from) < order - 1
      requires Arrays() !! other.Arrays() && Sized(s, order) && Sized(t, other.order)
      requires Has(CopiedSlots(s, at, t, from, i)) && other.Has(t)
      modifies keys, vals, kids
      ensures Has(CopiedSlots(s, at, t, from, i + 1))
      ensures other.Has(t)
    {
      var k, v, b := other.Entry(i, t);
      SetEntry(i - from + at, k, v, b, CopiedSlots(s, at, t, from, i));
    }

    /** Inserts key `k` with value `v` so that `b` becomes its right subtree.  A full node is split:
        then the upper part goes to a new node and the median is returned.  `over` is the number of
        entries read past the arrays. */
    method InsertBr(k: int, v: V, b: C)
        returns (right: Node?<V, C>, medK: int, medV: V, ghost slot: nat, ghost over: nat)
      requires Valid()
      modifies this, keys, vals, kids
      ensures Valid() && height == old(height) && IsSlot(old(Contents()).keys, k, slot)
      ensures right == null <==> old(nbKeys) < order - 1
      ensures over == if old(nbKeys) == order - 1 && slot < order / 2 then 1 else 0
      ensures right == null ==> Contents() == Inserted(old(Contents()), slot, k, v, b)
      ensures right != null ==> fresh(right) && fresh(right.Arrays()) && right.Valid()
      ensures right != null ==> right.order == order && right.height == height
      ensures right != null ==>
        var whole, med := Inserted(old(Contents()), slot, k, v, b), order / 2;
        && Contents() == LeftPart(whole, med) && medK == whole.keys[med] && medV == whole.vals[med]
        && right.Contents() == RightPart(whole, med)
    {
      var n := nbKeys;
      var at := KeyIndex(keys, n, k);
      slot := at;
      ghost var s, c := Whole(), Contents();
      HasWhole();
      assert keys[..n] == c.keys;
      if nbKeys < order - 1 {
        MakeSpace(at, k, v, b, s, c);
        return null, k, v, slot, 0;
      }
      right, medK, medV, over := SplitFull(at, k, v, b, s, c);
    }

    /** Enters an entry at place `at` of a node that is not full. */
    method MakeSpace(at: nat, k: int, v: V, b: C, ghost s: Slots<V, C>, ghost c: Slots<V, C>)
      requires Valid() && at <= nbKeys < order - 1 && Sized(s, order) && Has(s) && c == LeftPart(s, nbKeys)
      modifies this`nbKeys, keys, vals, kids
      ensures Valid() && Contents() == Inserted(c, at, k, v, b)
    {
      ghost var t := Shift(nbKeys, at, k, v, b, s);
      nbKeys := nbKeys + 1;
      HasContents(t);
    }

    /** Splits this full node, with the new entry at place `at`. */
    method SplitFull(at: nat, k: int, v: V, b: C, ghost s: Slots<V, C>, ghost c: Slots<V, C>)
      returns (right: Node<V, C>, medK: int, medV: V, ghost over: nat)
      requires Valid() && nbKeys == order - 1 && at < order && Sized(s, order) && Has(s) && c == LeftPart(s, nbKeys)
      modifies this, keys, vals, kids
      ensures Valid() && height == old(height) && over == if at < order / 2 then 1 else 0
      ensures fresh(right) && fresh(right.Arrays()) && right.Valid() && right.order == order && right.height == height
      ensures var whole, med := Inserted(c, at, k, v, b), order / 2;
        && Contents() == LeftPart(whole, med) && medK == whole.keys[med] && medV == whole.vals[med]
        && right.Contents() == RightPart(whole, med)
    {
      right := new Node<V, C>(order, height);
      ghost var s', o';
      medK, medV, s', o', over := Split(right, at, k, v, b, s);
      right.nbKeys := order - order / 2 - 1;
      nbKeys := order / 2;
      HasContents(s');
      right.HasContents(o');
      assert c == s;
    }

    /** Distributes the entries of this full node and the new one over the node and `other`. */
    method Split(other: Node<V, C>, at: nat, k: int, v: V, b: C, ghost s: Slots<V, C>)
      returns (medK: int, medV: V, ghost s': Slots<V, C>, ghost o': Slots<V, C>, ghost over: nat)
      requires Valid() && other.Valid() && Arrays() !! other.Arrays() && order == other.order && at < order
      requires Sized(s, order) && Has(s)
      modifies keys, vals, kids, other.keys, other.vals, other.kids
      ensures Has(s')
      ensures other.Has(o')
      ensures IsSplit(s, s', o', order / 2, at, k, v, b, medK, medV) && over == if at < order / 2 then 1 else 0
    {
      var med := order / 2;
      s', over := s, 0;
      if at < med {
        medK, medV, s', o', over := SplitBelow(other, at, k, v, b, s);
      } else if at == med {
        medK, medV := k, v;
        o', over := BuildUpper(other, b, order - 1, s);
        SplitMiddle(s, o', med, k, v, b);
      } else {
        medK, medV := keys[med], vals[med];
        o' := BuildUpperWith(other, at, k, v, b, s);
        SplitHigh(s, o', med, at, k, v, b);
      }
    }

    /** The case that the new entry goes below the median. */
    method SplitBelow(other: Node<V, C>, at: nat, k: int, v: V, b: C, ghost s: Slots<V, C>)
      returns (medK: int, medV: V, ghost s': Slots<V, C>, ghost o': Slots<V, C>, ghost over: nat)
      requires Valid() && other.Valid() && Arrays() !! other.Arrays() && order == other.order && at < order / 2
      requires Sized(s, order) && Has(s)
      modifies keys, vals, kids, other.keys, other.vals, other.kids
      ensures Has(s')
      ensures other.Has(o')
      ensures IsSplit(s, s', o', order / 2, at, k, v, b, medK, medV) && over == 1
    {
      var med := order / 2;
      medK, medV := keys[med - 1], vals[med - 1];
      o', over := BuildUpper(other, kids[med], order, s);
      s' := Shift(med - 1, at, k, v, b, s);
      SplitLow(s, s', o', med, at, k, v, b);
    }

    /** Copies the entries from the middle to `end` and attaches `b` before them.  From index
        `order - 1` on the loop reads past the arrays and may find any entry there; `over` counts
        these reads. */
    method BuildUpper(other: Node<V, C>, b: C, end: nat, ghost s: Slots<V, C>)
        returns (ghost o': Slots<V, C>, ghost over: nat)
      requires Valid() && other.Valid() && Arrays() !! other.Arrays() && order == other.order
      requires Sized(s, order) && Has(s) && order - 1 <= end <= order
      modifies other.keys, other.vals, other.kids
      ensures Has(s)
      ensures other.Has(o')
      ensures IsUpper(s, o', order / 2, b) && over == end - (order - 1)
    {
      o' := BuildLive(other, b, s);
      over := 0;
      for i := order - 1 to end
        invariant over == i - (order - 1)
        invariant Has(s)
        invariant other.Has(o')
        invariant IsUpper(s, o', order / 2, b)
      {
        o' := CopyPast(other, i, b, s, o');
        over := over + 1;
      }
    }

    /** The rounds of the loop that stay within the arrays. */
    method BuildLive(other: Node<V, C>, b: C, ghost s: Slots<V, C>) returns (ghost o': Slots<V, C>)
      requires Valid() && other.Valid() && Arrays() !! other.Arrays() && order == other.order
      requires Sized(s, order) && Has(s)
      modifies other.keys, other.vals, other.kids
      ensures Has(s)
      ensures other.Has(o')
      ensures IsUpper(s, o', order / 2, b)
    {
      var med := order / 2;
      ghost var o := other.Whole();
      other.HasWhole();
      UpperFrom(o, s, med, b);
      other.CopyFrom(this, 0, med, order - 1, o, s);
      o' := CopiedSlots(o, 0, s, med, order - 1);
      other.SetFirst(b, o');
      o' := WithFirst(o', b);
    }

    /** Copies entry `i` from behind the arrays. */
    method CopyPast(other: Node<V, C>, i: nat, ghost b: C, ghost s: Slots<V, C>, ghost o: Slots<V, C>)
        returns (ghost o': Slots<V, C>)
      requires Valid() && other.Valid() && Arrays() !! other.Arrays() && order == other.order && i == order - 1
      requires Sized(s, order) && Has(s) && other.Has(o) && IsUpper(s, o, order / 2, b)
      modifies other.keys, other.vals, other.kids
      ensures Has(s)
      ensures other.Has(o')
      ensures IsUpper(s, o', order / 2, b)
    {
      var k: int, v: V, c: C := *, *, *;
      OverrunHarmless(s, o, order / 2, b, k, v, c);
      other.SetEntry(i - order / 2, k, v, c, o);
      o' := WithEntry(o, i - order / 2, k, v, c);
    }

    method BuildUpperWith(other: Node<V, C>, at: nat, k: int, v: V, b: C, ghost s: Slots<V, C>)
        returns (ghost o': Slots<V, C>)
      requires Valid() && other.Valid() && Arrays() !! other.Arrays() && order == other.order && order / 2 < at < order
      requires Sized(s, order) && Has(s)
      modifies other.keys, other.vals, other.kids
      ensures Has(s)
      ensures other.Has(o')
      ensures IsUpperWith(s, o', order / 2, at, k, v, b)
    {
      var med := order / 2;
      ghost var o := other.Whole();
      other.HasWhole();
      UpperWith(o, s, med, at, k, v, b);
      BuildLowerRun(other, at, o, s);
      BuildHigherRun(other, at, k, v, b, LowerRun(o, s, med, at), s);
      o' := HigherRun(LowerRun(o, s, med, at), s, med, at, k, v, b);
    }

    method BuildLowerRun(other: Node<V, C>, at: nat, ghost o: Slots<V, C>, ghost s: Slots<V, C>)
      requires Valid() && other.Valid() && Arrays() !! other.Arrays() && order == other.order && order / 2 < at < order
      requires Sized(s, order) && Sized(o, order) && Has(s) && other.Has(o)
      modifies other.keys, other.vals, other.kids
      ensures Has(s)
      ensures other.Has(LowerRun(o, s, order / 2, at))
    {
      var med := order / 2;
      var _, _, c := Entry(med, s);
      other.CopyFrom(this, 0, med + 1, at, o, s);
      other.SetFirst(c, CopiedSlots(o, 0, s, med + 1, at));
    }

    method BuildHigherRun(other: Node<V, C>, at: nat, k: int, v: V, b: C, ghost o: Slots<V, C>, ghost s: Slots<V, C>)
      requires Valid() && other.Valid() && Arrays() !! other.Arrays() && order == other.order && order / 2 < at < order
      requires Sized(s, order) && Sized(o, order) && Has(s) && other.Has(o)
      modifies other.keys, other.vals, other.kids
      ensures Has(s)
      ensures other.Has(HigherRun(o, s, order / 2, at, k, v, b))
    {
      var med := order / 2;
      other.SetEntry(at - (med + 1), k, v, b, o);
      other.CopyFrom(this, at - med, at, order - 1, WithEntry(o, at - (med + 1), k, v, b), s);
    }
  }

  // ----- The effect of the loops on the arrays -----

  ghost predicate Sized<V, C>(s: Slots<V, C>, order: nat) {
    order >= 3 && |s.keys| == order - 1 && |s.vals| == order - 1 && |s.kids| == order
  }

  ghost function WithEntry<V, C>(s: Slots<V, C>, i: nat, k: int, v: V, b: C): (r: Slots<V, C>)
    requires Shaped(s) && i < |s.keys|
    ensures Shaped(r) && |r.keys| == |s.keys|
  {
    Slots(s.keys[i := k], s.vals[i := v], s.kids[i + 1 := b])
  }

  ghost function WithFirst<V, C>(s: Slots<V, C>, b: C): (r: Slots<V, C>)
    requires Shaped(s)
    ensures Shaped(r) && |r.keys| == |s.keys|
  {
    Slots(s.keys, s.vals, s.kids[0 := b])
  }

  /** `s` with the elements from `i` up moved one place, up to place `n`. */
  ghost function Moved<T>(s: seq<T>, i: nat, n: nat): seq<T>
    requires i <= n < |s|
  {
    s[..i + 1] + s[i..n] + s[n + 1..]
  }

  /** The arrays after the entries from `i` up have been moved, from the last one down. */
  ghost function Shifted<V, C>(s: Slots<V, C>, i: nat, n: nat): (r: Slots<V, C>)
    requires Shaped(s) && i <= n < |s.keys|
    ensures Shaped(r) && |r.keys| == |s.keys|
    decreases n - i
  {
    if i == n then s else
    var t := Shifted(s, i + 1, n);
    WithEntry(t, i + 1, t.keys[i], t.vals[i], t.kids[i + 1])
  }

  lemma {:induction false} ShiftedIs<V, C>(s: Slots<V, C>, i: nat, n: nat)
    requires Shaped(s) && i <= n < |s.keys|
    ensures Shifted(s, i, n) == Slots(Moved(s.keys, i, n), Moved(s.vals, i, n), Moved(s.kids, i + 1, n + 1))
    decreases n - i
  {
    if i < n {
      ShiftedIs(s, i + 1, n);
      MovedStep(s.keys, i, n);
      MovedStep(s.vals, i, n);
      MovedStep(s.kids, i + 1, n + 1);
    } else {
      MovedGap(s.keys, n, n, s.keys[n]);
      MovedGap(s.vals, n, n, s.vals[n]);
      MovedGap(s.kids, n + 1, n + 1, s.kids[n + 1]);
    }
  }

  lemma MovedStep<T>(s: seq<T>, i: nat, n: nat)
    requires i < n < |s|
    ensures Moved(s, i + 1, n)[i] == s[i] && Moved(s, i, n) == Moved(s, i + 1, n)[i + 1 := s[i]]
  {
  }

  ghost predicate IsShifted<V, C>(s: Slots<V, C>, t: Slots<V, C>, n: nat, slot: nat, k: int, v: V, b: C, order: nat) {
    && Sized(s, order) && Sized(t, order) && slot <= n < order - 1
    && LeftPart(t, n + 1) == Inserted(LeftPart(s, n), slot, k, v, b)
  }

  lemma {:induction false} ShiftedAll<V, C>(s: Slots<V, C>, slot: nat, n: nat, k: int, v: V, b: C, order: nat)
    requires Sized(s, order) && slot <= n < order - 1
    ensures IsShifted(s, WithEntry(Shifted(s, slot, n), slot, k, v, b), n, slot, k, v, b, order)
  {
    ShiftedIs(s, slot, n);
    MovedGap(s.keys, slot, n, k);
    MovedGap(s.vals, slot, n, v);
    MovedGap(s.kids, slot + 1, n + 1, b);
  }

  lemma MovedGap<T>(s: seq<T>, i: nat, n: nat, x: T)
    requires i <= n < |s|
    ensures Moved(s, n, n) == s && Moved(s, i, n)[i := x][..n + 1] == Gap(s[..n], i, x)
  {
    var t, g := Moved(s, i, n)[i := x][..n + 1], Gap(s[..n], i, x);
    forall j | 0 <= j < n + 1 ensures t[j] == g[j] {
      if j > i { assert t[j] == Moved(s, i, n)[j] == s[j - 1] && g[j] == s[..n][j - 1]; }
    }
  }

  /** `s` with the elements from `at` on overwritten by `t`. */
  ghost function Copied<T>(s: seq<T>, at: nat, t: seq<T>): seq<T>
    requires at + |t| <= |s|
  {
    s[..at] + t + s[at + |t|..]
  }

  /** `s` after the entries `from` to `stop` of `t` have been copied behind its first `at` ones. */
  ghost function CopiedSlots<V, C>(s: Slots<V, C>, at: nat, t: Slots<V, C>, from: nat, stop: nat): (r: Slots<V, C>)
    requires Shaped(s) && Shaped(t) && from <= stop <= |t.keys| && at + (stop - from) <= |s.keys|
    ensures Shaped(r) && |r.keys| == |s.keys|
    decreases stop
  {
    if stop == from then s else
    WithEntry(CopiedSlots(s, at, t, from, stop - 1), stop - 1 - from + at, t.keys[stop - 1], t.vals[stop - 1],
      t.kids[stop])
  }

  lemma {:induction false} CopiedIs<V, C>(s: Slots<V, C>, at: nat, t: Slots<V, C>, from: nat, stop: nat)
    requires Shaped(s) && Shaped(t) && from <= stop <= |t.keys| && at + (stop - from) <= |s.keys|
    ensures CopiedSlots(s, at, t, from, stop).keys == Copied(s.keys, at, t.keys[from..stop])
    ensures CopiedSlots(s, at, t, from, stop).vals == Copied(s.vals, at, t.vals[from..stop])
    ensures CopiedSlots(s, at, t, from, stop).kids == Copied(s.kids, at + 1, t.kids[from + 1..stop + 1])
    decreases stop
  {
    if from < stop {
      CopiedIs(s, at, t, from, stop - 1);
      CopiedStep(s.keys, at, t.keys, from, stop - 1);
      CopiedStep(s.vals, at, t.vals, from, stop - 1);
      CopiedStep(s.kids, at + 1, t.kids, from + 1, stop);
    }
  }

  lemma CopiedStep<T>(s: seq<T>, at: nat, t: seq<T>, from: nat, i: nat)
    requires from <= i < |t| && at + (i - from) < |s|
    ensures Copied(s, at, t[from..i + 1]) == Copied(s, at, t[from..i])[i - from + at := t[i]]
  {
  }

  /** A new node built from the upper entries of a full one. */
  lemma {:induction false} UpperFrom<V, C>(o: Slots<V, C>, s: Slots<V, C>, med: nat, b: C)
    requires Shaped(o) && Shaped(s) && |o.keys| == |s.keys| && 0 < med < |s.keys|
    ensures IsUpper(s, WithFirst(CopiedSlots(o, 0, s, med, |s.keys|), b), med, b)
  {
    CopiedIs(o, 0, s, med, |s.keys|);
  }

  /** The entries between the median and the new one. */
  ghost function LowerRun<V, C>(o: Slots<V, C>, s: Slots<V, C>, med: nat, at: nat): (r: Slots<V, C>)
    requires Shaped(o) && Shaped(s) && |o.keys| == |s.keys| && 0 < med < at <= |s.keys|
    ensures Shaped(r) && |r.keys| == |s.keys|
  {
    WithFirst(CopiedSlots(o, 0, s, med + 1, at), s.kids[med + 1])
  }

  /** The new entry and all after it. */
  ghost function HigherRun<V, C>(o: Slots<V, C>, s: Slots<V, C>, med: nat, at: nat, k: int, v: V, b: C): (r: Slots<V,
      C>)
    requires Shaped(o) && Shaped(s) && |o.keys| == |s.keys| && 0 < med < at <= |s.keys|
    ensures Shaped(r) && |r.keys| == |s.keys|
  {
    CopiedSlots(WithEntry(o, at - (med + 1), k, v, b), at - med, s, at, |s.keys|)
  }

  ghost predicate IsUpper<V, C>(s: Slots<V, C>, o: Slots<V, C>, med: nat, b: C) {
    && Shaped(s) && Shaped(o) && |o.keys| == |s.keys| && 0 < med < |s.keys|
    && LeftPart(o, |s.keys| - med) == Slots(s.keys[med..], s.vals[med..], [b] + s.kids[med + 1..])
  }

  /** Whatever the extra entry contains, the used part of the new node is not affected. */
  lemma {:induction false} OverrunHarmless<V, C>(s: Slots<V, C>, o: Slots<V, C>, med: nat, b: C, k: int, v: V, c: C)
    requires IsUpper(s, o, med, b)
    ensures IsUpper(s, WithEntry(o, |s.keys| - med, k, v, c), med, b)
  {
    var n := |s.keys| - med;
    assert LeftPart(WithEntry(o, n, k, v, c), n) == LeftPart(o, n);
  }

  /** The full node `s` with a new entry at place `at` has become `s'`, the new node `o'` and the
      median. */
  ghost predicate IsSplit<V, C>(s: Slots<V, C>, s': Slots<V, C>, o': Slots<V, C>, med: nat, at: nat, k: int,
      v: V, b: C, medK: int, medV: V) {
    && Shaped(s) && Shaped(s') && Shaped(o') && |s.keys| == |s'.keys| == |o'.keys| && at <= |s.keys|
       && 0 < med < |s.keys|
    && var whole := Inserted(s, at, k, v, b);
    && LeftPart(s', med) == LeftPart(whole, med) && medK == whole.keys[med] && medV == whole.vals[med]
    && LeftPart(o', |s.keys| - med) == RightPart(whole, med)
  }

  lemma {:induction false} SplitLow<V, C>(s: Slots<V, C>, s': Slots<V, C>, o': Slots<V, C>, med: nat, at: nat,
      k: int, v: V, b: C)
    requires at < med && IsShifted(s, s', med - 1, at, k, v, b, |s.keys| + 1) && IsUpper(s, o', med, s.kids[med])
    ensures IsSplit(s, s', o', med, at, k, v, b, s.keys[med - 1], s.vals[med - 1])
  {
    Halves(s, at, k, v, b, med);
  }

  lemma {:induction false} SplitMiddle<V, C>(s: Slots<V, C>, o': Slots<V, C>, med: nat, k: int, v: V, b: C)
    requires IsUpper(s, o', med, b)
    ensures IsSplit(s, s, o', med, med, k, v, b, k, v)
  {
    Halves(s, med, k, v, b, med);
  }

  lemma {:induction false} SplitHigh<V, C>(s: Slots<V, C>, o': Slots<V, C>, med: nat, at: nat, k: int, v: V, b: C)
    requires IsUpperWith(s, o', med, at, k, v, b)
    ensures IsSplit(s, s, o', med, at, k, v, b, s.keys[med], s.vals[med])
  {
    Halves(s, at, k, v, b, med);
  }

  ghost predicate IsUpperWith<V, C>(s: Slots<V, C>, o: Slots<V, C>, med: nat, at: nat, k: int, v: V, b: C) {
    && Shaped(s) && Shaped(o) && |o.keys| == |s.keys| && 0 < med < at <= |s.keys|
    && LeftPart(o, |s.keys| - med) == Inserted(RightPart(s, med), at - (med + 1), k, v, b)
  }

  /** A new node built from the upper entries of a full one and the entry to insert. */
  lemma {:induction false} UpperWith<V, C>(o: Slots<V, C>, s: Slots<V, C>, med: nat, at: nat, k: int, v: V, b: C)
    requires Shaped(o) && Shaped(s) && |o.keys| == |s.keys| && 0 < med < at <= |s.keys|
    ensures IsUpperWith(s, HigherRun(LowerRun(o, s, med, at), s, med, at, k, v, b), med, at, k, v, b)
  {
    RunsAre(o, s, med, at, k, v, b);
    HighPart(o.keys, s.keys, med, at, k);
    HighPart(o.vals, s.vals, med, at, v);
    HighKids(o.kids, s.kids, med, at, b, |s.keys|);
  }

  lemma {:induction false} RunsAre<V, C>(o: Slots<V, C>, s: Slots<V, C>, med: nat, at: nat, k: int, v: V, b: C)
    requires Shaped(o) && Shaped(s) && |o.keys| == |s.keys| && 0 < med < at <= |s.keys|
    ensures var r, n := HigherRun(LowerRun(o, s, med, at), s, med, at, k, v, b), |s.keys|;
      && r.keys == Copied(Copied(o.keys, 0, s.keys[med + 1..at])[at - (med + 1) := k], at - med, s.keys[at..n])
      && r.vals == Copied(Copied(o.vals, 0, s.vals[med + 1..at])[at - (med + 1) := v], at - med, s.vals[at..n])
      && r.kids == Copied(
         Copied(o.kids, 0 + 1, s.kids[med + 1 + 1..at + 1])[0 := s.kids[med + 1]][at - (med + 1) + 1 := b],
         at - med + 1, s.kids[at + 1..n + 1])
  {
    LowerIs(o, s, med, at);
    HigherIs(LowerRun(o, s, med, at), s, med, at, k, v, b);
  }

  lemma {:induction false} LowerIs<V, C>(o: Slots<V, C>, s: Slots<V, C>, med: nat, at: nat)
    requires Shaped(o) && Shaped(s) && |o.keys| == |s.keys| && 0 < med < at <= |s.keys|
    ensures LowerRun(o, s, med, at).keys == Copied(o.keys, 0, s.keys[med + 1..at])
    ensures LowerRun(o, s, med, at).vals == Copied(o.vals, 0, s.vals[med + 1..at])
    ensures LowerRun(o, s, med, at).kids == Copied(o.kids, 0 + 1, s.kids[med + 1 + 1..at + 1])[0 := s.kids[med + 1]]
  {
    CopiedIs(o, 0, s, med + 1, at);
  }

  lemma {:induction false} HigherIs<V, C>(o: Slots<V, C>, s: Slots<V, C>, med: nat, at: nat, k: int, v: V, b: C)
    requires Shaped(o) && Shaped(s) && |o.keys| == |s.keys| && 0 < med < at <= |s.keys|
    ensures var r, n := HigherRun(o, s, med, at, k, v, b), |s.keys|;
      && r.keys == Copied(o.keys[at - (med + 1) := k], at - med, s.keys[at..n])
      && r.vals == Copied(o.vals[at - (med + 1) := v], at - med, s.vals[at..n])
      && r.kids == Copied(o.kids[at - (med + 1) + 1 := b], at - med + 1, s.kids[at + 1..n + 1])
  {
    CopiedIs(WithEntry(o, at - (med + 1), k, v, b), at - med, s, at, |s.keys|);
  }

  lemma HighPart<T>(s: seq<T>, t: seq<T>, med: nat, at: nat, x: T)
    requires med < at <= |t| == |s|
    ensures Copied(Copied(s, 0, t[med + 1..at])[at - (med + 1) := x], at - med, t[at..|t|])[..|t| - med] ==
      Gap(t[med + 1..], at - (med + 1), x)
  {
  }

  lemma {:induction false} HighKids<T>(s: seq<T>, t: seq<T>, med: nat, at: nat, x: T, n: nat)
    requires med < at <= n && |t| == |s| == n + 1
    ensures Copied(Copied(s, 0 + 1, t[med + 1 + 1..at + 1])[0 := t[med + 1]][at - (med + 1) + 1 := x], at - med + 1,
      t[at + 1..n + 1])[..n - med + 1] ==
      Gap(t[med + 1..], at - (med + 1) + 1, x)
  {
    var u := Copied(s, 0 + 1, t[med + 1 + 1..at + 1])[0 := t[med + 1]];
    var w := u[at - (med + 1) + 1 := x];
    assert u[..at - med] == t[med + 1..at + 1];
    assert w[..at - med + 1] == t[med + 1..at + 1] + [x];
    assert t[at + 1..n + 1] == t[at + 1..];
    assert Copied(w, at - med + 1, t[at + 1..])[..n - med + 1] == w[..at - med + 1] + t[at + 1..];
    assert t[med + 1..][..at - med] == t[med + 1..at + 1] && t[med + 1..][at - med..] == t[at + 1..];
  }
}
