/**
 Circular doubly linked lists with embedded heads.  A ring is given by the sequence of its nodes; a
 list with head `h` and elements `xs` is the ring `[h] + xs`.  A null link stands for a poisoned one.
 */
module CircularList {

  class Node {
    var next: Node?
    var prev: Node?

    /** A node that is a ring of its own. */
    constructor ()
      ensures Ring([this])
    {
      next, prev := this, this;
    }
  }

  ghost predicate Linked(a: Node, b: Node)
    reads a, b
  {
    a.next == b && b.prev == a
  }

  /** Each node is linked with the one after it. */
  ghost predicate Chain(s: seq<Node>)
    reads s
  {
    forall i, j {:trigger s[i], s[j]} :: 0 <= i && j == i + 1 && j < |s| ==> Linked(s[i], s[j])
  }

  ghost predicate Distinct(s: seq<Node>) {
    forall i, j :: 0 <= i < j < |s| ==> s[i] != s[j]
  }

  ghost function Nodes(s: seq<Node>): set<Node> { set x | x in s }

  function Last(s: seq<Node>): Node
    requires s != []
  {
    s[|s| - 1]
  }

  ghost predicate Ring(s: seq<Node>)
    reads s
  {
    s != [] && Distinct(s) && Chain(s) && Linked(Last(s), s[0])
  }

  lemma {:induction false} ChainJoin(a: seq<Node>, b: seq<Node>)
    requires a != [] && b != []
    ensures Chain(a + b) <==> Chain(a) && Chain(b) && Linked(Last(a), b[0])
  {
    var s := a + b;
    assert forall i :: 0 <= i < |a| ==> a[i] == s[i];
    assert forall i :: 0 <= i < |b| ==> b[i] == s[|a| + i];
  }

  lemma {:induction false} DistinctJoin(a: seq<Node>, b: seq<Node>)
    ensures Distinct(a + b) <==> Distinct(a) && Distinct(b) && Apart(a, b)
  {
    var s := a + b;
    assert forall i :: 0 <= i < |a| ==> a[i] == s[i];
    assert forall i :: 0 <= i < |b| ==> b[i] == s[|a| + i];
    if Distinct(s) {
      forall i, j | 0 <= i < |a| && 0 <= j < |b| ensures a[i] != b[j] {
        assert s[i] != s[|a| + j];
      }
    }
    if Distinct(a) && Distinct(b) && Apart(a, b) {
      forall i, j | 0 <= i < j < |s| ensures s[i] != s[j] {
        if j < |a| {
          assert a[i] != a[j];
        } else if |a| <= i {
          assert b[i - |a|] != b[j - |a|];
        } else {
          assert a[i] in a && b[j - |a|] in b;
        }
      }
    }
  }

  ghost predicate Apart(a: seq<Node>, b: seq<Node>) {
    forall x :: x in a ==> x !in b
  }

  /** The neighbours of the first node. */
  lemma {:induction false} Ends(x: Node, s: seq<Node>)
    requires Ring([x] + s)
    ensures x.next == (if s == [] then x else s[0]) && x.prev == (if s == [] then x else Last(s)) && x !in s
    ensures s != [] ==> Chain(s) && Distinct(s)
  {
    var t := [x] + s;
    DistinctJoin([x], s);
    assert Last(t) == if s == [] then x else Last(s);
    if s != [] { ChainJoin([x], s); }
  }

  /** A ring has no beginning. */
  lemma {:induction false} Rotated(a: seq<Node>, b: seq<Node>)
    requires Ring(a + b)
    ensures Ring(b + a)
  {
    if a == [] || b == [] {
      assert a + b == b + a;
    } else {
      ChainJoin(a, b);
      ChainJoin(b, a);
      DistinctJoin(a, b);
      DistinctJoin(b, a);
    }
  }

  method Init(x: Node)
    modifies x
    ensures Ring([x])
  {
    x.next := x;
    x.prev := x;
  }

  /** Inserts `x` between the end and the beginning of a ring. */
  method AddBetween(x: Node, prev: Node, next: Node, ghost s: seq<Node>)
    requires Ring(s) && prev == Last(s) && next == s[0] && x !in s
    modifies {x} + Nodes(s)
    ensures Ring(s + [x])
  {
    next.prev := x;
    x.next := next;
    x.prev := prev;
    prev.next := x;
    assert Chain(s);
    ChainJoin(s, [x]);
    DistinctJoin(s, [x]);
  }

  /** Links the neighbours of `x`, the ends of `s`. */
  method DelBetween(prev: Node, next: Node, ghost x: Node, ghost s: seq<Node>)
    requires Ring([x] + s) && prev == (if s == [] then x else Last(s)) && next == (if s == [] then x else s[0])
    modifies Nodes([x] + s)
    ensures s != [] ==> Ring(s) && x.next == old(x.next) && x.prev == old(x.prev)
    ensures s == [] ==> Ring([x])
  {
    Ends(x, s);
    next.prev := prev;
    prev.next := next;
    assert s != [] ==> Chain(s);
  }

  method ListAdd(x: Node, head: Node, ghost xs: seq<Node>)
    requires Ring([head] + xs) && x !in [head] + xs
    modifies {x} + Nodes([head] + xs)
    ensures Ring([head, x] + xs)
  {
    Rotated([head], xs);
    assert Last(xs + [head]) == head;
    AddBetween(x, head, head.next, xs + [head]);
    assert xs + [head] + [x] == xs + [head, x];
    Rotated(xs, [head, x]);
  }

  method ListAddTail(x: Node, head: Node, ghost xs: seq<Node>)
    requires Ring([head] + xs) && x !in [head] + xs
    modifies {x} + Nodes([head] + xs)
    ensures Ring([head] + xs + [x])
  {
    AddBetween(x, head.prev, head, [head] + xs);
  }

  method DelEntry(x: Node, ghost s: seq<Node>)
    requires Ring([x] + s)
    modifies Nodes([x] + s)
    ensures s != [] ==> Ring(s) && x.next == old(x.next) && x.prev == old(x.prev)
    ensures s == [] ==> Ring([x])
  {
    Ends(x, s);
    DelBetween(x.prev, x.next, x, s);
  }

  method ListDel(x: Node, ghost s: seq<Node>)
    requires Ring([x] + s)
    modifies Nodes([x] + s)
    ensures s != [] ==> Ring(s)
    ensures x.next == null && x.prev == null
  {
    Ends(x, s);
    DelEntry(x, s);
    x.next := null;
    x.prev := null;
  }

  method ListDelInit(x: Node, ghost s: seq<Node>)
    requires Ring([x] + s)
    modifies Nodes([x] + s)
    ensures s != [] ==> Ring(s)
    ensures Ring([x])
  {
    Ends(x, s);
    DelEntry(x, s);
    Init(x);
  }

  /** The new node takes the place of the old one, even if that was alone. */
  method ListReplace(x: Node, y: Node, ghost s: seq<Node>)
    requires Ring([x] + s) && y !in [x] + s
    modifies {y} + Nodes([x] + s)
    ensures Ring([y] + s)
  {
    Ends(x, s);
    y.next := x.next;
    y.next.prev := y;
    y.prev := x.prev;
    y.prev.next := y;
    DistinctJoin([y], s);
    if s != [] {
      assert Chain(s);
      ChainJoin([y], s);
      assert Last([y] + s) == Last(s);
    }
  }

  /** Where an element to be moved is: in the list itself, between `a` and `b`, or in a ring of its
      own with the nodes `b`. */
  ghost predicate Movable(x: Node, head: Node, a: seq<Node>, b: seq<Node>, same: bool)
    reads Nodes([head] + a + [x] + b)
  {
    if same then Ring([head] + a + [x] + b) else Ring([head] + a) && Ring([x] + b) && Apart([head] + a, [x] + b)
  }

  /** Takes the element out, so that it can be added to the list. */
  method TakeOut(x: Node, ghost head: Node, ghost a: seq<Node>, ghost b: seq<Node>, ghost same: bool)
    requires Movable(x, head, a, b, same)
    modifies Nodes([head] + a + [x] + b)
    ensures same ==> Ring([head] + (a + b)) && x !in [head] + (a + b)
    ensures !same ==> Ring([head] + a) && x !in [head] + a && x !in b && (b != [] ==> Ring(b))
  {
    Places(head, x, a, b, same);
    ghost var rest := if same then b + ([head] + a) else b;
    assert forall z :: z in [x] + rest ==> z in [head] + a + [x] + b;
    DelEntry(x, rest);
    if same { FromHead(head, a, b); }
  }

  lemma {:induction false} FromHead(head: Node, a: seq<Node>, b: seq<Node>)
    requires Ring(b + ([head] + a))
    ensures Ring([head] + (a + b))
  {
    Rotated(b, [head] + a);
    assert [head] + a + b == [head] + (a + b);
  }

  /** The element becomes the first one. */
  method ListMove(x: Node, head: Node, ghost a: seq<Node>, ghost b: seq<Node>, ghost same: bool)
    requires Movable(x, head, a, b, same)
    modifies Nodes([head] + a + [x] + b)
    ensures same ==> Ring([head, x] + a + b)
    ensures !same ==> Ring([head, x] + a) && (b != [] ==> Ring(b))
  {
    assert [head, x] == [head] + [x];
    Kept(x, head, a, b, same);
    Regroup([head], [x], a, b);
    ghost var rest := if same then a + b else a;
    assert forall z :: z in [head] + rest ==> z in [head] + a + [x] + b;
    TakeOut(x, head, a, b, same);
    ListAdd(x, head, rest);
  }

  /** The element becomes the last one. */
  method ListMoveTail(x: Node, head: Node, ghost a: seq<Node>, ghost b: seq<Node>, ghost same: bool)
    requires Movable(x, head, a, b, same)
    modifies Nodes([head] + a + [x] + b)
    ensures same ==> Ring([head] + a + b + [x])
    ensures !same ==> Ring([head] + a + [x]) && (b != [] ==> Ring(b))
  {
    Kept(x, head, a, b, same);
    Regroup([head], [x], a, b);
    ghost var rest := if same then a + b else a;
    assert forall z :: z in [head] + rest ==> z in [head] + a + [x] + b;
    TakeOut(x, head, a, b, same);
    ListAddTail(x, head, rest);
  }

  lemma Regroup(h: seq<Node>, x: seq<Node>, a: seq<Node>, b: seq<Node>)
    ensures (h + x) + (a + b) == (h + x) + a + b && h + (a + b) + x == h + a + b + x
  {
  }

  lemma {:induction false} Kept(x: Node, head: Node, a: seq<Node>, b: seq<Node>, same: bool)
    requires Movable(x, head, a, b, same)
    ensures !same ==> Apart(b, [head, x] + a) && x !in [head] + a
  {
    if !same {
      Ends(x, b);
      assert forall y :: y in b || y == x ==> y in [x] + b;
    }
  }

  /** A node inside a ring, seen as its beginning. */
  lemma {:induction false} Around(a: seq<Node>, x: Node, b: seq<Node>)
    requires Ring(a + [x] + b)
    ensures Ring([x] + (b + a)) && x !in b + a
  {
    assert a + [x] + b == a + ([x] + b);
    Rotated(a, [x] + b);
    assert [x] + b + a == [x] + (b + a);
    DistinctJoin([x], b + a);
  }

  /** Exchanges the places of two nodes, of one ring, neighbours or not, or of two rings.  A node
      that is alone in the second ring leaves no place, and `x` is put behind it. */
  method ListSwap(x: Node, y: Node, ghost a: seq<Node>, ghost b: seq<Node>, ghost same: bool)
    requires Movable(y, x, a, b, same)
    modifies Nodes([x] + a + [y] + b)
    ensures same ==> Ring([y] + a + [x] + b)
    ensures !same && b != [] ==> Ring([y] + a) && Ring([x] + b)
    ensures !same && b == [] ==> Ring([y, x] + a)
  {
    Places(x, y, a, b, same);
    var pos := y.prev;
    DelAndReplace(x, y, a, b, same);
    if pos == x {
      pos := y;
    }
    PutBehind(x, y, pos, a, b, same);
  }

  /** The first half of the exchange: `y` leaves its place and takes that of `x`. */
  method DelAndReplace(x: Node, y: Node, ghost a: seq<Node>, ghost b: seq<Node>, ghost same: bool)
    requires Movable(y, x, a, b, same)
    modifies Nodes([x] + a + [y] + b)
    ensures same ==> Ring([y] + (a + b))
    ensures !same ==> Ring([y] + a) && (b != [] ==> Ring(b))
  {
    Places(x, y, a, b, same);
    ListDel(y, if same then b + ([x] + a) else b);
    if same { FromHead(x, a, b); }
    Ends(x, if same then a + b else a);
    ListReplace(x, y, if same then a + b else a);
  }

  /** The second half of the exchange: `y` has its new place, and `x` goes behind `pos`. */
  method PutBehind(x: Node, y: Node, pos: Node, ghost a: seq<Node>, ghost b: seq<Node>, ghost same: bool)
    requires same ==> Ring([y] + (a + b)) && x !in [y] + (a + b) && pos == Last([y] + a)
    requires !same ==> Ring([y] + a) && x !in [y] + a && x !in b && Apart(b, [y] + a)
    requires !same ==> if b == [] then pos == y else Ring(b) && pos == Last(b)
    modifies Nodes([x] + a + [y] + b)
    ensures same ==> Ring([y] + a + [x] + b)
    ensures !same && b != [] ==> Ring([y] + a) && Ring([x] + b)
    ensures !same && b == [] ==> Ring([y, x] + a)
  {
    ghost var rest := if same then b + Others(y, a) else if b == [] then a else b[..|b| - 1];
    if same {
      AfterLast(y, a, b);
      assert forall z :: z in [pos] + rest ==> z in [y] + (a + b);
    } else if b != [] {
      BeforeLast(b);
      assert forall z :: z in [pos] + rest ==> z in b;
    }
    ListAdd(x, pos, rest);
    if same {
      Inserted(x, y, a, b);
    } else if b != [] {
      LastAgain(x, b);
    }
  }

  /** The rings seen from `y`. */
  lemma {:induction false} Places(x: Node, y: Node, a: seq<Node>, b: seq<Node>, same: bool)
    requires Movable(y, x, a, b, same)
    ensures same ==> Ring([y] + (b + ([x] + a))) && y !in b + ([x] + a) && y.prev == Last([x] + a)
    ensures !same ==> Ring([y] + b) && y !in b && y !in [x] + a && Apart([x] + a, b)
    ensures !same ==> y.prev == (if b == [] then y else Last(b))
    ensures x != y && x !in a && x !in b
  {
    if same {
      Around([x] + a, y, b);
      Ends(y, b + ([x] + a));
      assert Last(b + ([x] + a)) == Last([x] + a);
      assert x in b + ([x] + a);
      DistinctJoin([y], b + ([x] + a));
      DistinctJoin(b, [x] + a);
      DistinctJoin([x], a);
      assert x in [x] && x in [x] + a;
    } else {
      Ends(y, b);
      Ends(x, a);
      assert forall z :: z in b || z == y ==> z in [y] + b;
      assert x in [x] + a;
    }
  }

  lemma {:induction false} BeforeLast(b: seq<Node>)
    requires Ring(b)
    ensures Ring([Last(b)] + b[..|b| - 1])
  {
    assert b == b[..|b| - 1] + [Last(b)];
    Rotated(b[..|b| - 1], [Last(b)]);
  }

  lemma {:induction false} LastAgain(x: Node, b: seq<Node>)
    requires b != [] && Ring([Last(b), x] + b[..|b| - 1])
    ensures Ring([x] + b)
  {
    assert [Last(b), x] + b[..|b| - 1] == [Last(b)] + ([x] + b[..|b| - 1]);
    Rotated([Last(b)], [x] + b[..|b| - 1]);
    assert [x] + b[..|b| - 1] + [Last(b)] == [x] + b;
  }

  /** The nodes of `[y] + a` but the last. */
  ghost function Others(y: Node, a: seq<Node>): seq<Node> { ([y] + a)[..|a|] }

  lemma {:induction false} AfterLast(y: Node, a: seq<Node>, b: seq<Node>)
    requires Ring([y] + (a + b))
    ensures Ring([Last([y] + a)] + (b + Others(y, a)))
  {
    var pos, c := Last([y] + a), Others(y, a);
    assert [y] + (a + b) == c + ([pos] + b);
    Rotated(c, [pos] + b);
    assert [pos] + b + c == [pos] + (b + c);
  }

  lemma {:induction false} Inserted(x: Node, y: Node, a: seq<Node>, b: seq<Node>)
    requires Ring([Last([y] + a), x] + (b + Others(y, a)))
    ensures Ring([y] + a + [x] + b)
  {
    var pos, c := Last([y] + a), Others(y, a);
    assert [pos, x] + (b + c) == ([pos, x] + b) + c;
    Rotated([pos, x] + b, c);
    assert c + ([pos, x] + b) == [y] + a + [x] + b;
  }

  /** Moves the segment from `first` to `last` to the end of the list. */
  method ListBulkMoveTail(head: Node, first: Node, last: Node, ghost a: seq<Node>, ghost seg: seq<Node>,
      ghost b: seq<Node>)
    requires seg != [] && first == seg[0] && last == Last(seg) && Ring([head] + a + seg + b)
    modifies Nodes([head] + a + seg + b)
    ensures Ring([head] + a + b + seg)
  {
    ghost var p := [head] + a;
    Segments(p, seg, b);
    first.prev.next := last.next;
    last.next.prev := first.prev;
    head.prev.next := first;
    first.prev := head.prev;
    last.next := head;
    head.prev := last;
    assert Chain(p) && Chain(seg) && Chain(b);
    Assembled(p, b, seg);
  }

  /** The three parts of a ring. */
  lemma {:induction false} Segments(p: seq<Node>, q: seq<Node>, r: seq<Node>)
    requires Ring(p + q + r) && p != [] && q != []
    ensures Distinct(p) && Distinct(q) && Distinct(r) && Apart(p, q) && Apart(p, r) && Apart(q, r)
    ensures Chain(p) && Chain(q) && Chain(r) && Linked(Last(p), q[0])
    ensures r == [] ==> Linked(Last(q), p[0])
    ensures r != [] ==> Linked(Last(q), r[0]) && Linked(Last(r), p[0])
  {
    DistinctJoin(p + q, r);
    DistinctJoin(p, q);
    assert Apart(p, r) && Apart(q, r);
    ChainJoin(p, q);
    assert Last(p + q) == Last(q);
    if r == [] {
      assert p + q + r == p + q;
    } else {
      ChainJoin(p + q, r);
      assert Last(p + q + r) == Last(r);
    }
  }

  lemma {:induction false} Assembled(p: seq<Node>, q: seq<Node>, r: seq<Node>)
    requires p != [] && r != []
    requires Distinct(p) && Distinct(q) && Distinct(r) && Apart(p, q) && Apart(p, r) && Apart(q, r)
    requires Chain(p) && Chain(q) && Chain(r) && Linked(Last(r), p[0])
    requires if q == [] then Linked(Last(p), r[0]) else Linked(Last(p), q[0]) && Linked(Last(q), r[0])
    ensures Ring(p + q + r)
  {
    DistinctJoin(p, q);
    DistinctJoin(p + q, r);
    if q == [] {
      assert p + q == p;
    } else {
      ChainJoin(p, q);
      assert Last(p + q) == Last(q);
    }
    ChainJoin(p + q, r);
    assert Last(p + q + r) == Last(r);
  }

  method ListEmpty(head: Node, ghost xs: seq<Node>) returns (r: bool)
    requires Ring([head] + xs)
    ensures r <==> xs == []
  {
    r := head.next == head;
    assert xs != [] ==> ([head] + xs)[1] == xs[0];
  }

  method ListIsSingular(head: Node, ghost xs: seq<Node>) returns (r: bool)
    requires Ring([head] + xs)
    ensures r <==> |xs| == 1
  {
    var empty := ListEmpty(head, xs);
    r := !empty && head.next == head.prev;
    ghost var s := [head] + xs;
    assert xs != [] ==> s[1] == xs[0] && Linked(s[0], s[1]) && Last(s) == s[|xs|];
  }

  /** Moves the first element to the end. */
  method ListRotateLeft(head: Node, ghost xs: seq<Node>)
    requires Ring([head] + xs)
    modifies Nodes([head] + xs)
    ensures Ring(if xs == [] then [head] else [head] + xs[1..] + [xs[0]])
  {
    var empty := ListEmpty(head, xs);
    if !empty {
      assert [head] + xs == [head] + [] + [xs[0]] + xs[1..];
      assert ([head] + xs)[1] == xs[0];
      ListMoveTail(head.next, head, [], xs[1..], true);
      assert [head] + [] + xs[1..] + [xs[0]] == [head] + xs[1..] + [xs[0]];
    }
  }

  /** Moves the head right before `x`, so that `x` comes first. */
  method ListRotateToFront(x: Node, head: Node, ghost a: seq<Node>, ghost b: seq<Node>)
    requires Ring([head] + a + [x] + b)
    modifies Nodes([head] + a + [x] + b)
    ensures Ring([head, x] + b + a)
  {
    assert [head] + a + [x] + b == ([head] + a) + ([x] + b);
    Rotated([head] + a, [x] + b);
    assert [x] + b + ([head] + a) == [x] + b + [head] + a;
    ListMoveTail(head, x, b, a, true);
    assert [x] + b + a + [head] == ([x] + b + a) + [head];
    Rotated([x] + b + a, [head]);
    assert [head] + ([x] + b + a) == [head, x] + b + a;
  }

  // ----- Cutting and splicing -----

  /** Moves the elements up to `entry` to the list `list`, which need not be initialised; does
      nothing if there are none, or if `entry` is not in a list of one element, and empties `list` if
      `entry` is the head. */
  method ListCutPosition(list: Node, head: Node, entry: Node, ghost a: seq<Node>, ghost b: seq<Node>)
    requires list !in [head] + a + b && Ring([head] + a + b)
    requires entry == Last([head] + a) || (|a + b| <= 1 && entry !in [head] + a + b)
    modifies {list} + Nodes([head] + a + b)
    ensures a + b == [] || entry !in [head] + a + b ==>
      Ring([head] + a + b) && list.next == old(list.next) && list.prev == old(list.prev)
    ensures a + b != [] && entry in [head] + a + b ==> Ring([list] + a) && Ring([head] + b)
  {
    assert [head] + a + b == [head] + (a + b);
    var empty := ListEmpty(head, a + b);
    if empty {
      return;
    }
    var singular := ListIsSingular(head, a + b);
    Ends(head, a + b);
    InSingular(head, entry, a, b);
    if singular && head.next != entry && head != entry {
      return;
    }
    if entry == head {
      Init(list);
      assert [head] + a + b == [head] + b && [list] + a == [list];
    } else {
      CutPosition(list, head, entry, a, b);
    }
  }

  lemma {:induction false} InSingular(head: Node, entry: Node, a: seq<Node>, b: seq<Node>)
    requires Distinct([head] + (a + b)) && a + b != []
    requires entry == Last([head] + a) || (|a + b| <= 1 && entry !in [head] + a + b)
    ensures entry in [head] + a + b <==> entry == Last([head] + a)
    ensures entry !in [head] + a + b ==> entry != head && entry != (a + b)[0]
    ensures entry == Last([head] + a) ==> (a == [] <==> entry == head)
    ensures entry == Last([head] + a) && |a + b| == 1 ==> entry == head || entry == (a + b)[0]
  {
    var s := [head] + a;
    assert [head] + a + b == s + b && Last(s) == s[|a|];
    assert [head] + (a + b) == s + b && (s + b)[|a|] == s[|a|] && (s + b)[1] == (a + b)[0];
    if |a + b| == 1 && entry == Last(s) {
      assert |a| == 0 || (|a| == 1 && s[1] == a[0] == (a + b)[0]);
    }
    if a != [] {
      assert s[|a|] != s[0] by { assert (s + b)[0] != (s + b)[|a|]; }
    }
  }

  method CutPosition(list: Node, head: Node, entry: Node, ghost a: seq<Node>, ghost b: seq<Node>)
    requires a != [] && list !in [head] + a + b && Ring([head] + a + b) && entry == Last(a)
    modifies {list} + Nodes([head] + a + b)
    ensures Ring([list] + a) && Ring([head] + b)
  {
    Segments([head], a, b);
    var newFirst := entry.next;
    list.next := head.next;
    list.next.prev := list;
    list.prev := entry;
    entry.next := list;
    head.next := newFirst;
    newFirst.prev := head;
    assert Chain(a) && Chain(b);
    Closed(list, a);
    Closed(head, b);
  }

  /** A chain whose ends are linked with `x` forms a ring with it. */
  lemma {:induction false} Closed(x: Node, s: seq<Node>)
    requires Distinct(s) && x !in s && Chain(s)
    requires if s == [] then Linked(x, x) else Linked(x, s[0]) && Linked(Last(s), x)
    ensures Ring([x] + s)
  {
    DistinctJoin([x], s);
    if s != [] {
      ChainJoin([x], s);
      assert Last([x] + s) == Last(s);
    }
  }

  /** Moves the elements before `entry`, or all if it is the head, to the list `list`. */
  method ListCutBefore(list: Node, head: Node, entry: Node, ghost a: seq<Node>, ghost b: seq<Node>)
    requires list !in [head] + a + b && Ring([head] + a + b) && entry == (b + [head])[0]
    modifies {list} + Nodes([head] + a + b)
    ensures Ring([list] + a) && Ring([head] + b)
  {
    assert [head] + a + b == [head] + (a + b);
    Ends(head, a + b);
    FirstIs(head, a, b);
    if head.next == entry {
      Init(list);
      assert [list] + a == [list] && [head] + a + b == [head] + b;
      return;
    }
    CutBefore(list, head, entry, a, b);
  }

  method CutBefore(list: Node, head: Node, entry: Node, ghost a: seq<Node>, ghost b: seq<Node>)
    requires a != [] && list !in [head] + a + b && Ring([head] + a + b) && entry == (b + [head])[0]
    modifies {list} + Nodes([head] + a + b)
    ensures Ring([list] + a) && Ring([head] + b)
  {
    Segments([head], a, b);
    list.next := head.next;
    list.next.prev := list;
    list.prev := entry.prev;
    list.prev.next := list;
    head.next := entry;
    entry.prev := head;
    assert Chain(a) && Chain(b);
    Closed(list, a);
    Closed(head, b);
  }

  lemma {:induction false} FirstIs(head: Node, a: seq<Node>, b: seq<Node>)
    requires Distinct([head] + (a + b))
    ensures a == [] <==> (if a + b == [] then head else (a + b)[0]) == (b + [head])[0]
  {
    if a == [] {
      assert a + b == b;
    } else {
      var s := [head] + (a + b);
      assert s[0] == head && s[1] == a[0];
      if b != [] { assert s[1 + |a|] == b[0]; }
    }
  }

  /** Inserts the elements `xs` of a list between the end and the beginning of a ring. */
  method Splice(list: Node, prev: Node, next: Node, ghost xs: seq<Node>, ghost s: seq<Node>)
    requires xs != [] && Ring([list] + xs) && Ring(s) && prev == Last(s) && next == s[0] && Apart([list] + xs, s)
    modifies Nodes(xs) + Nodes(s)
    ensures Ring(s + xs) && list.next == old(list.next) && list.prev == old(list.prev)
  {
    Ends(list, xs);
    var first, last := list.next, list.prev;
    assert Apart(s, xs) && list !in s;
    first.prev := prev;
    prev.next := first;
    last.next := next;
    next.prev := last;
    assert Chain(xs) && Chain(s);
    DistinctJoin(s, xs);
    ChainJoin(s, xs);
    assert Last(s + xs) == Last(xs);
  }

  method ListSplice(list: Node, head: Node, ghost xs: seq<Node>, ghost ys: seq<Node>)
    requires Ring([list] + xs) && Ring([head] + ys) && Apart([list] + xs, [head] + ys)
    modifies Nodes(xs) + Nodes([head] + ys)
    ensures Ring([head] + xs + ys)
  {
    var empty := ListEmpty(list, xs);
    if empty {
      assert [head] + xs + ys == [head] + ys;
      return;
    }
    Ends(head, ys);
    Rotated([head], ys);
    assert (ys + [head])[0] == if ys == [] then head else ys[0];
    Splice(list, head, head.next, xs, ys + [head]);
    assert ys + [head] + xs == ys + ([head] + xs);
    Rotated(ys, [head] + xs);
  }

  method ListSpliceTail(list: Node, head: Node, ghost xs: seq<Node>, ghost ys: seq<Node>)
    requires Ring([list] + xs) && Ring([head] + ys) && Apart([list] + xs, [head] + ys)
    modifies Nodes(xs) + Nodes([head] + ys)
    ensures Ring([head] + ys + xs)
  {
    var empty := ListEmpty(list, xs);
    if empty {
      assert [head] + ys + xs == [head] + ys;
      return;
    }
    Ends(head, ys);
    assert Last([head] + ys) == if ys == [] then head else Last(ys);
    Splice(list, head.prev, head, xs, [head] + ys);
  }

  method ListSpliceInit(list: Node, head: Node, ghost xs: seq<Node>, ghost ys: seq<Node>)
    requires Ring([list] + xs) && Ring([head] + ys) && Apart([list] + xs, [head] + ys)
    modifies Nodes([list] + xs) + Nodes([head] + ys)
    ensures Ring([head] + xs + ys) && Ring([list])
  {
    var empty := ListEmpty(list, xs);
    if empty {
      assert [head] + xs + ys == [head] + ys && [list] + xs == [list];
      return;
    }
    Ends(list, xs);
    assert list in [list] + xs && list !in [head] + ys;
    ListSplice(list, head, xs, ys);
    assert list !in [head] + xs + ys;
    Init(list);
  }

  method ListSpliceTailInit(list: Node, head: Node, ghost xs: seq<Node>, ghost ys: seq<Node>)
    requires Ring([list] + xs) && Ring([head] + ys) && Apart([list] + xs, [head] + ys)
    modifies Nodes([list] + xs) + Nodes([head] + ys)
    ensures Ring([head] + ys + xs) && Ring([list])
  {
    var empty := ListEmpty(list, xs);
    if empty {
      assert [head] + ys + xs == [head] + ys && [list] + xs == [list];
      return;
    }
    Ends(list, xs);
    ListSpliceTail(list, head, xs, ys);
    assert list !in [head] + ys + xs;
    Init(list);
  }
}
