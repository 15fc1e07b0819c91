/**
 Exactly which bodies the translation accepts.  Its internal assertions fail on `break`,
 `continue`, `case` and `default` outside of what they belong to, on a `case` or `default` that it
 meets after the `default` of the same `switch`, and on a label defined twice, and on nothing else:
 a generated label never collides.
 */
module TranslateAccepts {
  import opened Wrappers
  import opened CSource
  import opened Cfg
  import opened Translate

  // ----- What a caller can check -----

  predicate Placed(s: Stmt, brk: bool, cont: bool, sw: bool) {
    match s
    case Block(body) => PlacedAll(body, brk, cont, sw)
    case If(_, a, b) => Placed(a, brk, cont, sw) && Placed(b, brk, cont, sw)
    case While(_, b) => Placed(b, true, true, sw)
    case Do(b, _) => Placed(b, true, true, sw)
    case Switch(_, b) => Placed(b, true, cont, true)
    case Case(_, b) => sw && Placed(b, brk, cont, sw)
    case Default(b) => sw && Placed(b, brk, cont, sw)
    case Label(_, b) => Placed(b, brk, cont, sw)
    case Break => brk
    case Continue => cont
    case _ => true
  }

  predicate PlacedAll(ss: Stmts, brk: bool, cont: bool, sw: bool) {
    match ss
    case Nil => true
    case Cons(s, rest) => Placed(s, brk, cont, sw) && PlacedAll(rest, brk, cont, sw)
  }

  /** The `case` (false) and `default` (true) labels of the innermost `switch`, in the order in which
      the translation meets them: what follows a branch or loop comes before its inside. */
  function Order(ss: Stmts): seq<bool>
    decreases SizeAll(ss)
  {
    match ss
    case Nil => []
    case Cons(s, rest) =>
      assert SizeAll(ss) == 1 + Size(s) + SizeAll(rest);
      match s
      case Block(body) => SizeAppend(body, rest); assert Size(s) == 1 + SizeAll(body); Order(Append(body, rest))
      case If(_, a, b) => assert Size(s) == 4 + Size(a) + Size(b); Order(rest) + Order(One(a)) + Order(One(b))
      case While(_, b) => assert Size(s) == 3 + Size(b); Order(rest) + Order(One(b))
      case Do(b, _) => assert Size(s) == 3 + Size(b); Order(rest) + Order(One(b))
      case Case(_, b) => assert Size(s) == 3 + Size(b); [false] + Order(Cons(b, rest))
      case Default(b) => assert Size(s) == 3 + Size(b); [true] + Order(Cons(b, rest))
      case Label(_, b) => assert Size(s) == 3 + Size(b); Order(Cons(b, rest))
      case _ => Order(rest)
  }

  predicate DefaultLast(o: seq<bool>) {
    forall k :: 0 <= k < |o| - 1 ==> !o[k]
  }

  predicate InnerDefaultsLast(s: Stmt) {
    match s
    case Block(body) => InnerDefaultsLastAll(body)
    case If(_, a, b) => InnerDefaultsLast(a) && InnerDefaultsLast(b)
    case While(_, b) => InnerDefaultsLast(b)
    case Do(b, _) => InnerDefaultsLast(b)
    case Switch(_, b) => DefaultLast(Order(One(b))) && InnerDefaultsLast(b)
    case Case(_, b) => InnerDefaultsLast(b)
    case Default(b) => InnerDefaultsLast(b)
    case Label(_, b) => InnerDefaultsLast(b)
    case _ => true
  }

  predicate InnerDefaultsLastAll(ss: Stmts) {
    match ss
    case Nil => true
    case Cons(s, rest) => InnerDefaultsLast(s) && InnerDefaultsLastAll(rest)
  }

  // ----- The state of the translation -----

  ghost predicate Seen(sw: Option<SwitchData>) { sw.Some? && sw.value.dflt.Some? }

  /** Generated labels stem from the counter, and the two that the switch data hold are free. */
  ghost predicate Sound(em: Emit) {
    && (forall k: nat :: Fresh(k) in em.blocks ==> k < em.n)
    && (em.sw.Some? ==>
          && em.sw.value.cur < em.n && em.sw.value.next < em.n && em.sw.value.cur != em.sw.value.next
          && Fresh(em.sw.value.cur) !in em.blocks && Fresh(em.sw.value.next) !in em.blocks)
  }

  /** A generated label that may come into use when translation starts in `em`. */
  ghost predicate Free(sw: Option<SwitchData>, n0: nat, k: nat) {
    k >= n0 || (sw.Some? && (k == sw.value.cur || k == sw.value.next))
  }

  ghost predicate NoClash(ss: Stmts, blocks: Blocks) {
    forall l :: CountAll(AtLabel(l), ss) <= if User(l) in blocks then 0 else 1
  }

  ghost predicate Gate(o: seq<bool>, seen: bool) {
    (seen ==> o == []) && DefaultLast(o)
  }

  /** What is demanded of labels: `ok` sums up placement, `o` is the order in which `case` and
      `default` labels are met, `ss` contains the user labels. */
  ghost predicate Demand(ok: bool, o: seq<bool>, ss: Stmts, em: Emit) {
    ok && Gate(o, Seen(em.sw)) && NoClash(ss, em.blocks)
  }

  ghost predicate InPlace(ks: Stack, ss: Stmts, em: Emit) {
    PlacedAll(ss, BreakOf(ks).Some?, ContinueOf(ks).Some?, em.sw.Some?) && InnerDefaultsLastAll(ss)
  }

  ghost predicate StmtInPlace(ks: Stack, s: Stmt, em: Emit) {
    Placed(s, BreakOf(ks).Some?, ContinueOf(ks).Some?, em.sw.Some?) && InnerDefaultsLast(s)
  }

  lemma {:induction false} Placement(ks: Stack, s: Stmt, rest: Stmts, em: Emit)
    ensures InPlace(ks, Cons(s, rest), em) <==> StmtInPlace(ks, s, em) && InPlace(ks, rest, em)
    ensures InPlace(ks, One(s), em) <==> StmtInPlace(ks, s, em)
  {
    assert InnerDefaultsLastAll(One(s)) <==> InnerDefaultsLast(s) && InnerDefaultsLastAll(Nil);
    assert PlacedAll(One(s), BreakOf(ks).Some?, ContinueOf(ks).Some?, em.sw.Some?)
      <==> Placed(s, BreakOf(ks).Some?, ContinueOf(ks).Some?, em.sw.Some?);
    assert InnerDefaultsLastAll(Cons(s, rest)) <==> InnerDefaultsLast(s) && InnerDefaultsLastAll(rest);
  }

  lemma SamePlace(ks: Stack, ks1: Stack, ss: Stmts, em: Emit, em1: Emit)
    requires BreakOf(ks1).Some? == BreakOf(ks).Some? && ContinueOf(ks1).Some? == ContinueOf(ks).Some?
    requires em1.sw.Some? == em.sw.Some?
    ensures InPlace(ks1, ss, em1) == InPlace(ks, ss, em)
  {
  }

  ghost predicate Acceptable(ks: Stack, ss: Stmts, em: Emit) {
    Demand(InPlace(ks, ss, em), Order(ss), ss, em)
  }

  ghost predicate Names(a: Blocks, b: Blocks, ss: Stmts) {
    forall l :: User(l) in b <==> User(l) in a || HasAny(AtLabel(l), ss)
  }

  ghost predicate Fits(n0: nat, a: Emit, b: Emit) {
    && Sound(b) && a.n <= b.n && (a.sw.Some? <==> b.sw.Some?)
    && (forall k: nat :: Fresh(k) in b.blocks ==> Fresh(k) in a.blocks || Free(a.sw, n0, k))
    && (a.sw.Some? ==> Free(a.sw, n0, b.sw.value.cur) && Free(a.sw, n0, b.sw.value.next))
  }

  ghost predicate Leaves(n0: nat, a: Emit, b: Emit, ss: Stmts, o: seq<bool>) {
    Fits(n0, a, b) && Names(a.blocks, b.blocks, ss) && (Seen(b.sw) <==> Seen(a.sw) || true in o)
  }

  lemma FitsCompose(n0: nat, a: Emit, b: Emit, c: Emit)
    requires Fits(n0, a, b) && Fits(n0, b, c) && n0 <= b.n
    ensures Fits(n0, a, c)
  {
  }

  lemma {:induction false} GateSplit(x: seq<bool>, y: seq<bool>, seen: bool)
    ensures Gate(x + y, seen) <==> Gate(x, seen) && Gate(y, seen || true in x)
    ensures true in x + y <==> true in x || true in y
  {
    var o := x + y;
    if Gate(o, seen) {
      assert forall k :: 0 <= k < |x| ==> o[k] == x[k];
      assert forall k :: 0 <= k < |y| ==> o[|x| + k] == y[k];
      assert true in x ==> y == [];
      assert forall k :: 0 <= k < |x| - 1 ==> !x[k];
      assert DefaultLast(y) by {
        forall k | 0 <= k < |y| - 1 ensures !y[k] { assert !o[|x| + k]; }
      }
    }
  }

  /** Two translations in a row, `x` and then `y`, demand together what the whole demands. */
  lemma {:induction false} Both(p: bool, o: seq<bool>, x: Stmts, q: bool, u: seq<bool>, y: Stmts, whole: Stmts,
      em: Emit, em1: Emit)
    requires forall t: Target :: t.AtLabel? ==> CountAll(t, whole) == CountAll(t, x) + CountAll(t, y)
    ensures Demand(p && q, o + u, whole, em) ==> Demand(p, o, x, em)
    ensures Names(em.blocks, em1.blocks, x) && (Seen(em1.sw) <==> Seen(em.sw) || true in o) ==>
      (Demand(p && q, o + u, whole, em) <==> Demand(p, o, x, em) && Demand(q, u, y, em1))
    ensures forall bs2 :: Names(em.blocks, em1.blocks, x) && Names(em1.blocks, bs2, y) ==> Names(em.blocks, bs2, whole)
  {
    GateSplit(o, u, Seen(em.sw));
    forall l ensures CountAll(AtLabel(l), whole) == CountAll(AtLabel(l), x) + CountAll(AtLabel(l), y) {}
    if Names(em.blocks, em1.blocks, x) {
      if NoClash(whole, em.blocks) {
        forall l ensures CountAll(AtLabel(l), y) <= if User(l) in em1.blocks then 0 else 1 {
          assert CountAll(AtLabel(l), whole) <= if User(l) in em.blocks then 0 else 1;
        }
      }
      if NoClash(x, em.blocks) && NoClash(y, em1.blocks) {
        forall l ensures CountAll(AtLabel(l), whole) <= if User(l) in em.blocks then 0 else 1 {
          assert CountAll(AtLabel(l), x) <= if User(l) in em.blocks then 0 else 1;
          assert CountAll(AtLabel(l), y) <= if User(l) in em1.blocks then 0 else 1;
        }
      }
    }
  }

  lemma {:induction false} Then(n0: nat, em: Emit, r1: Option<Emit>, p: bool, o: seq<bool>, x: Stmts,
      r2: Option<Emit>, q: bool, u: seq<bool>, y: Stmts, whole: Stmts)
    requires n0 <= em.n
    requires forall t: Target :: t.AtLabel? ==> CountAll(t, whole) == CountAll(t, x) + CountAll(t, y)
    requires r1.Some? <==> Demand(p, o, x, em)
    requires r1.Some? ==> Leaves(n0, em, r1.value, x, o) && (r2.Some? <==> Demand(q, u, y, r1.value))
    requires r1.Some? && r2.Some? ==> Leaves(n0, r1.value, r2.value, y, u)
    ensures r1.Some? && r2.Some? <==> Demand(p && q, o + u, whole, em)
    ensures r1.Some? && r2.Some? ==> true == Leaves(n0, em, r2.value, whole, o + u)
  {
    if r1.Some? {
      Both(p, o, x, q, u, y, whole, em, r1.value);
      if r2.Some? {
        FitsCompose(n0, em, r1.value, r2.value);
        GateSplit(o, u, false);
      }
    } else {
      Both(p, o, x, q, u, y, whole, em, em);
    }
  }

  /** The translation `r` of the list succeeds exactly if the list is acceptable, and has then used
      its labels. */
  ghost predicate Accepted(r: Option<Emitted>, ks: Stack, ss: Stmts, em: Emit) {
    && (r.Some? <==> Acceptable(ks, ss, em))
    && (r.Some? ==> Leaves(em.n, em, r.value.out, ss, Order(ss)))
  }

  lemma {:induction false} Accepts(ks: Stack, ss: Stmts, em: Emit)
    requires Sound(em) && FinalOf(ks).Some?
    ensures true == Accepted(Trans(ks, ss, em), ks, ss, em)
    decreases SizeAll(ss), 2
  {
    if ss.Nil? {
      AcceptsNil(ks, em);
      return;
    }
    var s, rest := ss.head, ss.tail;
    assert SizeAll(ss) == 1 + Size(s) + SizeAll(rest);
    match s
    case Block(body) => AcceptsBlock(ks, body, rest, em);
    case If(e, a, b) => AcceptsIf(ks, e, a, b, rest, em);
    case While(e, b) => AcceptsLoop(ks, s, e, b, rest, em);
    case Do(b, e) => AcceptsLoop(ks, s, e, b, rest, em);
    case Switch(e, b) => AcceptsSwitch(ks, e, b, rest, em);
    case Case(_, b) => AcceptsCase(ks, s, b, rest, em);
    case Default(b) => AcceptsCase(ks, s, b, rest, em);
    case Label(l, b) => AcceptsLabel(ks, l, b, rest, em);
    case _ => AcceptsSimple(ks, s, rest, em);
  }

  lemma {:induction false} AcceptsNil(ks: Stack, em: Emit)
    requires Sound(em) && FinalOf(ks).Some?
    ensures true == Accepted(Trans(ks, Nil, em), ks, Nil, em)
  {
  }

  lemma {:induction false} AcceptsBlock(ks: Stack, body: Stmts, rest: Stmts, em: Emit)
    requires Sound(em) && FinalOf(ks).Some?
    ensures true == Accepted(Trans(ks, Cons(Block(body), rest), em), ks, Cons(Block(body), rest), em)
    decreases 2 + SizeAll(body) + SizeAll(rest), 1
  {
    SizeAppend(body, rest);
    BlockParts(ks, body, rest, em);
    Accepts(ks, Append(body, rest), em);
  }

  lemma {:induction false} AcceptsSimple(ks: Stack, s: Stmt, rest: Stmts, em: Emit)
    requires Sound(em) && FinalOf(ks).Some? && Simple(s)
    ensures true == Accepted(Trans(ks, Cons(s, rest), em), ks, Cons(s, rest), em)
    decreases 1 + Size(s) + SizeAll(rest), 1
  {
    Accepts(ks, rest, em);
    SimpleCounts(s, rest);
    SimplePlacement(ks, s, rest, em);
  }

  lemma SimpleCounts(s: Stmt, rest: Stmts)
    requires Simple(s)
    ensures forall t :: CountAll(t, Cons(s, rest)) == CountAll(t, rest)
  {
  }

  lemma {:induction false} SimplePlacement(ks: Stack, s: Stmt, rest: Stmts, em: Emit)
    requires Simple(s)
    ensures InPlace(ks, Cons(s, rest), em) <==>
      InPlace(ks, rest, em) && (s.Break? ==> BreakOf(ks).Some?) && (s.Continue? ==> ContinueOf(ks).Some?)
  {
    Placement(ks, s, rest, em);
  }

  lemma {:induction false} BlockParts(ks: Stack, body: Stmts, rest: Stmts, em: Emit)
    ensures forall t :: CountAll(t, Cons(Block(body), rest)) == CountAll(t, Append(body, rest))
    ensures InPlace(ks, Cons(Block(body), rest), em) <==> InPlace(ks, Append(body, rest), em)
    ensures Order(Cons(Block(body), rest)) == Order(Append(body, rest))
  {
    forall t ensures CountAll(t, Cons(Block(body), rest)) == CountAll(t, Append(body, rest)) {
      CountAppend(t, body, rest);
    }
    Placement(ks, Block(body), rest, em);
    PlacedAppend(body, rest, BreakOf(ks).Some?, ContinueOf(ks).Some?, em.sw.Some?);
  }

  lemma {:induction false} PlacedAppend(a: Stmts, b: Stmts, brk: bool, cont: bool, sw: bool)
    ensures PlacedAll(Append(a, b), brk, cont, sw) <==> PlacedAll(a, brk, cont, sw) && PlacedAll(b, brk, cont, sw)
    ensures InnerDefaultsLastAll(Append(a, b)) <==> InnerDefaultsLastAll(a) && InnerDefaultsLastAll(b)
    decreases a
  {
    if a.Cons? { PlacedAppend(a.tail, b, brk, cont, sw); }
  }

  /** Storing the result under a generated label that is still free cannot fail. */
  lemma {:induction false} AcceptsInto(n0: nat, id: nat, ks: Stack, ss: Stmts, em: Emit)
    requires Sound(em) && FinalOf(ks).Some?
    requires n0 <= id < em.n && Fresh(id) !in em.blocks
    requires em.sw.Some? ==> id != em.sw.value.cur && id != em.sw.value.next
    ensures TransInto(Fresh(id), ks, ss, em).Some? <==> Acceptable(ks, ss, em)
    ensures TransInto(Fresh(id), ks, ss, em).Some? ==>
      true == Leaves(n0, em, TransInto(Fresh(id), ks, ss, em).value, ss, Order(ss))
    decreases SizeAll(ss), 3
  {
    Accepts(ks, ss, em);
    var r := Trans(ks, ss, em);
    if r.Some? {
      assert Leaves(n0, em, r.value.out, ss, Order(ss));
      AddFree(n0, id, em, r.value.out, r.value.code, ss, Order(ss));
    }
  }

  lemma {:induction false} IfCounts(e: Expr, a: Stmt, b: Stmt, rest: Stmts)
    ensures forall t :: CountAll(t, Cons(If(e, a, b), rest)) == CountAll(t, rest) + CountAll(t, Cons(a, One(b)))
  {
    forall t ensures CountAll(t, Cons(If(e, a, b), rest)) == CountAll(t, rest) + CountAll(t, Cons(a, One(b))) {
      assert CountAll(t, One(b)) == Count(t, b);
    }
  }

  lemma IfOrder(e: Expr, a: Stmt, b: Stmt, rest: Stmts)
    ensures Order(Cons(If(e, a, b), rest)) == Order(rest) + (Order(One(a)) + Order(One(b)))
  {
  }

  lemma {:induction false} IfPlacement(ks: Stack, e: Expr, a: Stmt, b: Stmt, rest: Stmts, em: Emit)
    ensures InPlace(ks, Cons(If(e, a, b), rest), em)
      <==> InPlace(ks, rest, em) && (InPlace(ks, One(a), em) && InPlace(ks, One(b), em))
  {
    Placement(ks, If(e, a, b), rest, em);
    Placement(ks, a, rest, em);
    Placement(ks, b, rest, em);
  }

  lemma {:induction false} AcceptsIf(ks: Stack, e: Expr, a: Stmt, b: Stmt, rest: Stmts, em: Emit)
    requires Sound(em) && FinalOf(ks).Some?
    ensures true == Accepted(TransIf(ks, e, a, b, rest, em), ks, Cons(If(e, a, b), rest), em)
    decreases SizeAll(rest) + 5 + Size(a) + Size(b), 1
  {
    var ss, ab, n0 := Cons(If(e, a, b), rest), Cons(a, One(b)), em.n;
    var idCont := Fresh(em.n);
    var r1 := if rest.Nil? then Some(em) else TransInto(idCont, ks, rest, em.Bump());
    var ks1 := if rest.Nil? then ks else PushEnd(Jump(idCont), ks);
    var pr, pa, pb := InPlace(ks, rest, em), InPlace(ks, One(a), em), InPlace(ks, One(b), em);
    IfCounts(e, a, b, rest);
    IfOrder(e, a, b, rest);
    IfPlacement(ks, e, a, b, rest, em);
    if rest.Nil? { Accepts(ks, rest, em); } else { AcceptsInto(n0, em.n, ks, rest, em.Bump()); }
    var r23: Option<Emit> := None;
    if r1.Some? {
      r23 := AcceptsBranches(n0, ks1, a, b, r1.value);
      SamePlace(ks, ks1, One(a), em, r1.value);
      SamePlace(ks, ks1, One(b), em, r1.value);
    }
    Then(n0, em, r1, pr, Order(rest), rest, r23, pa && pb, Order(One(a)) + Order(One(b)), ab, ss);
    BranchesResult(ks, e, a, b, rest, em);
  }

  /** The result of an `if` is that of its second branch. */
  lemma BranchesResult(ks: Stack, e: Expr, a: Stmt, b: Stmt, rest: Stmts, em: Emit)
    ensures var r1 := if rest.Nil? then Some(em) else TransInto(Fresh(em.n), ks, rest, em.Bump());
      var ks1 := if rest.Nil? then ks else PushEnd(Jump(Fresh(em.n)), ks);
      var r2 := if r1.Some? then TransInto(Fresh(r1.value.n), ks1, One(a), r1.value.Bump()) else None;
      var r3 := if r2.Some? then TransInto(Fresh(r2.value.n), ks1, One(b), r2.value.Bump()) else None;
      var t := TransIf(ks, e, a, b, rest, em);
      (t.Some? <==> r3.Some?) && (t.Some? ==> t.value.out == r3.value)
  {
  }

  lemma {:induction false} AcceptsBranches(n0: nat, ks: Stack, a: Stmt, b: Stmt, em: Emit) returns (r: Option<Emit>)
    requires Sound(em) && FinalOf(ks).Some? && n0 <= em.n
    ensures var r2 := TransInto(Fresh(em.n), ks, One(a), em.Bump());
      r == if r2.Some? then TransInto(Fresh(r2.value.n), ks, One(b), r2.value.Bump()) else None
    ensures r.Some? <==> Demand(InPlace(ks, One(a), em) && InPlace(ks, One(b), em), Order(One(a)) + Order(One(b)),
                                Cons(a, One(b)), em)
    ensures r.Some? ==> true == Leaves(n0, em, r.value, Cons(a, One(b)), Order(One(a)) + Order(One(b)))
    decreases Size(a) + Size(b) + 2, 3
  {
    AcceptsInto(n0, em.n, ks, One(a), em.Bump());
    var r2 := TransInto(Fresh(em.n), ks, One(a), em.Bump());
    r := None;
    if r2.Some? {
      AcceptsInto(n0, r2.value.n, ks, One(b), r2.value.Bump());
      r := TransInto(Fresh(r2.value.n), ks, One(b), r2.value.Bump());
    }
    Then(n0, em, r2, InPlace(ks, One(a), em), Order(One(a)), One(a), r, InPlace(ks, One(b), em), Order(One(b)), One(b),
         Cons(a, One(b)));
  }

  /** Storing a block under a generated label that is still free. */
  lemma AddFree(n0: nat, id: nat, a: Emit, b: Emit, c: Code, ss: Stmts, o: seq<bool>)
    requires Leaves(n0, a, b, ss, o) && n0 <= id < b.n && Fresh(id) !in b.blocks
    requires b.sw.Some? ==> id != b.sw.value.cur && id != b.sw.value.next
    ensures b.Add(Fresh(id), c).Some? && true == Leaves(n0, a, b.Add(Fresh(id), c).value, ss, o)
  {
  }

  /** The body of a loop whose labels are `n0` to `n0 + 2`, and the block of its condition. */
  ghost function LoopBody(n0: nat, ks: Stack, e: Expr, b: Stmt, em: Emit): Option<Emit> {
    var r :- TransInto(Fresh(n0 + 1), ks, One(b), em);
    r.Add(Fresh(n0), Branch(None, e, Jump(Fresh(n0 + 1)), Jump(Fresh(n0 + 2))))
  }

  lemma LoopResult(ks: Stack, isWhile: bool, e: Expr, b: Stmt, rest: Stmts, em: Emit)
    ensures var r1 := TransInto(Fresh(em.n + 2), ks, rest, em.(n := em.n + 3));
      var r2 := if r1.Some? then LoopBody(em.n, LoopStack(ks, em.n), e, b, r1.value) else None;
      var t := TransLoop(ks, isWhile, e, b, rest, em);
      (t.Some? <==> r2.Some?) && (t.Some? ==> t.value.out == r2.value)
  {
  }

  lemma {:induction false} AcceptsLoop(ks: Stack, s: Stmt, e: Expr, b: Stmt, rest: Stmts, em: Emit)
    requires s == While(e, b) || s == Do(b, e)
    requires Sound(em) && FinalOf(ks).Some?
    ensures true == Accepted(TransLoop(ks, s.While?, e, b, rest, em), ks, Cons(s, rest), em)
    decreases SizeAll(rest) + 4 + Size(b), 1
  {
    var ss, n0, em0, ks1 := Cons(s, rest), em.n, em.(n := em.n + 3), LoopStack(ks, em.n);
    var r1 := TransInto(Fresh(em.n + 2), ks, rest, em0);
    LoopCounts(s, e, b, rest);
    LoopOrder(s, e, b, rest);
    LoopPlacement(ks, s, e, b, rest, em);
    AcceptsLoopRest(ks, rest, em);
    var r2: Option<Emit> := None;
    if r1.Some? {
      AcceptsLoopBody(n0, ks1, e, b, em, r1.value);
      r2 := LoopBody(n0, ks1, e, b, r1.value);
    }
    Then(n0, em, r1, InPlace(ks, rest, em), Order(rest), rest, r2, InPlace(ks1, One(b), em), Order(One(b)), One(b), ss);
    LoopResult(ks, s.While?, e, b, rest, em);
  }

  /** What follows a loop, in the block with the third of its labels. */
  lemma {:induction false} AcceptsLoopRest(ks: Stack, rest: Stmts, em: Emit)
    requires Sound(em) && FinalOf(ks).Some?
    ensures var r := TransInto(Fresh(em.n + 2), ks, rest, em.(n := em.n + 3));
      && (r.Some? <==> Demand(InPlace(ks, rest, em), Order(rest), rest, em))
      && (r.Some? ==>
            && true == Leaves(em.n, em, r.value, rest, Order(rest))
            && Sound(r.value) && em.n + 2 < r.value.n && r.value.sw.Some? == em.sw.Some?
            && Fresh(em.n) !in r.value.blocks && Fresh(em.n + 1) !in r.value.blocks
            && (r.value.sw.Some? ==> {em.n, em.n + 1} !! {r.value.sw.value.cur, r.value.sw.value.next}))
    decreases SizeAll(rest), 4
  {
    var em0 := em.(n := em.n + 3);
    AcceptsInto(em.n + 2, em.n + 2, ks, rest, em0);
    SamePlace(ks, ks, rest, em, em0);
  }

  lemma LoopCounts(s: Stmt, e: Expr, b: Stmt, rest: Stmts)
    requires s == While(e, b) || s == Do(b, e)
    ensures forall t :: CountAll(t, Cons(s, rest)) == CountAll(t, rest) + CountAll(t, One(b))
  {
  }

  lemma LoopOrder(s: Stmt, e: Expr, b: Stmt, rest: Stmts)
    requires s == While(e, b) || s == Do(b, e)
    ensures Order(Cons(s, rest)) == Order(rest) + Order(One(b))
  {
  }

  lemma {:induction false} LoopPlacement(ks: Stack, s: Stmt, e: Expr, b: Stmt, rest: Stmts, em: Emit)
    requires s == While(e, b) || s == Do(b, e)
    ensures InPlace(ks, Cons(s, rest), em) <==> InPlace(ks, rest, em) && InPlace(LoopStack(ks, em.n), One(b), em)
  {
    Placement(ks, s, rest, em);
    Placement(LoopStack(ks, em.n), b, rest, em);
  }

  lemma {:induction false} AcceptsLoopBody(n0: nat, ks: Stack, e: Expr, b: Stmt, em0: Emit, em: Emit)
    requires em0.sw.Some? == em.sw.Some?
    requires Sound(em) && FinalOf(ks).Some? && n0 + 2 < em.n
    requires Fresh(n0) !in em.blocks && Fresh(n0 + 1) !in em.blocks
    requires em.sw.Some? ==> {n0, n0 + 1} !! {em.sw.value.cur, em.sw.value.next}
    ensures LoopBody(n0, ks, e, b, em).Some? <==> Demand(InPlace(ks, One(b), em0), Order(One(b)), One(b), em)
    ensures LoopBody(n0, ks, e, b, em).Some? ==>
      true == Leaves(n0, em, LoopBody(n0, ks, e, b, em).value, One(b), Order(One(b)))
    decreases Size(b) + 1, 4
  {
    AcceptsInto(n0 + 1, n0 + 1, ks, One(b), em);
    SamePlace(ks, ks, One(b), em0, em);
    var r2 := TransInto(Fresh(n0 + 1), ks, One(b), em);
    if r2.Some? {
      assert Leaves(n0, em, r2.value, One(b), Order(One(b)));
      AddFree(n0, n0, em, r2.value, Branch(None, e, Jump(Fresh(n0 + 1)), Jump(Fresh(n0 + 2))), One(b), Order(One(b)));
    }
  }

  /** The body of a `switch` has switch data of its own and gives the outer data back; its last
      block jumps to the exit. */
  ghost function SwitchBody(ks: Stack, b: Stmt, exit: Code, em: Emit): Option<Emit> {
    var r :- Trans(ks, One(b), SwitchEmit(em));
    var sw :- r.out.sw;
    var em2 :- r.out.Add(Fresh(sw.cur), exit);
    Some(em2.With(em.sw))
  }

  lemma {:induction false} AcceptsSwitchBody(n0: nat, ks: Stack, b: Stmt, exit: Code, em: Emit)
    requires Sound(em) && FinalOf(ks).Some? && n0 <= em.n
    ensures SwitchBody(ks, b, exit, em).Some? <==>
      Demand(InPlace(ks, One(b), SwitchEmit(em)) && DefaultLast(Order(One(b))), [], One(b), em)
    ensures SwitchBody(ks, b, exit, em).Some? ==> true == Leaves(n0, em, SwitchBody(ks, b, exit, em).value, One(b), [])
    decreases Size(b) + 1, 3
  {
    Accepts(ks, One(b), SwitchEmit(em));
    var t := Trans(ks, One(b), SwitchEmit(em));
    if t.Some? { SwitchBack(n0, em, t.value.out, b, exit); }
  }

  lemma {:induction false} SwitchBack(n0: nat, em: Emit, out: Emit, b: Stmt, exit: Code)
    requires Sound(em) && n0 <= em.n && true == Leaves(em.n + 2, SwitchEmit(em), out, One(b), Order(One(b)))
    ensures out.sw.Some? && Fresh(out.sw.value.cur) !in out.blocks
    ensures true == Leaves(n0, em, out.Add(Fresh(out.sw.value.cur), exit).value.With(em.sw), One(b), [])
  {
  }

  lemma SwitchResult(ks: Stack, e: Expr, b: Stmt, rest: Stmts, em: Emit)
    ensures var r1 := TransInto(Fresh(em.n), ks, rest, em.Bump());
      var r2 := if r1.Some? then SwitchBody(SwitchStack(ks, em.n), b, Jump(Fresh(em.n)), r1.value) else None;
      var t := TransSwitch(ks, e, b, rest, em);
      (t.Some? <==> r2.Some?) && (t.Some? ==> t.value.out == r2.value)
  {
  }

  lemma SwitchCounts(e: Expr, b: Stmt, rest: Stmts)
    ensures forall t: Target :: t.AtLabel? ==>
      CountAll(t, Cons(Switch(e, b), rest)) == CountAll(t, rest) + CountAll(t, One(b))
    ensures Order(Cons(Switch(e, b), rest)) == Order(rest) + []
  {
  }

  lemma {:induction false} SwitchPlacement(ks: Stack, e: Expr, b: Stmt, rest: Stmts, em: Emit)
    ensures InPlace(ks, Cons(Switch(e, b), rest), em) <==>
      InPlace(ks, rest, em) && (InPlace(SwitchStack(ks, em.n), One(b), SwitchEmit(em)) && DefaultLast(Order(One(b))))
  {
    Placement(ks, Switch(e, b), rest, em);
    Placement(SwitchStack(ks, em.n), b, rest, SwitchEmit(em));
  }

  lemma {:induction false} AcceptsSwitch(ks: Stack, e: Expr, b: Stmt, rest: Stmts, em: Emit)
    requires Sound(em) && FinalOf(ks).Some?
    ensures true == Accepted(TransSwitch(ks, e, b, rest, em), ks, Cons(Switch(e, b), rest), em)
    decreases SizeAll(rest) + 4 + Size(b), 1
  {
    var ss, ks1, exit := Cons(Switch(e, b), rest), SwitchStack(ks, em.n), Jump(Fresh(em.n));
    var r1 := TransInto(Fresh(em.n), ks, rest, em.Bump());
    var pr := InPlace(ks, rest, em);
    var pb := InPlace(ks1, One(b), SwitchEmit(em)) && DefaultLast(Order(One(b)));
    SwitchCounts(e, b, rest);
    SwitchPlacement(ks, e, b, rest, em);
    AcceptsInto(em.n, em.n, ks, rest, em.Bump());
    var r2: Option<Emit> := None;
    if r1.Some? {
      AcceptsSwitchBody(em.n, ks1, b, exit, r1.value);
      SamePlace(ks1, ks1, One(b), SwitchEmit(em), SwitchEmit(r1.value));
      r2 := SwitchBody(ks1, b, exit, r1.value);
    }
    Then(em.n, em, r1, pr, Order(rest), rest, r2, pb, [], One(b), ss);
    SwitchResult(ks, e, b, rest, em);
  }

  lemma {:induction false} AcceptsCase(ks: Stack, s: Stmt, b: Stmt, rest: Stmts, em: Emit)
    requires (s.Case? || s.Default?) && s.labelled == b
    requires Sound(em) && FinalOf(ks).Some?
    ensures true == Accepted(TransCase(ks, s, b, rest, em), ks, Cons(s, rest), em)
    decreases SizeAll(rest) + 4 + Size(b), 1
  {
    var ss, inner := Cons(s, rest), Cons(b, rest);
    CaseCounts(s, b, rest);
    CaseOrder(s, b, rest);
    CasePlacement(ks, s, b, rest, em);
    GateSplit([s.Default?], Order(inner), Seen(em.sw));
    if em.sw.Some? && em.sw.value.dflt.None? {
      var ks1 := PushEndCase(Jump(Fresh(em.sw.value.next)), ks);
      Accepts(ks1, inner, Registered(s, em));
      SamePlace(ks, ks1, inner, em, Registered(s, em));
      var r := Trans(ks1, inner, Registered(s, em));
      if r.Some? { CaseBack(em, r.value.out, r.value.code, s, inner, ss); }
    }
  }

  /** Storing the block of a `case` or `default`. */
  lemma {:induction false} CaseBack(em: Emit, out: Emit, c: Code, s: Stmt, inner: Stmts, ss: Stmts)
    requires (s.Case? || s.Default?) && Sound(em) && em.sw.Some? && em.sw.value.dflt.None?
    requires true == Leaves(em.n + 1, Registered(s, em), out, inner, Order(inner))
    requires forall l :: CountAll(AtLabel(l), ss) == CountAll(AtLabel(l), inner)
    requires Order(ss) == [s.Default?] + Order(inner)
    ensures out.Add(Fresh(em.sw.value.cur), c).Some?
    ensures true == Leaves(em.n, em, out.Add(Fresh(em.sw.value.cur), c).value, ss, Order(ss))
  {
  }

  lemma {:induction false} CaseCounts(s: Stmt, b: Stmt, rest: Stmts)
    requires (s.Case? || s.Default?) && s.labelled == b
    ensures forall l :: CountAll(AtLabel(l), Cons(s, rest)) == CountAll(AtLabel(l), Cons(b, rest))
  {
    forall l ensures CountAll(AtLabel(l), Cons(s, rest)) == CountAll(AtLabel(l), Cons(b, rest)) {
      assert Count(AtLabel(l), s) == Count(AtLabel(l), b);
    }
  }

  lemma CaseOrder(s: Stmt, b: Stmt, rest: Stmts)
    requires (s.Case? || s.Default?) && s.labelled == b
    ensures Order(Cons(s, rest)) == [s.Default?] + Order(Cons(b, rest))
  {
  }

  lemma {:induction false} CasePlacement(ks: Stack, s: Stmt, b: Stmt, rest: Stmts, em: Emit)
    requires (s.Case? || s.Default?) && s.labelled == b
    ensures InPlace(ks, Cons(s, rest), em) <==> em.sw.Some? && InPlace(ks, Cons(b, rest), em)
  {
    Placement(ks, s, rest, em);
    Placement(ks, b, rest, em);
  }

  lemma {:induction false} AcceptsLabel(ks: Stack, l: string, b: Stmt, rest: Stmts, em: Emit)
    requires Sound(em) && FinalOf(ks).Some?
    ensures true == Accepted(Trans(ks, Cons(Label(l, b), rest), em), ks, Cons(Label(l, b), rest), em)
    decreases SizeAll(rest) + 4 + Size(b), 1
  {
    var ss, inner := Cons(Label(l, b), rest), Cons(b, rest);
    Accepts(ks, inner, em);
    LabelCounts(l, b, rest, em.blocks);
    LabelPlacement(ks, l, b, rest, em);
    LabelOrder(l, b, rest);
    var r := Trans(ks, inner, em);
    if r.Some? && User(l) !in r.value.out.blocks {
      LabelAdded(em, r.value.out, l, r.value.code, b, rest);
    }
  }

  /** Storing the block of a label that is still free. */
  lemma {:induction false} LabelAdded(a: Emit, b: Emit, l: string, c: Code, s: Stmt, rest: Stmts)
    requires true == Leaves(a.n, a, b, Cons(s, rest), Order(Cons(s, rest))) && User(l) !in b.blocks
    ensures b.Add(User(l), c).Some?
    ensures true == Leaves(a.n, a, b.Add(User(l), c).value, Cons(Label(l, s), rest), Order(Cons(Label(l, s), rest)))
  {
    LabelCounts(l, s, rest, a.blocks);
    LabelOrder(l, s, rest);
    var b' := b.Add(User(l), c).value;
    forall x ensures User(x) in b'.blocks <==> User(x) in a.blocks || HasAny(AtLabel(x), Cons(Label(l, s), rest)) {
      assert CountAll(AtLabel(x), Cons(Label(l, s), rest)) ==
        (if x == l then 1 else 0) + CountAll(AtLabel(x), Cons(s, rest));
    }
  }

  lemma {:induction false} LabelCounts(l: string, b: Stmt, rest: Stmts, blocks: Blocks)
    ensures forall x ::
      CountAll(AtLabel(x), Cons(Label(l, b), rest)) == (if x == l then 1 else 0) + CountAll(AtLabel(x), Cons(b, rest))
    ensures NoClash(Cons(Label(l, b), rest), blocks) <==>
      NoClash(Cons(b, rest), blocks) && User(l) !in blocks && !HasAny(AtLabel(l), Cons(b, rest))
  {
    var ss, inner := Cons(Label(l, b), rest), Cons(b, rest);
    forall x ensures CountAll(AtLabel(x), ss) == (if x == l then 1 else 0) + CountAll(AtLabel(x), inner) {
      assert Count(AtLabel(x), Label(l, b)) == (if x == l then 1 else 0) + Count(AtLabel(x), b);
    }
    if NoClash(ss, blocks) {
      assert CountAll(AtLabel(l), ss) <= if User(l) in blocks then 0 else 1;
      forall x ensures CountAll(AtLabel(x), inner) <= if User(x) in blocks then 0 else 1 {
        assert CountAll(AtLabel(x), ss) <= if User(x) in blocks then 0 else 1;
      }
    }
    if NoClash(inner, blocks) && User(l) !in blocks && !HasAny(AtLabel(l), inner) {
      forall x ensures CountAll(AtLabel(x), ss) <= if User(x) in blocks then 0 else 1 {
        assert CountAll(AtLabel(x), inner) <= if User(x) in blocks then 0 else 1;
      }
    }
  }

  lemma {:induction false} LabelPlacement(ks: Stack, l: string, b: Stmt, rest: Stmts, em: Emit)
    ensures InPlace(ks, Cons(Label(l, b), rest), em) <==> InPlace(ks, Cons(b, rest), em)
  {
    Placement(ks, Label(l, b), rest, em);
    Placement(ks, b, rest, em);
  }

  lemma LabelOrder(l: string, b: Stmt, rest: Stmts)
    ensures Order(Cons(Label(l, b), rest)) == Order(Cons(b, rest))
  {
  }

  /** The bodies the translation accepts, for a function. */
  ghost predicate WellFormedBody(body: Stmts) {
    && PlacedAll(body, false, false, false)
    && InnerDefaultsLastAll(body)
    && forall l :: CountAll(AtLabel(l), body) <= 1
  }

  lemma {:induction false} OrderOutside(ss: Stmts, brk: bool, cont: bool)
    requires PlacedAll(ss, brk, cont, false)
    ensures Order(ss) == []
    decreases SizeAll(ss)
  {
    if ss.Cons? {
      var s, rest := ss.head, ss.tail;
      assert SizeAll(ss) == 1 + Size(s) + SizeAll(rest);
      match s
      case Block(body) =>
        assert Size(s) == 1 + SizeAll(body);
        SizeAppend(body, rest);
        PlacedAppend(body, rest, brk, cont, false);
        OrderOutside(Append(body, rest), brk, cont);
      case If(_, a, b) =>
        assert Size(s) == 4 + Size(a) + Size(b);
        OrderOutside(rest, brk, cont);
        OrderOutside(One(a), brk, cont);
        OrderOutside(One(b), brk, cont);
      case While(_, b) =>
        assert Size(s) == 3 + Size(b);
        OrderOutside(rest, brk, cont);
        OrderOutside(One(b), true, true);
      case Do(b, _) =>
        assert Size(s) == 3 + Size(b);
        OrderOutside(rest, brk, cont);
        OrderOutside(One(b), true, true);
      case Label(_, b) =>
        assert Size(s) == 3 + Size(b);
        OrderOutside(Cons(b, rest), brk, cont);
      case _ => OrderOutside(rest, brk, cont);
    }
  }

  /** A body is translated exactly when it is well formed; the user labels of the result are those
      of the body. */
  lemma {:induction false} TranslationAccepts(dflt: Value, body: Stmts)
    ensures TranslateBody(dflt, body).Some? <==> WellFormedBody(body)
    ensures TranslateBody(dflt, body).Some? ==>
      forall l :: User(l) in TranslateBody(dflt, body).value <==> HasAny(AtLabel(l), body)
  {
    var em := Emit(map[], 1, None);
    Accepts(InitialStack(dflt), body, em);
    if PlacedAll(body, false, false, false) {
      OrderOutside(body, false, false);
    }
    assert BreakOf(InitialStack(dflt)).None? && ContinueOf(InitialStack(dflt)).None?;
    assert InPlace(InitialStack(dflt), body, em) <==>
      PlacedAll(body, false, false, false) && InnerDefaultsLastAll(body);
  }
}
