/**
 What the translation does to the data it threads through: blocks are only added, and the `case`
 and `default` labels registered for the innermost `switch` are exactly those of the statements.
 */
module TranslateFacts {
  import opened Wrappers
  import opened CSource
  import opened Cfg
  import opened Translate

  ghost predicate Extends(small: Blocks, big: Blocks) {
    forall id :: id in small ==> id in big && big[id] == small[id]
  }

  /** Position `k` of the case list was registered between `a` and `b`, for constant `i`. */
  ghost predicate NewCase(a: Emit, b: Emit, i: int, k: nat) {
    a.sw.Some? && b.sw.Some? && |a.sw.value.cases| <= k < |b.sw.value.cases| && b.sw.value.cases[k].0 == i
  }

  ghost predicate Grows(a: Emit, b: Emit) {
    && Extends(a.blocks, b.blocks)
    && a.n <= b.n
    && (a.sw.Some? <==> b.sw.Some?)
    && (a.sw.Some? ==> a.sw.value.cases <= b.sw.value.cases)
    && (a.sw.Some? && a.sw.value.dflt.Some? ==> b.sw == a.sw)
  }

  /** The labels of the innermost switch registered between `a` and `b` are those of `ss`. */
  ghost predicate Registers(a: Emit, b: Emit, ss: Stmts) {
    && (forall i, k :: NewCase(a, b, i, k) ==> HasAny(AtCase(i), ss))
    && (forall i :: HasAny(AtCase(i), ss) ==> exists k :: NewCase(a, b, i, k))
    && (HasAny(AtDefault, ss) ==> a.sw.Some? && a.sw.value.dflt.None?)
    && (a.sw.Some? && b.sw.Some? ==>
          (b.sw.value.dflt.Some? <==> a.sw.value.dflt.Some? || HasAny(AtDefault, ss)))
  }

  ghost predicate Splits(whole: Stmts, x: Stmts, y: Stmts) {
    forall t: Target :: !t.AtLabel? ==> CountAll(t, whole) == CountAll(t, x) + CountAll(t, y)
  }

  lemma {:induction false} Chain(a: Emit, b: Emit, c: Emit, x: Stmts, y: Stmts, whole: Stmts)
    requires Grows(a, b) && Grows(b, c) && Registers(a, b, x) && Registers(b, c, y)
    requires Splits(whole, x, y)
    ensures Grows(a, c) && Registers(a, c, whole)
  {
    forall i, k: nat | NewCase(a, c, i, k)
      ensures HasAny(AtCase(i), whole)
    {
      if k < |b.sw.value.cases| {
        assert NewCase(a, b, i, k);
      } else {
        assert NewCase(b, c, i, k);
      }
      assert CountAll(AtCase(i), whole) == CountAll(AtCase(i), x) + CountAll(AtCase(i), y);
    }
    forall i | HasAny(AtCase(i), whole)
      ensures exists k :: NewCase(a, c, i, k)
    {
      assert CountAll(AtCase(i), whole) == CountAll(AtCase(i), x) + CountAll(AtCase(i), y);
      if HasAny(AtCase(i), x) {
        var k :| NewCase(a, b, i, k);
        assert NewCase(a, c, i, k);
      } else {
        var k :| NewCase(b, c, i, k);
        assert NewCase(a, c, i, k);
      }
    }
    assert CountAll(AtDefault, whole) == CountAll(AtDefault, x) + CountAll(AtDefault, y);
  }

  /** Emitting a block or drawing a label registers nothing. */
  lemma Quiet(a: Emit, b: Emit)
    requires Extends(a.blocks, b.blocks) && a.n <= b.n && a.sw == b.sw
    ensures Grows(a, b) && Registers(a, b, Nil)
  {
  }

  lemma {:induction false} TransGrows(ks: Stack, ss: Stmts, em: Emit)
    requires Trans(ks, ss, em).Some?
    ensures true == Grows(em, Trans(ks, ss, em).value.out)
    ensures true == Registers(em, Trans(ks, ss, em).value.out, ss)
    decreases SizeAll(ss), 2
  {
    var out := Trans(ks, ss, em).value.out;
    if ss.Nil? {
      Quiet(em, out);
    } else {
      var s, rest := ss.head, ss.tail;
      assert SizeAll(ss) == 1 + Size(s) + SizeAll(rest);
      if s.Block? {
        SizeAppend(s.body, rest);
        assert Trans(ks, ss, em) == Trans(ks, Append(s.body, rest), em);
        TransGrows(ks, Append(s.body, rest), em);
        forall t ensures CountAll(t, ss) == CountAll(t, Append(s.body, rest)) { CountAppend(t, s.body, rest); }
        SameLabels(em, out, Append(s.body, rest), ss);
      } else if s.If? {
        assert Trans(ks, ss, em) == TransIf(ks, s.e, s.thn, s.els, rest, em);
        IfGrows(ks, s.e, s.thn, s.els, rest, em);
      } else if s.While? || s.Do? {
        assert Trans(ks, ss, em) == TransLoop(ks, s.While?, s.e, s.loop, rest, em);
        LoopGrows(ks, s, s.e, s.loop, rest, em);
      } else if s.Switch? {
        assert Trans(ks, ss, em) == TransSwitch(ks, s.e, s.cases, rest, em);
        SwitchGrows(ks, s.e, s.cases, rest, em);
      } else if s.Case? || s.Default? {
        assert Trans(ks, ss, em) == TransCase(ks, s, s.labelled, rest, em);
        CaseGrows(ks, s, s.labelled, rest, em);
      } else if s.Label? {
        assert TransInto(User(s.l), ks, Cons(s.labelled, rest), em) == Some(out);
        IntoGrows(User(s.l), ks, Cons(s.labelled, rest), em);
        SameLabels(em, out, Cons(s.labelled, rest), ss);
      } else {
        assert out == Trans(ks, rest, em).value.out;
        TransGrows(ks, rest, em);
        SameLabels(em, out, rest, ss);
      }
    }
  }

  lemma {:induction false} SameLabels(a: Emit, b: Emit, x: Stmts, y: Stmts)
    requires Registers(a, b, x)
    requires forall t: Target :: !t.AtLabel? ==> CountAll(t, y) == CountAll(t, x)
    ensures Registers(a, b, y)
  {
    forall i ensures HasAny(AtCase(i), x) <==> HasAny(AtCase(i), y) {
      assert CountAll(AtCase(i), y) == CountAll(AtCase(i), x);
    }
    assert CountAll(AtDefault, y) == CountAll(AtDefault, x);
  }

  lemma {:induction false} IntoGrows(id: BlockId, ks: Stack, ss: Stmts, em: Emit)
    requires TransInto(id, ks, ss, em).Some?
    ensures Grows(em, TransInto(id, ks, ss, em).value)
    ensures Registers(em, TransInto(id, ks, ss, em).value, ss)
    decreases SizeAll(ss), 3
  {
    TransGrows(ks, ss, em);
    var r := Trans(ks, ss, em).value;
    var out := TransInto(id, ks, ss, em).value;
    Quiet(r.out, out);
    Chain(em, r.out, out, ss, Nil, ss);
  }

  /** The three translations an `if` is made of: the rest of the list, then the branches. */
  lemma {:induction false} IfStages(ks: Stack, e: Expr, a: Stmt, b: Stmt, rest: Stmts, em: Emit)
    returns (em1: Emit, ks1: Stack, em2: Emit)
    requires TransIf(ks, e, a, b, rest, em).Some?
    ensures var idCont := Fresh(em.n);
      if rest.Nil? then em1 == em && ks1 == ks
      else TransInto(idCont, ks, rest, em.Bump()) == Some(em1) && ks1 == PushEnd(Jump(idCont), ks)
    ensures TransInto(Fresh(em1.n), ks1, One(a), em1.Bump()) == Some(em2)
    ensures TransInto(Fresh(em2.n), ks1, One(b), em2.Bump()) == Some(TransIf(ks, e, a, b, rest, em).value.out)
    ensures var code := TransIf(ks, e, a, b, rest, em).value.code;
      && code.Branch? && code.e == e && code.thn == Jump(Fresh(em1.n)) && code.els == Jump(Fresh(em2.n))
      && code.join == if rest.Nil? then None else Some(Fresh(em.n))
    ensures Grows(em, em1) && Registers(em, em1, rest)
    ensures Grows(em1, em2) && Registers(em1, em2, One(a))
    ensures var em3 := TransIf(ks, e, a, b, rest, em).value.out; Grows(em2, em3) && Registers(em2, em3, One(b))
    decreases SizeAll(rest) + 5 + Size(a) + Size(b), 0
  {
    var idCont := Fresh(em.n);
    em1 := if rest.Nil? then em else TransInto(idCont, ks, rest, em.Bump()).value;
    ks1 := if rest.Nil? then ks else PushEnd(Jump(idCont), ks);
    em2 := TransInto(Fresh(em1.n), ks1, One(a), em1.Bump()).value;
    var em3 := TransInto(Fresh(em2.n), ks1, One(b), em2.Bump()).value;
    Quiet(em, em.Bump());
    Quiet(em1, em1.Bump());
    Quiet(em2, em2.Bump());
    if rest.Nil? {
      Quiet(em, em1);
    } else {
      IntoGrows(idCont, ks, rest, em.Bump());
      Chain(em, em.Bump(), em1, Nil, rest, rest);
    }
    IntoGrows(Fresh(em1.n), ks1, One(a), em1.Bump());
    Chain(em1, em1.Bump(), em2, Nil, One(a), One(a));
    IntoGrows(Fresh(em2.n), ks1, One(b), em2.Bump());
    Chain(em2, em2.Bump(), em3, Nil, One(b), One(b));
  }

  lemma {:induction false} IfGrows(ks: Stack, e: Expr, a: Stmt, b: Stmt, rest: Stmts, em: Emit)
    requires TransIf(ks, e, a, b, rest, em).Some?
    ensures Grows(em, TransIf(ks, e, a, b, rest, em).value.out)
    ensures Registers(em, TransIf(ks, e, a, b, rest, em).value.out, Cons(If(e, a, b), rest))
    decreases SizeAll(rest) + 5 + Size(a) + Size(b), 1
  {
    var out := TransIf(ks, e, a, b, rest, em).value.out;
    var em1, ks1, em2 := IfStages(ks, e, a, b, rest, em);
    Chain(em1, em2, out, One(a), One(b), Cons(a, One(b)));
    Chain(em, em1, out, rest, Cons(a, One(b)), Cons(If(e, a, b), rest));
  }

  /** The two translations a loop is made of: the rest of the list, then the body. */
  lemma {:induction false} LoopStages(ks: Stack, isWhile: bool, e: Expr, b: Stmt, rest: Stmts, em: Emit)
    returns (em1: Emit, em2: Emit)
    requires TransLoop(ks, isWhile, e, b, rest, em).Some?
    ensures TransInto(Fresh(em.n + 2), ks, rest, em.(n := em.n + 3)) == Some(em1)
    ensures TransInto(Fresh(em.n + 1), LoopStack(ks, em.n), One(b), em1) == Some(em2)
    ensures var r := TransLoop(ks, isWhile, e, b, rest, em).value;
      && em2.Add(Fresh(em.n), Branch(None, e, Jump(Fresh(em.n + 1)), Jump(Fresh(em.n + 2)))) == Some(r.out)
      && r.code == Jump(Fresh(if isWhile then em.n else em.n + 1))
    ensures Grows(em, em1) && Registers(em, em1, rest)
    ensures Grows(em1, em2) && Registers(em1, em2, One(b))
    decreases SizeAll(rest) + 4 + Size(b), 0
  {
    var em0 := em.(n := em.n + 3);
    em1 := TransInto(Fresh(em.n + 2), ks, rest, em0).value;
    em2 := TransInto(Fresh(em.n + 1), LoopStack(ks, em.n), One(b), em1).value;
    Quiet(em, em0);
    IntoGrows(Fresh(em.n + 2), ks, rest, em0);
    Chain(em, em0, em1, Nil, rest, rest);
    IntoGrows(Fresh(em.n + 1), LoopStack(ks, em.n), One(b), em1);
  }

  lemma {:induction false} LoopGrows(ks: Stack, s: Stmt, e: Expr, b: Stmt, rest: Stmts, em: Emit)
    requires s == While(e, b) || s == Do(b, e)
    requires TransLoop(ks, s.While?, e, b, rest, em).Some?
    ensures true == Grows(em, TransLoop(ks, s.While?, e, b, rest, em).value.out)
    ensures true == Registers(em, TransLoop(ks, s.While?, e, b, rest, em).value.out, Cons(s, rest))
    decreases SizeAll(rest) + 4 + Size(b), 1
  {
    var out := TransLoop(ks, s.While?, e, b, rest, em).value.out;
    var em1, em2 := LoopStages(ks, s.While?, e, b, rest, em);
    Chain(em, em1, em2, rest, One(b), Cons(s, rest));
    Quiet(em2, out);
    Chain(em, em2, out, Cons(s, rest), Nil, Cons(s, rest));
  }

  /** The two translations a `switch` is made of: the rest of the list, then the body with switch
      data of its own. */
  lemma {:induction false} SwitchStages(ks: Stack, e: Expr, b: Stmt, rest: Stmts, em: Emit)
    returns (em1: Emit, r: Emitted)
    requires TransSwitch(ks, e, b, rest, em).Some?
    ensures TransInto(Fresh(em.n), ks, rest, em.Bump()) == Some(em1)
    ensures Trans(SwitchStack(ks, em.n), One(b), SwitchEmit(em1)) == Some(r) && r.out.sw.Some?
    ensures var t := TransSwitch(ks, e, b, rest, em).value;
      && t.code == Dispatch(e, r.out.sw.value, Jump(Fresh(em.n)))
      && Extends(r.out.blocks, t.out.blocks) && t.out.sw == em1.sw && t.out.n == r.out.n
    ensures Grows(em, em1) && Registers(em, em1, rest)
    ensures Grows(SwitchEmit(em1), r.out) && Registers(SwitchEmit(em1), r.out, One(b))
    decreases SizeAll(rest) + 4 + Size(b), 0
  {
    em1 := TransInto(Fresh(em.n), ks, rest, em.Bump()).value;
    r := Trans(SwitchStack(ks, em.n), One(b), SwitchEmit(em1)).value;
    Quiet(em, em.Bump());
    IntoGrows(Fresh(em.n), ks, rest, em.Bump());
    Chain(em, em.Bump(), em1, Nil, rest, rest);
    TransGrows(SwitchStack(ks, em.n), One(b), SwitchEmit(em1));
  }

  lemma {:induction false} SwitchGrows(ks: Stack, e: Expr, b: Stmt, rest: Stmts, em: Emit)
    requires TransSwitch(ks, e, b, rest, em).Some?
    ensures Grows(em, TransSwitch(ks, e, b, rest, em).value.out)
    ensures Registers(em, TransSwitch(ks, e, b, rest, em).value.out, Cons(Switch(e, b), rest))
    decreases SizeAll(rest) + 4 + Size(b), 1
  {
    var out := TransSwitch(ks, e, b, rest, em).value.out;
    var em1, r := SwitchStages(ks, e, b, rest, em);
    Quiet(em1, out);
    Chain(em, em1, out, rest, Nil, Cons(Switch(e, b), rest));
  }

  /** A `case` or `default` registers itself and translates what it labels together with the rest. */
  lemma {:induction false} CaseStages(ks: Stack, s: Stmt, b: Stmt, rest: Stmts, em: Emit)
    returns (ks1: Stack, r: Emitted)
    requires (s.Case? || s.Default?) && s.labelled == b
    requires TransCase(ks, s, b, rest, em).Some?
    ensures em.sw.Some? && em.sw.value.dflt.None? && ks1 == PushEndCase(Jump(Fresh(em.sw.value.next)), ks)
    ensures Trans(ks1, Cons(b, rest), Registered(s, em)) == Some(r)
    ensures var t := TransCase(ks, s, b, rest, em).value;
      && r.out.Add(Fresh(em.sw.value.cur), r.code) == Some(t.out)
      && t.code == Jump(Fresh(em.sw.value.cur))
    ensures Grows(Registered(s, em), r.out) && Registers(Registered(s, em), r.out, Cons(b, rest))
    decreases SizeAll(rest) + 4 + Size(b), 0
  {
    ks1 := PushEndCase(Jump(Fresh(em.sw.value.next)), ks);
    r := Trans(ks1, Cons(b, rest), Registered(s, em)).value;
    TransGrows(ks1, Cons(b, rest), Registered(s, em));
  }

  lemma {:induction false} CaseRegisters(s: Stmt, rest: Stmts, em: Emit, out: Emit)
    requires (s.Case? || s.Default?) && em.sw.Some? && em.sw.value.dflt.None?
    requires Grows(Registered(s, em), out) && Registers(Registered(s, em), out, Cons(s.labelled, rest))
    ensures Grows(em, out) && Registers(em, out, Cons(s, rest))
  {
    var em1 := Registered(s, em);
    var mark := One(if s.Case? then Case(s.i, Skip) else Default(Skip));
    var own := if s.Case? then AtCase(s.i) else AtDefault;
    forall t: Target
      ensures CountAll(t, mark) == if t == own then 1 else 0
      ensures CountAll(t, Cons(s, rest)) == CountAll(t, mark) + CountAll(t, Cons(s.labelled, rest))
    {
      assert Count(t, mark.head) == if t == own then 1 else 0;
      assert Count(t, s) == (if t == own then 1 else 0) + Count(t, s.labelled);
    }
    assert Registers(em, em1, mark) by {
      if s.Case? {
        assert NewCase(em, em1, s.i, |em.sw.value.cases|);
      }
    }
    Chain(em, em1, out, mark, Cons(s.labelled, rest), Cons(s, rest));
  }

  lemma {:induction false} CaseGrows(ks: Stack, s: Stmt, b: Stmt, rest: Stmts, em: Emit)
    requires (s.Case? || s.Default?) && s.labelled == b
    requires TransCase(ks, s, b, rest, em).Some?
    ensures Grows(em, TransCase(ks, s, b, rest, em).value.out)
    ensures Registers(em, TransCase(ks, s, b, rest, em).value.out, Cons(s, rest))
    decreases SizeAll(rest) + 4 + Size(b), 1
  {
    var out := TransCase(ks, s, b, rest, em).value.out;
    var ks1, r := CaseStages(ks, s, b, rest, em);
    CaseRegisters(s, rest, em, r.out);
    Quiet(r.out, out);
    Chain(em, r.out, out, Cons(s, rest), Nil, Cons(s, rest));
  }
}
