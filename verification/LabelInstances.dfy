/**
 Instances of the condition on the order of `case` and `default` labels.  The order that counts is
 the one in which the translation meets the labels: what follows a branch comes before its inside.
 */
module LabelInstances {
  import opened CSource
  import Translate
  import opened TranslateAccepts

  /** `switch (e) { a b }` */
  function SwitchOf(e: Expr, a: Stmt, b: Stmt): Stmts { One(Switch(e, Block(Cons(a, One(b))))) }

  lemma {:induction false} SwitchOfOrder(e: Expr, a: Stmt, b: Stmt)
    ensures InnerDefaultsLastAll(SwitchOf(e, a, b)) ==> DefaultLast(Order(Cons(a, One(b))))
    ensures DefaultLast(Order(Cons(a, One(b)))) && InnerDefaultsLast(a) && InnerDefaultsLast(b) ==>
      InnerDefaultsLastAll(SwitchOf(e, a, b))
  {
    var body := Block(Cons(a, One(b)));
    assert Append(Cons(a, One(b)), Nil) == Cons(a, One(b)) by { AppendNil(Cons(a, One(b))); }
    assert Order(One(body)) == Order(Cons(a, One(b)));
    assert InnerDefaultsLastAll(SwitchOf(e, a, b)) <==> InnerDefaultsLast(Switch(e, body));
    assert InnerDefaultsLast(body) <==> InnerDefaultsLast(a) && InnerDefaultsLastAll(One(b));
    assert InnerDefaultsLastAll(One(b)) <==> InnerDefaultsLast(b) && InnerDefaultsLastAll(Nil);
  }

  lemma {:induction false} AppendNil(ss: Stmts)
    ensures Append(ss, Nil) == ss
    decreases ss
  {
    if ss.Cons? { AppendNil(ss.tail); }
  }

  /** `switch (e) { default: ; case 1: ; }` is rejected. */
  lemma {:induction false} DefaultFirstRejected(dflt: Value, e: Expr)
    ensures Translate.TranslateBody(dflt, SwitchOf(e, Default(Skip), Case(1, Skip))).None?
  {
    TranslationAccepts(dflt, SwitchOf(e, Default(Skip), Case(1, Skip)));
    SwitchOfOrder(e, Default(Skip), Case(1, Skip));
    var o := Order(Cons(Default(Skip), One(Case(1, Skip))));
    assert o == [true] + Order(Cons(Skip, One(Case(1, Skip))))
      && Order(Cons(Skip, One(Case(1, Skip)))) == Order(One(Case(1, Skip)));
    assert Order(One(Case(1, Skip))) == [false] + Order(One(Skip)) && o[0];
  }

  /** `switch (e) { if (c) case 1: ; else ; default: ; }` is rejected, too: the `default` behind the
      branch is met before the `case` in it. */
  lemma {:induction false} CaseInBranchRejected(dflt: Value, e: Expr, c: Expr)
    ensures Translate.TranslateBody(dflt, SwitchOf(e, If(c, Case(1, Skip), Skip), Default(Skip))).None?
  {
    var a := If(c, Case(1, Skip), Skip);
    TranslationAccepts(dflt, SwitchOf(e, a, Default(Skip)));
    SwitchOfOrder(e, a, Default(Skip));
    assert Order(Cons(a, One(Default(Skip)))) ==
      Order(One(Default(Skip))) + Order(One(Case(1, Skip))) + Order(One(Skip));
    assert Order(One(Default(Skip))) == [true] + Order(One(Skip));
    assert Order(One(Case(1, Skip))) == [false] + Order(One(Skip));
    assert Order(Cons(a, One(Default(Skip))))[0];
  }

  /** `switch (e) { if (c) default: ; else ; case 1: ; }` is accepted. */
  lemma {:induction false} DefaultInBranchAccepted(dflt: Value, e: Expr, c: Expr)
    ensures Translate.TranslateBody(dflt, SwitchOf(e, If(c, Default(Skip), Skip), Case(1, Skip))).Some?
  {
    var a, b := If(c, Default(Skip), Skip), Case(1, Skip);
    var body := SwitchOf(e, a, b);
    TranslationAccepts(dflt, body);
    SwitchOfOrder(e, a, b);
    assert Order(One(Skip)) == Order(Nil) == [];
    assert Order(One(b)) == [false] + Order(One(Skip)) == [false];
    assert Order(One(Default(Skip))) == [true] + Order(One(Skip)) == [true];
    assert Order(Cons(a, One(b))) == Order(One(b)) + Order(One(Default(Skip))) + Order(One(Skip)) == [false, true];
    assert Placed(Skip, true, false, true) && Placed(Default(Skip), true, false, true);
    assert Placed(a, true, false, true) && Placed(b, true, false, true);
    assert PlacedAll(Cons(a, One(b)), true, false, true) by { assert PlacedAll(One(b), true, false, true); }
    assert Placed(Block(Cons(a, One(b))), true, false, true);
    assert Placed(Switch(e, Block(Cons(a, One(b)))), false, false, false);
    assert PlacedAll(body, false, false, false) by { assert PlacedAll(Nil, false, false, false); }
    assert InnerDefaultsLast(Skip) && InnerDefaultsLast(Default(Skip));
    assert InnerDefaultsLast(a) && InnerDefaultsLast(b);
    assert DefaultLast([false, true]);
    forall l ensures CountAll(AtLabel(l), body) <= 1 {
      assert Count(AtLabel(l), Skip) == 0 && Count(AtLabel(l), Default(Skip)) == 0;
      assert Count(AtLabel(l), a) == 0 && Count(AtLabel(l), b) == 0 && CountAll(AtLabel(l), Nil) == 0;
      assert CountAll(AtLabel(l), One(b)) == 0;
      assert CountAll(AtLabel(l), Cons(a, One(b))) == 0;
      assert Count(AtLabel(l), Block(Cons(a, One(b)))) == 0;
    }
  }
}
