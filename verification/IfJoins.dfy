/**
 The join label that the branch emitted for an `if` carries: it names the block of what follows the
 `if`, and there both branches arrive when they end normally.
 */
module IfJoins {
  import opened Wrappers
  import opened CSource
  import opened Cfg
  import opened Translate
  import TranslateFacts
  import Preservation

  /** Block `l` is new and holds the code that the list has under the given stack and switch data. */
  ghost predicate HoldsCode(bs: Blocks, l: BlockId, ks: Stack, ss: Stmts, em: Emit) {
    l in bs && l !in em.blocks && exists n: nat ::
      Trans(ks, ss, em.(n := n)).Some? && bs[l] == Trans(ks, ss, em.(n := n)).value.code
  }

  /** A branch has no join exactly if nothing follows the `if`; otherwise the join is the block of what
      follows. */
  lemma {:induction false} JoinIsRest(ks: Stack, e: Expr, a: Stmt, b: Stmt, rest: Stmts, em: Emit)
    requires Trans(ks, Cons(If(e, a, b), rest), em).Some?
    ensures var r := Trans(ks, Cons(If(e, a, b), rest), em).value;
      && r.code.Branch? && (r.code.join.None? <==> rest.Nil?)
      && (rest.Cons? ==> HoldsCode(r.out.blocks, r.code.join.value, ks, rest, em))
  {
    var em1, ks1, em2 := TranslateFacts.IfStages(ks, e, a, b, rest, em);
    if rest.Cons? {
      var em0 := em.(n := em.n + 1);
      assert em0 == em.Bump() && Trans(ks, rest, em0).Some?;
      assert em1.blocks[Fresh(em.n)] == Trans(ks, rest, em0).value.code;
      TranslateFacts.TransGrows(ks, rest, em0);
    }
  }

  /** Both branches end at the join: run from where the branch sends them, in any blocks that contain
      the emitted ones, and if the `if` is last, at the continuation of the whole list. */
  lemma {:induction false} BranchesMeet<S>(ev: (Expr, S) -> (int, S), bs: Blocks, ks: Stack, e: Expr, a: Stmt,
      b: Stmt, rest: Stmts, em: Emit, first: bool, st: S, fuel: nat) returns (n: nat)
    requires Trans(ks, Cons(If(e, a, b), rest), em).Some?
    requires TranslateFacts.Extends(Trans(ks, Cons(If(e, a, b), rest), em).value.out.blocks, bs)
    requires Unique(Cons(If(e, a, b), rest)) && DistinctCasesAll(Cons(If(e, a, b), rest))
    requires Exec(ev, Run, if first then a else b, st, fuel).Normal?
    ensures Trans(ks, Cons(If(e, a, b), rest), em).value.code.Branch?
    ensures var code := Trans(ks, Cons(If(e, a, b), rest), em).value.code;
      var st1 := Exec(ev, Run, if first then a else b, st, fuel).st;
      var c := Steps(bs, ev, At(if first then code.thn else code.els, st), n);
      if rest.Nil? then c == Preservation.Resume(FinalOf(ks), st1)
      else code.join.Some? && code.join.value in bs && c == At(bs[code.join.value], st1)
  {
    BranchLabels(e, a, b, rest, first);
    var id, ks1, emB, emE := BranchParts(bs, ks, e, a, b, rest, em, first);
    n := BranchLands(ev, bs, id, ks1, if first then a else b, emB, emE, st, fuel);
    if rest.Cons? {
      StepsCompose(bs, ev, At(Jump(id), st), n, 1);
      n := n + 1;
    }
  }

  lemma {:induction false} BranchParts(bs: Blocks, ks: Stack, e: Expr, a: Stmt, b: Stmt, rest: Stmts, em: Emit,
      first: bool) returns (id: BlockId, ks1: Stack, emB: Emit, emE: Emit)
    requires Trans(ks, Cons(If(e, a, b), rest), em).Some?
    requires TranslateFacts.Extends(Trans(ks, Cons(If(e, a, b), rest), em).value.out.blocks, bs)
    ensures var code := Trans(ks, Cons(If(e, a, b), rest), em).value.code;
      && code.Branch? && (if first then code.thn else code.els) == Jump(id)
      && if rest.Nil? then ks1 == ks
         else code.join.Some? && code.join.value in bs && ks1 == PushEnd(Jump(code.join.value), ks)
    ensures TransInto(id, ks1, One(if first then a else b), emB) == Some(emE)
    ensures TranslateFacts.Extends(emE.blocks, bs)
  {
    var em1, em2;
    em1, ks1, em2 := TranslateFacts.IfStages(ks, e, a, b, rest, em);
    if first {
      id, emB, emE := Fresh(em1.n), em1.Bump(), em2;
    } else {
      id, emB, emE := Fresh(em2.n), em2.Bump(), Trans(ks, Cons(If(e, a, b), rest), em).value.out;
    }
  }

  lemma {:induction false} BranchLabels(e: Expr, a: Stmt, b: Stmt, rest: Stmts, first: bool)
    requires Unique(Cons(If(e, a, b), rest)) && DistinctCasesAll(Cons(If(e, a, b), rest))
    ensures var s := if first then a else b; Unique(One(s)) && DistinctCases(s)
  {
    Preservation.UniquePart(Cons(If(e, a, b), rest), One(if first then a else b));
    assert DistinctCases(If(e, a, b));
  }

  lemma {:induction false} BranchLands<S>(ev: (Expr, S) -> (int, S), bs: Blocks, id: BlockId, ks: Stack, s: Stmt,
      em: Emit, em1: Emit, st: S, fuel: nat) returns (n: nat)
    requires TransInto(id, ks, One(s), em) == Some(em1) && TranslateFacts.Extends(em1.blocks, bs)
    requires Unique(One(s)) && DistinctCases(s) && Exec(ev, Run, s, st, fuel).Normal?
    ensures Steps(bs, ev, At(Jump(id), st), n) ==
      Preservation.Resume(FinalOf(ks), Exec(ev, Run, s, st, fuel).st)
    ensures FinalOf(ks).Some?
  {
    var code := Trans(ks, One(s), em).value.code;
    Preservation.IntoReady(bs, Run, code, id, ks, s, em, em1);
    var j := Preservation.Simulation(ev, bs, Run, code, ks, One(s), em, st, fuel);
    Preservation.ExecOne(ev, Run, s, st, fuel);
    n := 1 + j;
  }
}
