/**
 Functions: the emitted blocks return a value exactly when the source body does, run forever
 exactly when it does, and get stuck exactly when it jumps to a label that does not exist.
 */
module BodyPreservation {
  import opened Wrappers
  import opened CSource
  import opened Cfg
  import opened Translate
  import TranslateFacts
  import TranslateAccepts
  import Preservation

  /** The counterpart of a source outcome after `n` steps. */
  ghost predicate Matches<S>(c: Config<S>, r: FunctionOutcome<S>) {
    match r
    case Result(v, st) => c == Halted(v, st)
    case NoSuchLabel(l) => c == Stuck
    case StillRunning => c.At?
  }

  lemma {:induction false} BodyLabels(dflt: Value, body: Stmts)
    requires TranslateBody(dflt, body).Some?
    ensures Unique(body)
  {
    TranslateAccepts.TranslationAccepts(dflt, body);
    TranslateFacts.TransGrows(InitialStack(dflt), body, Emit(map[], 1, None));
    forall t ensures CountAll(t, body) <= 1 {
      match t
      case AtLabel(l) =>
      case AtDefault => assert !HasAny(AtDefault, body);
      case AtCase(i) => assert !HasAny(AtCase(i), body);
    }
  }

  lemma {:induction false} StackOfBody(dflt: Value)
    ensures BreakOf(InitialStack(dflt)).None? && ContinueOf(InitialStack(dflt)).None?
    ensures FinalOf(InitialStack(dflt)) == Some(Ret(Known(dflt)))
  {
    assert BreakOf(Bottom).None? && ContinueOf(Bottom).None?;
  }

  /** One activation of the body and everything that follows it. */
  lemma {:induction false} BodySim<S>(ev: (Expr, S) -> (int, S), dflt: Value, body: Stmts, m: Mode,
      start: Code, st: S, fuel: nat) returns (n: nat)
    requires TranslateBody(dflt, body).Some? && DistinctCasesAll(body)
    requires m.Run? ==> start == Trans(InitialStack(dflt), body, Emit(map[], 1, None)).value.code
    requires m.Seek? ==> m.t.AtLabel? && HasAny(m.t, body) && start == Jump(User(m.t.l))
    ensures Matches(Steps(TranslateBody(dflt, body).value, ev, At(start, st), n), RunBody(ev, dflt, m, body, st, fuel))
    ensures RunBody(ev, dflt, m, body, st, fuel).StillRunning? ==> n + 1 >= fuel && (m.Seek? ==> n >= fuel)
    decreases fuel
  {
    var bs := TranslateBody(dflt, body).value;
    var ks, em := InitialStack(dflt), Emit(map[], 1, None);
    BodyLabels(dflt, body);
    TranslateAccepts.TranslationAccepts(dflt, body);
    StackOfBody(dflt);
    n := Preservation.Simulation(ev, bs, m, start, ks, body, em, st, fuel);
    var r := ExecAll(ev, m, body, st, fuel);
    if r.Normal? {
      StepsCompose(bs, ev, At(start, st), n, 1);
      n := n + 1;
    } else if r.Jumped? {
      if !HasAny(AtLabel(r.l), body) {
        StepsCompose(bs, ev, At(start, st), n, 1);
        n := n + 1;
      } else if fuel > 0 {
        var k := BodySim(ev, dflt, body, Seek(AtLabel(r.l)), Jump(User(r.l)), r.st, fuel - 1);
        StepsCompose(bs, ev, At(start, st), n, k);
        n := n + k;
      }
    }
  }

  ghost predicate TargetReturns<S(!new)>(bs: Blocks, ev: (Expr, S) -> (int, S), st: S, v: Value, st1: S) {
    exists n :: Steps(bs, ev, At(Jump(Fresh(0)), st), n) == Halted(v, st1)
  }

  ghost predicate SourceReturns<S(!new)>(dflt: Value, body: Stmts, ev: (Expr, S) -> (int, S), st: S, v: Value, st1: S) {
    exists fuel :: RunBody(ev, dflt, Run, body, st, fuel) == Result(v, st1)
  }

  ghost predicate TargetStuck<S(!new)>(bs: Blocks, ev: (Expr, S) -> (int, S), st: S) {
    exists n :: Steps(bs, ev, At(Jump(Fresh(0)), st), n).Stuck?
  }

  ghost predicate SourceStuck<S(!new)>(dflt: Value, body: Stmts, ev: (Expr, S) -> (int, S), st: S) {
    exists fuel :: RunBody(ev, dflt, Run, body, st, fuel).NoSuchLabel?
  }

  /** The run of the blocks from the entry label that belongs to `fuel`. */
  lemma {:induction false} EntrySim<S>(ev: (Expr, S) -> (int, S), dflt: Value, body: Stmts, st: S, fuel: nat)
      returns (n: nat)
    requires TranslateBody(dflt, body).Some? && DistinctCasesAll(body)
    ensures Matches(Steps(TranslateBody(dflt, body).value, ev, At(Jump(Fresh(0)), st), n),
      RunBody(ev, dflt, Run, body, st, fuel))
    ensures RunBody(ev, dflt, Run, body, st, fuel).StillRunning? ==> n >= fuel
  {
    var bs := TranslateBody(dflt, body).value;
    var code := Trans(InitialStack(dflt), body, Emit(map[], 1, None)).value.code;
    assert bs[Fresh(0)] == code;
    var k := BodySim(ev, dflt, body, Run, code, st, fuel);
    assert Steps(bs, ev, At(Jump(Fresh(0)), st), 1 + k) == Steps(bs, ev, At(code, st), k);
    n := 1 + k;
  }

  /** Two ends of one run are the same end. */
  lemma {:induction false} EndUnique<S>(bs: Blocks, ev: (Expr, S) -> (int, S), c: Config<S>, a: nat, b: nat)
    requires !Steps(bs, ev, c, a).At?
    requires !Steps(bs, ev, c, b).At? || b >= a
    ensures Steps(bs, ev, c, a) == Steps(bs, ev, c, b)
  {
    if a <= b { EndIsFinal(bs, ev, c, a, b); } else { EndIsFinal(bs, ev, c, b, a); }
  }

  /** The translation preserves the meaning of every function body it accepts, in both directions:
      since neither returning nor getting stuck differs, neither does running forever. */
  lemma {:induction false} BodyPreserved<S(!new)>(
    ev: (Expr, S) -> (int, S), dflt: Value, body: Stmts, st: S, v: Value, st1: S)
    requires TranslateBody(dflt, body).Some? && DistinctCasesAll(body)
    ensures TargetReturns(TranslateBody(dflt, body).value, ev, st, v, st1) <==>
      SourceReturns(dflt, body, ev, st, v, st1)
    ensures TargetStuck(TranslateBody(dflt, body).value, ev, st) <==> SourceStuck(dflt, body, ev, st)
  {
    var bs, c := TranslateBody(dflt, body).value, At(Jump(Fresh(0)), st);
    if SourceReturns(dflt, body, ev, st, v, st1) {
      var fuel :| RunBody(ev, dflt, Run, body, st, fuel) == Result(v, st1);
      var n := EntrySim(ev, dflt, body, st, fuel);
    }
    if TargetReturns(bs, ev, st, v, st1) {
      var n :| Steps(bs, ev, c, n) == Halted(v, st1);
      var k := EntrySim(ev, dflt, body, st, n);
      EndUnique(bs, ev, c, n, k);
    }
    if SourceStuck(dflt, body, ev, st) {
      var fuel :| RunBody(ev, dflt, Run, body, st, fuel).NoSuchLabel?;
      var n := EntrySim(ev, dflt, body, st, fuel);
    }
    if TargetStuck(bs, ev, st) {
      var n :| Steps(bs, ev, c, n).Stuck?;
      var k := EntrySim(ev, dflt, body, st, n);
      EndUnique(bs, ev, c, n, k);
    }
  }
}
