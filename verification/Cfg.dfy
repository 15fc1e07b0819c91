/**
 The control-flow graphs the frontend emits: a map from labels to statements without nested
 control flow, and their small-step execution.
 */
module Cfg {
  import opened Wrappers
  import CSource

  datatype BlockId = Fresh(n: nat) | User(l: string)

  datatype ReturnValue = Known(v: CSource.Value) | Computed(e: CSource.Expr)

  datatype Code =
    | Jump(to: BlockId)
    | Ret(r: ReturnValue)
    | Branch(join: Option<BlockId>, e: CSource.Expr, thn: Code, els: Code)
    | Multi(e: CSource.Expr, index: seq<(int, nat)>, arms: seq<Code>, dflt: Code)
    | Eval(e: CSource.Expr, next: Code)

  type Blocks = map<BlockId, Code>

  datatype Config<S> = At(c: Code, st: S) | Halted(v: CSource.Value, st: S) | Stuck

  function Find(index: seq<(int, nat)>, v: int): Option<nat> {
    if index == [] then None
    else if index[0].0 == v then Some(index[0].1)
    else Find(index[1..], v)
  }

  function Step<S>(bs: Blocks, ev: (CSource.Expr, S) -> (int, S), c: Config<S>): Config<S> {
    match c
    case Halted(_, _) => c
    case Stuck => c
    case At(code, st) =>
      match code
      case Jump(to) => if to in bs then At(bs[to], st) else Stuck
      case Ret(Known(v)) => Halted(v, st)
      case Ret(Computed(e)) => var (v, st1) := ev(e, st); Halted(CSource.Int(v), st1)
      case Branch(_, e, a, b) => var (v, st1) := ev(e, st); At(if v != 0 then a else b, st1)
      case Multi(e, index, arms, dflt) =>
        var (v, st1) := ev(e, st);
        (match Find(index, v)
         case None => At(dflt, st1)
         case Some(k) => if k < |arms| then At(arms[k], st1) else Stuck)
      case Eval(e, next) => At(next, ev(e, st).1)
  }

  function Steps<S>(bs: Blocks, ev: (CSource.Expr, S) -> (int, S), c: Config<S>, n: nat): Config<S>
    decreases n
  {
    if n == 0 then c else Steps(bs, ev, Step(bs, ev, c), n - 1)
  }

  lemma {:induction false} StepsCompose<S>(bs: Blocks, ev: (CSource.Expr, S) -> (int, S), c: Config<S>, a: nat, b: nat)
    ensures Steps(bs, ev, c, a + b) == Steps(bs, ev, Steps(bs, ev, c, a), b)
    decreases a
  {
    if a > 0 {
      StepsCompose(bs, ev, Step(bs, ev, c), a - 1, b);
    }
  }

  /** A run that has ended stays where it is. */
  lemma {:induction false} EndIsFinal<S>(bs: Blocks, ev: (CSource.Expr, S) -> (int, S), c: Config<S>, a: nat, b: nat)
    requires a <= b && !Steps(bs, ev, c, a).At?
    ensures Steps(bs, ev, c, b) == Steps(bs, ev, c, a)
  {
    StepsCompose(bs, ev, c, a, b - a);
    StayPut(bs, ev, Steps(bs, ev, c, a), b - a);
  }

  lemma {:induction false} StayPut<S>(bs: Blocks, ev: (CSource.Expr, S) -> (int, S), c: Config<S>, n: nat)
    requires !c.At?
    ensures Steps(bs, ev, c, n) == c
    decreases n
  {
    if n > 0 { StayPut(bs, ev, c, n - 1); }
  }
}
