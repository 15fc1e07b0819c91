/**
 `translate_block` of the frontend: structured statements to labelled blocks, driven by a stack
 of continuations for `break`, `continue` and the end of the statement list.  Failure (`None`)
 stands for the internal assertions of the original.
 */
module Translate {
  import opened Wrappers
  import opened CSource
  import opened Cfg

  /** The continuation stack, innermost entry first. */
  datatype Stack =
    | Bottom
    | Entry(onBreak: Option<Code>, onContinue: Option<Code>, onEnd: Option<Code>, forCase: bool, below: Stack)

  function BreakOf(ks: Stack): Option<Code> {
    match ks
    case Bottom => None
    case Entry(k, _, _, _, below) => if k.Some? then k else BreakOf(below)
  }

  function ContinueOf(ks: Stack): Option<Code> {
    match ks
    case Bottom => None
    case Entry(_, k, _, _, below) => if k.Some? then k else ContinueOf(below)
  }

  function EndOf(ks: Stack): Option<Code> {
    match ks
    case Bottom => None
    case Entry(_, _, k, _, below) => if k.Some? then k else EndOf(below)
  }

  function PopCases(ks: Stack): Stack {
    if ks.Entry? && ks.forCase then PopCases(ks.below) else ks
  }

  /** What follows when the current statement list ends normally. */
  function FinalOf(ks: Stack): Option<Code> { EndOf(PopCases(ks)) }

  function PushEnd(k: Code, ks: Stack): Stack { Entry(None, None, Some(k), false, ks) }

  function PushEndCase(k: Code, ks: Stack): Stack { Entry(None, None, Some(k), true, ks) }

  function InitialStack(dflt: Value): Stack { PushEnd(Ret(Known(dflt)), Bottom) }

  /** The data accumulated for the innermost `switch`: the registered cases in order, the label
      of the next case, the label after that, and the `default` label once seen. */
  datatype SwitchData = SwitchData(cases: seq<(int, nat)>, cur: nat, next: nat, dflt: Option<nat>)

  /** What the translation threads through: emitted blocks, the label counter, the switch data. */
  datatype Emit = Emit(blocks: Blocks, n: nat, sw: Option<SwitchData>) {
    function Add(id: BlockId, c: Code): Option<Emit> {
      if id in blocks then None else Some(this.(blocks := blocks[id := c]))
    }
    function Bump(): Emit { this.(n := n + 1) }
    function With(sw: Option<SwitchData>): Emit { this.(sw := sw) }
  }

  datatype Emitted = Emitted(code: Code, out: Emit)

  /** Translate a list and store the result in a block of its own. */
  function TransInto(id: BlockId, ks: Stack, ss: Stmts, em: Emit): Option<Emit>
    decreases SizeAll(ss), 2
  {
    var r :- Trans(ks, ss, em);
    r.out.Add(id, r.code)
  }

  function Trans(ks: Stack, ss: Stmts, em: Emit): Option<Emitted>
    decreases SizeAll(ss), 1
  {
    match ss
    case Nil => var k :- FinalOf(ks); Some(Emitted(k, em))
    case Cons(s, rest) =>
      assert SizeAll(ss) == 1 + Size(s) + SizeAll(rest);
      match s
      case Skip => Trans(ks, rest, em)
      case Block(body) =>
        SizeAppend(body, rest); assert Size(s) == 1 + SizeAll(body);
        Trans(ks, Append(body, rest), em)
      case If(e, a, b) => assert Size(s) == 4 + Size(a) + Size(b); TransIf(ks, e, a, b, rest, em)
      case While(e, b) => assert Size(s) == 3 + Size(b); TransLoop(ks, true, e, b, rest, em)
      case Do(b, e) => assert Size(s) == 3 + Size(b); TransLoop(ks, false, e, b, rest, em)
      case Switch(e, b) => assert Size(s) == 3 + Size(b); TransSwitch(ks, e, b, rest, em)
      case Case(i, b) => assert Size(s) == 3 + Size(b); TransCase(ks, s, b, rest, em)
      case Default(b) => assert Size(s) == 3 + Size(b); TransCase(ks, s, b, rest, em)
      case Label(l, b) =>
        assert Size(s) == 3 + Size(b);
        var em1 :- TransInto(User(l), ks, Cons(b, rest), em);
        Some(Emitted(Jump(User(l)), em1))
      case _ =>
        var r :- Trans(ks, rest, em);
        var c :- SimpleCode(ks, s, r.code);
        Some(Emitted(c, r.out))
  }

  ghost predicate Simple(s: Stmt) {
    s.Skip? || s.Expression? || s.Goto? || s.Break? || s.Continue? || s.Return? || s.ReturnVoid?
  }

  /** A statement without statements in it, in front of the code `next` of the rest of the list. */
  function SimpleCode(ks: Stack, s: Stmt, next: Code): Option<Code> {
    match s
    case Expression(e) => Some(Eval(e, next))
    case Goto(l) => Some(Jump(User(l)))
    case Break => BreakOf(ks)
    case Continue => ContinueOf(ks)
    case Return(e) => Some(Ret(Computed(e)))
    case ReturnVoid => Some(Ret(Known(Void)))
    case _ => Some(next)
  }

  function TransIf(ks: Stack, e: Expr, a: Stmt, b: Stmt, rest: Stmts, em: Emit): Option<Emitted>
    decreases SizeAll(rest) + 5 + Size(a) + Size(b), 0
  {
    var idCont := Fresh(em.n);
    var em1 :- if rest.Nil? then Some(em) else TransInto(idCont, ks, rest, em.Bump());
    var ks1 := if rest.Nil? then ks else PushEnd(Jump(idCont), ks);
    var idThen := Fresh(em1.n);
    var em2 :- TransInto(idThen, ks1, One(a), em1.Bump());
    var idElse := Fresh(em2.n);
    var em3 :- TransInto(idElse, ks1, One(b), em2.Bump());
    Some(Emitted(Branch(if rest.Nil? then None else Some(idCont), e, Jump(idThen), Jump(idElse)), em3))
  }

  /** `break` leaves the loop whose labels start at `n`, `continue` and the end of the body go to
      its condition. */
  function LoopStack(ks: Stack, n: nat): Stack {
    Entry(Some(Jump(Fresh(n + 2))), Some(Jump(Fresh(n))), Some(Jump(Fresh(n))), false, ks)
  }

  /** A `while` loop is entered at its condition, a `do` loop at its body. */
  function TransLoop(ks: Stack, isWhile: bool, e: Expr, b: Stmt, rest: Stmts, em: Emit): Option<Emitted>
    decreases SizeAll(rest) + 4 + Size(b), 0
  {
    var idCond, idBody, idCont := Fresh(em.n), Fresh(em.n + 1), Fresh(em.n + 2);
    var em1 :- TransInto(idCont, ks, rest, em.(n := em.n + 3));
    var em2 :- TransInto(idBody, LoopStack(ks, em.n), One(b), em1);
    var em3 :- em2.Add(idCond, Branch(None, e, Jump(idBody), Jump(idCont)));
    Some(Emitted(Jump(if isWhile then idCond else idBody), em3))
  }

  /** `break` and the end of the body leave the switch. */
  function SwitchStack(ks: Stack, n: nat): Stack {
    Entry(Some(Jump(Fresh(n))), None, Some(Jump(Fresh(n))), false, ks)
  }

  function SwitchEmit(em: Emit): Emit {
    Emit(em.blocks, em.n + 2, Some(SwitchData([], em.n, em.n + 1, None)))
  }

  function TransSwitch(ks: Stack, e: Expr, b: Stmt, rest: Stmts, em: Emit): Option<Emitted>
    decreases SizeAll(rest) + 4 + Size(b), 0
  {
    var exit := Jump(Fresh(em.n));
    var em1 :- TransInto(Fresh(em.n), ks, rest, em.Bump());
    var r :- Trans(SwitchStack(ks, em.n), One(b), SwitchEmit(em1));
    var sw :- r.out.sw;
    var em2 :- r.out.Add(Fresh(sw.cur), exit);
    Some(Emitted(Dispatch(e, sw, exit), em2.With(em1.sw)))
  }

  /** The data after a `case` or `default` has registered itself. */
  function Registered(s: Stmt, em: Emit): Emit
    requires (s.Case? || s.Default?) && em.sw.Some?
  {
    var sw := em.sw.value;
    em.Bump().With(Some(if s.Case? then SwitchData(sw.cases + [(s.i, sw.cur)], sw.next, em.n, None)
                        else SwitchData(sw.cases, sw.next, em.n, Some(sw.cur))))
  }

  /** No `case` or `default` is accepted once the `default` has been seen. */
  function TransCase(ks: Stack, s: Stmt, b: Stmt, rest: Stmts, em: Emit): Option<Emitted>
    requires s.Case? || s.Default?
    decreases SizeAll(rest) + 4 + Size(b), 0
  {
    var sw :- em.sw;
    if sw.dflt.Some? then None else
    var em1 :- TransInto(Fresh(sw.cur), PushEndCase(Jump(Fresh(sw.next)), ks), Cons(b, rest), Registered(s, em));
    Some(Emitted(Jump(Fresh(sw.cur)), em1))
  }

  function Dispatch(e: Expr, sw: SwitchData, exit: Code): Code {
    Multi(e,
          seq(|sw.cases|, k requires 0 <= k < |sw.cases| => (sw.cases[k].0, k)),
          seq(|sw.cases|, k requires 0 <= k < |sw.cases| => Jump(Fresh(sw.cases[k].1))),
          if sw.dflt.Some? then Jump(Fresh(sw.dflt.value)) else exit)
  }

  /** A whole function body, as the translation of a definition starts it: label 0 is the entry
      block. */
  function TranslateBody(dflt: Value, body: Stmts): Option<Blocks> {
    var r :- Trans(InitialStack(dflt), body, Emit(map[], 1, None));
    var em :- r.out.Add(Fresh(0), r.code);
    Some(em.blocks)
  }
}
