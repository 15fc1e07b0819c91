/**
 The translation preserves meaning.  `Simulation` is the statement-level result: running the
 emitted blocks from a translated statement list reaches the continuation that the stack holds
 for the outcome of the list, in the same state.  `BodyPreserved` lifts it to functions, in both
 directions, so that a translated function returns exactly when the source function does.
 */
module Preservation {
  import opened Wrappers
  import opened CSource
  import opened Cfg
  import opened Translate
  import opened TranslateFacts

  // ----- Where execution starts and where it ends up -----

  /** `start` is where the code emitted between `a` and `b` is entered at label `t`. */
  ghost predicate EntersAt(t: Target, start: Code, a: Emit, b: Emit) {
    match t
    case AtLabel(l) => start == Jump(User(l))
    case AtCase(i) => exists k: nat :: NewCase(a, b, i, k) && start == Jump(Fresh(b.sw.value.cases[k].1))
    case AtDefault =>
      && a.sw.Some? && a.sw.value.dflt.None? && b.sw.Some? && b.sw.value.dflt.Some?
      && start == Jump(Fresh(b.sw.value.dflt.value))
  }

  ghost predicate Starts(m: Mode, start: Code, code: Code, a: Emit, b: Emit) {
    match m
    case Run => start == code
    case Seek(t) => EntersAt(t, start, a, b)
  }

  function Resume<S>(k: Option<Code>, st: S): Config<S> {
    if k.Some? then At(k.value, st) else Stuck
  }

  /** The configuration that the stack holds for an outcome. */
  function Landing<S>(ks: Stack, r: Outcome<S>): Config<S> {
    match r
    case Normal(st) => Resume(FinalOf(ks), st)
    case Broke(st) => Resume(BreakOf(ks), st)
    case Continued(st) => Resume(ContinueOf(ks), st)
    case Returned(v, st) => Halted(v, st)
    case Jumped(l, st) => At(Jump(User(l)), st)
    case Timeout => Stuck
  }

  /** Configuration `c`, reached after `n` steps, is where outcome `r` belongs.  A source
      execution that exhausts its fuel has a counterpart that is still running. */
  ghost predicate Lands<S>(c: Config<S>, n: nat, ks: Stack, r: Outcome<S>, fuel: nat) {
    !c.Stuck? && if r.Timeout? then c.At? && n >= fuel else c == Landing(ks, r)
  }

  /** If the entry lies in the middle one of three translations, it is an entry of that one. */
  lemma {:induction false} Locate(t: Target, start: Code, a: Emit, b: Emit, c: Emit, d: Emit, x: Stmts,
      y: Stmts, z: Stmts)
    requires Grows(a, b) && Grows(b, c) && Grows(c, d)
    requires Registers(a, b, x) && Registers(b, c, y) && Registers(c, d, z)
    requires EntersAt(t, start, a, d)
    requires !HasAny(t, x) && HasAny(t, y) && !HasAny(t, z)
    ensures EntersAt(t, start, b, c)
  {
    match t
    case AtLabel(l) =>
    case AtDefault =>
    case AtCase(i) =>
      var k: nat :| NewCase(a, d, i, k) && start == Jump(Fresh(d.sw.value.cases[k].1));
      assert !NewCase(a, b, i, k) && !NewCase(c, d, i, k);
      assert NewCase(b, c, i, k);
  }

  /** The parts of a statement with unique labels have unique labels. */
  lemma {:induction false} UniquePart(whole: Stmts, part: Stmts)
    requires Unique(whole)
    requires forall t :: CountAll(t, part) <= CountAll(t, whole)
    ensures Unique(part)
  {
    forall t ensures CountAll(t, part) <= 1 { assert CountAll(t, whole) <= 1; }
  }

  lemma {:induction false} ExecOne<S>(ev: (Expr, S) -> (int, S), m: Mode, s: Stmt, st: S, fuel: nat)
    requires m.Seek? ==> Has(m.t, s)
    ensures ExecAll(ev, m, One(s), st, fuel) == Exec(ev, m, s, st, fuel)
  {
  }

  lemma {:induction false} ExecBlock<S>(ev: (Expr, S) -> (int, S), m: Mode, body: Stmts, rest: Stmts, st: S, fuel: nat)
    ensures ExecAll(ev, m, Cons(Block(body), rest), st, fuel) == ExecAll(ev, m, Append(body, rest), st, fuel)
    ensures forall t :: CountAll(t, Cons(Block(body), rest)) == CountAll(t, Append(body, rest))
    ensures DistinctCasesAll(Cons(Block(body), rest)) <==> DistinctCasesAll(Append(body, rest))
  {
    forall t ensures CountAll(t, Cons(Block(body), rest)) == CountAll(t, Append(body, rest)) {
      CountAppend(t, body, rest);
    }
    DistinctAppend(body, rest);
    assert DistinctCases(Block(body)) <==> DistinctCasesAll(body);
    ExecAppend(ev, m, body, rest, st, fuel);
    assert m.Seek? ==> Count(m.t, Block(body)) == CountAll(m.t, body);
  }

  function Own(s: Stmt): Target
    requires s.Case? || s.Default? || s.Label?
  {
    if s.Case? then AtCase(s.i) else if s.Default? then AtDefault else AtLabel(s.l)
  }

  lemma {:induction false} ExecLabelled<S>(ev: (Expr, S) -> (int, S), m: Mode, s: Stmt, rest: Stmts, st: S, fuel: nat)
    requires s.Case? || s.Default? || s.Label?
    ensures ExecAll(ev, m, Cons(s, rest), st, fuel)
         == ExecAll(ev, if m == Seek(Own(s)) then Run else m, Cons(s.labelled, rest), st, fuel)
  {
    assert m.Seek? ==> Count(m.t, s) == (if m.t == Own(s) then 1 else 0) + Count(m.t, s.labelled);
  }

  lemma {:induction false} LabelledParts(s: Stmt, rest: Stmts)
    requires s.Case? || s.Default? || s.Label?
    requires Unique(Cons(s, rest)) && DistinctCasesAll(Cons(s, rest))
    ensures Unique(Cons(s.labelled, rest)) && DistinctCasesAll(Cons(s.labelled, rest))
    ensures !HasAny(Own(s), Cons(s.labelled, rest))
    ensures forall t :: t != Own(s) && HasAny(t, Cons(s, rest)) ==> HasAny(t, Cons(s.labelled, rest))
  {
    assert DistinctCases(s) <==> DistinctCases(s.labelled);
    forall t
      ensures CountAll(t, Cons(s, rest)) == (if t == Own(s) then 1 else 0) + CountAll(t, Cons(s.labelled, rest))
    {
      assert Count(t, s) == (if t == Own(s) then 1 else 0) + Count(t, s.labelled);
    }
    UniquePart(Cons(s, rest), Cons(s.labelled, rest));
    assert CountAll(Own(s), Cons(s, rest)) <= 1;
  }

  /** The head of a list and the rest of it. */
  lemma {:induction false} ExecHead<S>(ev: (Expr, S) -> (int, S), m: Mode, s: Stmt, rest: Stmts, st: S, fuel: nat)
    ensures m.Seek? && !Has(m.t, s) ==> ExecAll(ev, m, Cons(s, rest), st, fuel) == ExecAll(ev, m, rest, st, fuel)
    ensures m.Run? || Has(m.t, s) ==>
      var r := Exec(ev, m, s, st, fuel);
      ExecAll(ev, m, Cons(s, rest), st, fuel) == if r.Normal? then ExecAll(ev, Run, rest, r.st, fuel) else r
  {
  }

  lemma {:induction false} ExecWhile<S>(ev: (Expr, S) -> (int, S), m: Mode, e: Expr, b: Stmt, st: S, fuel: nat)
    requires m.Run? ==> fuel > 0
    ensures var st1 := if m.Run? then ev(e, st).1 else st;
      var r := Exec(ev, m, b, st1, fuel);
      Exec(ev, m, While(e, b), st, fuel)
        == if m.Run? && ev(e, st).0 == 0 then Normal(st1)
           else if r.Normal? || r.Continued? then
             Exec(ev, Run, While(e, b), r.st, if m.Run? then fuel - 1 else fuel)
           else if r.Broke? then Normal(r.st)
           else r
  {
  }

  lemma {:induction false} ExecDo<S>(ev: (Expr, S) -> (int, S), m: Mode, e: Expr, b: Stmt, st: S, fuel: nat)
    requires m.Run? ==> fuel > 0
    ensures var r := Exec(ev, m, b, st, fuel);
      Exec(ev, m, Do(b, e), st, fuel)
        == if r.Normal? || r.Continued? then
             if ev(e, r.st).0 == 0 then Normal(ev(e, r.st).1)
             else Exec(ev, Run, Do(b, e), ev(e, r.st).1, if m.Run? then fuel - 1 else fuel)
           else if r.Broke? then Normal(r.st)
           else r
  {
  }

  // ----- Simulation -----

  /** The conditions under which code emitted for `ss` between `a` and `b` is run from `start`. */
  ghost predicate Ready(bs: Blocks, m: Mode, start: Code, code: Code, a: Emit, b: Emit, ss: Stmts) {
    && Extends(b.blocks, bs)
    && Unique(ss) && DistinctCasesAll(ss)
    && (m.Seek? ==> HasAny(m.t, ss))
    && Starts(m, start, code, a, b)
  }

  /** The statement-level theorem. */
  lemma {:induction false} Simulation<S>(ev: (Expr, S) -> (int, S), bs: Blocks, m: Mode, start: Code,
      ks: Stack, ss: Stmts, em: Emit, st: S, fuel: nat) returns (n: nat)
    requires Trans(ks, ss, em).Some?
    requires Ready(bs, m, start, Trans(ks, ss, em).value.code, em, Trans(ks, ss, em).value.out, ss)
    ensures Lands(Steps(bs, ev, At(start, st), n), n, ks, ExecAll(ev, m, ss, st, fuel), fuel)
    ensures m.Seek? ==> n > 0
    decreases fuel, SizeAll(ss), 2, if m.Run? then 0 else 1
  {
    if ss.Nil? {
      return 0;
    }
    var s, rest := ss.head, ss.tail;
    assert SizeAll(ss) == 1 + Size(s) + SizeAll(rest);
    if s.Block? {
      SizeAppend(s.body, rest);
      ExecBlock(ev, m, s.body, rest, st, fuel);
      UniquePart(ss, Append(s.body, rest));
      n := Simulation(ev, bs, m, start, ks, Append(s.body, rest), em, st, fuel);
    } else if s.If? {
      n := IfSim(ev, bs, m, start, ks, s.e, s.thn, s.els, rest, em, st, fuel);
    } else if s.While? || s.Do? {
      n := LoopSim(ev, bs, m, start, ks, s, s.e, s.loop, rest, em, st, fuel);
    } else if s.Switch? {
      n := SwitchSim(ev, bs, m, start, ks, s.e, s.cases, rest, em, st, fuel);
    } else if s.Case? || s.Default? {
      n := CaseSim(ev, bs, m, start, ks, s, s.labelled, rest, em, st, fuel);
    } else if s.Label? {
      n := LabelSim(ev, bs, m, start, ks, s.l, s.labelled, rest, em, st, fuel);
    } else {
      n := SimpleSim(ev, bs, m, start, ks, s, rest, em, st, fuel);
    }
  }

  lemma {:induction false} SimpleSim<S>(ev: (Expr, S) -> (int, S), bs: Blocks, m: Mode, start: Code, ks: Stack,
      s: Stmt, rest: Stmts, em: Emit, st: S, fuel: nat) returns (n: nat)
    requires Simple(s)
    requires Trans(ks, Cons(s, rest), em).Some?
    requires var t := Trans(ks, Cons(s, rest), em).value; Ready(bs, m, start, t.code, em, t.out, Cons(s, rest))
    ensures Lands(Steps(bs, ev, At(start, st), n), n, ks, ExecAll(ev, m, Cons(s, rest), st, fuel), fuel)
    ensures m.Seek? ==> n > 0
    decreases fuel, SizeAll(Cons(s, rest)), 1
  {
    SimpleReady(bs, m, start, ks, s, rest, em);
    if m.Seek? {
      ExecHead(ev, m, s, rest, st, fuel);
      n := Simulation(ev, bs, m, start, ks, rest, em, st, fuel);
    } else {
      ExecSimple(ev, s, rest, st, fuel);
      match s
      case Skip => n := Simulation(ev, bs, Run, start, ks, rest, em, st, fuel);
      case Expression(e) =>
        var st1 := ev(e, st).1;
        var k := Simulation(ev, bs, Run, start.next, ks, rest, em, st1, fuel);
        assert Steps(bs, ev, At(start, st), 1 + k) == Steps(bs, ev, At(start.next, st1), k);
        n := 1 + k;
      case _ => n := LeaveSim(ev, bs, start, ks, s, rest, em, st, fuel);
    }
  }

  lemma {:induction false} SimpleReady(bs: Blocks, m: Mode, start: Code, ks: Stack, s: Stmt, rest: Stmts, em: Emit)
    requires Simple(s) && Trans(ks, Cons(s, rest), em).Some?
    requires var t := Trans(ks, Cons(s, rest), em).value; Ready(bs, m, start, t.code, em, t.out, Cons(s, rest))
    ensures Trans(ks, rest, em).Some?
    ensures var r := Trans(ks, rest, em).value;
      && (m.Seek? ==> !Has(m.t, s) && Ready(bs, m, start, r.code, em, r.out, rest))
      && (m.Run? && s.Skip? ==> start == r.code && Ready(bs, Run, start, r.code, em, r.out, rest))
      && (m.Run? && s.Expression? ==> start == Eval(s.e, r.code) && Ready(bs, Run, r.code, r.code, em, r.out, rest))
      && (m.Run? ==> start == Trans(ks, Cons(s, rest), em).value.code)
  {
    UniquePart(Cons(s, rest), rest);
  }

  /** Statements that leave the list. */
  lemma {:induction false} LeaveSim<S>(ev: (Expr, S) -> (int, S), bs: Blocks, start: Code, ks: Stack, s: Stmt,
      rest: Stmts, em: Emit, st: S, fuel: nat)
    returns (n: nat)
    requires Simple(s) && !s.Skip? && !s.Expression?
    requires Trans(ks, Cons(s, rest), em).Some? && start == Trans(ks, Cons(s, rest), em).value.code
    ensures Lands(Steps(bs, ev, At(start, st), n), n, ks, ExecAll(ev, Run, Cons(s, rest), st, fuel), fuel)
  {
    ExecSimple(ev, s, rest, st, fuel);
    n := if s.Return? || s.ReturnVoid? then 1 else 0;
  }

  lemma {:induction false} ExecSimple<S>(ev: (Expr, S) -> (int, S), s: Stmt, rest: Stmts, st: S, fuel: nat)
    requires Simple(s)
    ensures ExecAll(ev, Run, Cons(s, rest), st, fuel)
         == match s
            case Skip => ExecAll(ev, Run, rest, st, fuel)
            case Expression(e) => ExecAll(ev, Run, rest, ev(e, st).1, fuel)
            case Goto(l) => Jumped(l, st)
            case Break => Broke(st)
            case Continue => Continued(st)
            case Return(e) => Returned(Int(ev(e, st).0), ev(e, st).1)
            case _ => Returned(Void, st)
  {
  }

  /** A statement whose normal end is the block of the rest of the list, followed by that rest. */
  lemma {:induction false} ThenRest<S>(ev: (Expr, S) -> (int, S), bs: Blocks, idCont: BlockId, ks: Stack,
      rest: Stmts, em: Emit, c: Config<S>, k: nat, r: Outcome<S>, fuel: nat) returns (n: nat)
    requires TransInto(idCont, ks, rest, em).Some?
    requires Extends(TransInto(idCont, ks, rest, em).value.blocks, bs)
    requires Unique(rest) && DistinctCasesAll(rest)
    requires Lands(Steps(bs, ev, c, k), k, PushEnd(Jump(idCont), ks), r, fuel)
    ensures Lands(Steps(bs, ev, c, n), n, ks, if r.Normal? then ExecAll(ev, Run, rest, r.st, fuel) else r, fuel)
    ensures n >= k
    decreases fuel, SizeAll(rest), 3
  {
    n := k;
    if r.Normal? {
      var t := Trans(ks, rest, em).value;
      assert bs[idCont] == t.code;
      var j := Simulation(ev, bs, Run, t.code, ks, rest, em, r.st, fuel);
      StepsCompose(bs, ev, c, k, 1 + j);
      n := k + (1 + j);
    }
  }

  /** The entry lies behind the head of the list. */
  lemma {:induction false} SeekRest<S>(ev: (Expr, S) -> (int, S), bs: Blocks, t: Target, start: Code,
      id: BlockId, ks: Stack, s: Stmt, rest: Stmts, em: Emit, em0: Emit, em1: Emit, out: Emit, z: Stmts, st: S,
      fuel: nat) returns (n: nat)
    requires em0.sw == em.sw && TransInto(id, ks, rest, em0) == Some(em1)
    requires Grows(em, em1) && Registers(em, em1, rest)
    requires Grows(em1, out) && Registers(em1, out, z)
    requires Extends(em1.blocks, bs) && Unique(Cons(s, rest)) && DistinctCasesAll(rest)
    requires !Has(t, s) && HasAny(t, Cons(s, rest)) && !HasAny(t, z)
    requires EntersAt(t, start, em, out)
    ensures Lands(Steps(bs, ev, At(start, st), n), n, ks, ExecAll(ev, Seek(t), Cons(s, rest), st, fuel), fuel)
    ensures n > 0
    decreases fuel, SizeAll(rest), 3
  {
    ExecHead(ev, Seek(t), s, rest, st, fuel);
    UniquePart(Cons(s, rest), rest);
    Quiet(em, em);
    Locate(t, start, em, em, em1, out, Nil, rest, z);
    n := Simulation(ev, bs, Seek(t), start, ks, rest, em0, st, fuel);
  }

  lemma {:induction false} IfSim<S>(ev: (Expr, S) -> (int, S), bs: Blocks, m: Mode, start: Code, ks: Stack,
      e: Expr, a: Stmt, b: Stmt, rest: Stmts, em: Emit, st: S, fuel: nat) returns (n: nat)
    requires TransIf(ks, e, a, b, rest, em).Some?
    requires var t := TransIf(ks, e, a, b, rest, em).value;
      Ready(bs, m, start, t.code, em, t.out, Cons(If(e, a, b), rest))
    ensures Lands(Steps(bs, ev, At(start, st), n), n, ks, ExecAll(ev, m, Cons(If(e, a, b), rest), st, fuel), fuel)
    ensures m.Seek? ==> n > 0
    decreases fuel, SizeAll(rest) + 5 + Size(a) + Size(b), 1
  {
    var ss := Cons(If(e, a, b), rest);
    var em1, ks1, em2 := IfStages(ks, e, a, b, rest, em);
    var em3 := TransIf(ks, e, a, b, rest, em).value.out;
    ExecHead(ev, m, If(e, a, b), rest, st, fuel);
    assert DistinctCases(If(e, a, b));
    if m.Seek? && !Has(m.t, If(e, a, b)) {
      n := IfSkips(ev, bs, m.t, start, ks, e, a, b, rest, em, st, fuel);
      return;
    }
    UniquePart(ss, One(a));
    UniquePart(ss, One(b));
    if m.Run? {
      n := BranchRun(ev, bs, start, ks1, e, a, b, rest, em1, em2, em3, st, fuel);
    } else {
      assert CountAll(m.t, ss) <= 1;
      n := BranchSeek(ev, bs, m.t, start, ks1, e, a, b, rest, em, em1, em2, em3, st, fuel);
    }
    if !rest.Nil? {
      UniquePart(ss, rest);
      n := ThenRest(ev, bs, Fresh(em.n), ks, rest, em.Bump(), At(start, st), n,
                    Exec(ev, m, If(e, a, b), st, fuel), fuel);
    }
  }

  /** An `if` that the label sought is not in. */
  lemma {:induction false} IfSkips<S>(ev: (Expr, S) -> (int, S), bs: Blocks, t: Target, start: Code, ks: Stack,
      e: Expr, a: Stmt, b: Stmt, rest: Stmts, em: Emit, st: S, fuel: nat) returns (n: nat)
    requires TransIf(ks, e, a, b, rest, em).Some? && !Has(t, If(e, a, b))
    requires var r := TransIf(ks, e, a, b, rest, em).value;
      Ready(bs, Seek(t), start, r.code, em, r.out, Cons(If(e, a, b), rest))
    ensures Lands(Steps(bs, ev, At(start, st), n), n, ks, ExecAll(ev, Seek(t), Cons(If(e, a, b), rest), st, fuel), fuel)
    ensures n > 0
    decreases fuel, SizeAll(rest) + 5 + Size(a) + Size(b), 0
  {
    var em1, ks1, em2 := IfStages(ks, e, a, b, rest, em);
    var em3 := TransIf(ks, e, a, b, rest, em).value.out;
    ExecHead(ev, Seek(t), If(e, a, b), rest, st, fuel);
    Chain(em1, em2, em3, One(a), One(b), Cons(a, One(b)));
    CountOne(t, b);
    assert CountAll(t, Cons(a, One(b))) == Count(t, If(e, a, b)) == 0;
    assert !rest.Nil?;
    n := SeekRest(ev, bs, t, start, Fresh(em.n), ks, If(e, a, b), rest, em, em.Bump(), em1, em3,
                  Cons(a, One(b)), st, fuel);
  }

  lemma {:induction false} IfEntry(t: Target, start: Code, a: Stmt, b: Stmt, rest: Stmts, em: Emit, em1: Emit,
      em2: Emit, em3: Emit)
    requires Grows(em, em1) && Registers(em, em1, rest)
    requires Grows(em1, em2) && Registers(em1, em2, One(a))
    requires Grows(em2, em3) && Registers(em2, em3, One(b))
    requires Count(t, a) + Count(t, b) + CountAll(t, rest) <= 1
    requires EntersAt(t, start, em, em3)
    ensures Has(t, a) ==> EntersAt(t, start, em1, em2)
    ensures Has(t, b) ==> EntersAt(t, start, em2, em3)
  {
    CountOne(t, a);
    CountOne(t, b);
    if Has(t, a) {
      Locate(t, start, em, em1, em2, em3, rest, One(a), One(b));
    } else if Has(t, b) {
      Chain(em, em1, em2, rest, One(a), Cons(a, rest));
      Quiet(em3, em3);
      Locate(t, start, em, em2, em3, em3, Cons(a, rest), One(b), Nil);
    }
  }

  /** An `if` on its own, entered at one of its labels. */
  lemma {:induction false} BranchSeek<S>(ev: (Expr, S) -> (int, S), bs: Blocks, t: Target, start: Code,
      ks: Stack, e: Expr, a: Stmt, b: Stmt, rest: Stmts, em: Emit, em1: Emit, em2: Emit, em3: Emit, st: S,
      fuel: nat) returns (n: nat)
    requires TransInto(Fresh(em1.n), ks, One(a), em1.Bump()) == Some(em2)
    requires TransInto(Fresh(em2.n), ks, One(b), em2.Bump()) == Some(em3)
    requires Grows(em, em1) && Registers(em, em1, rest)
    requires Grows(em1, em2) && Registers(em1, em2, One(a))
    requires Grows(em2, em3) && Registers(em2, em3, One(b))
    requires Extends(em2.blocks, bs) && Extends(em3.blocks, bs)
    requires Unique(One(a)) && Unique(One(b)) && DistinctCases(a) && DistinctCases(b)
    requires Has(t, If(e, a, b)) && Count(t, If(e, a, b)) + CountAll(t, rest) <= 1 && EntersAt(t, start, em, em3)
    ensures Lands(Steps(bs, ev, At(start, st), n), n, ks, Exec(ev, Seek(t), If(e, a, b), st, fuel), fuel)
    ensures n > 0
    decreases fuel, SizeAll(rest) + 5 + Size(a) + Size(b), 0
  {
    assert Count(t, If(e, a, b)) == Count(t, a) + Count(t, b);
    CountOne(t, a);
    CountOne(t, b);
    IfEntry(t, start, a, b, rest, em, em1, em2, em3);
    if Has(t, a) {
      n := OneSeek(ev, bs, t, start, ks, a, em1, em2, st, fuel);
    } else {
      n := OneSeek(ev, bs, t, start, ks, b, em2, em3, st, fuel);
    }
  }

  /** A branch entered at a label in it. */
  lemma {:induction false} OneSeek<S>(ev: (Expr, S) -> (int, S), bs: Blocks, t: Target, start: Code, ks: Stack,
      s: Stmt, em: Emit, em1: Emit, st: S, fuel: nat)
    returns (n: nat)
    requires TransInto(Fresh(em.n), ks, One(s), em.Bump()) == Some(em1)
    requires Grows(em, em1) && Registers(em, em1, One(s)) && Extends(em1.blocks, bs)
    requires Unique(One(s)) && DistinctCases(s) && Has(t, s) && EntersAt(t, start, em, em1)
    ensures Lands(Steps(bs, ev, At(start, st), n), n, ks, Exec(ev, Seek(t), s, st, fuel), fuel)
    ensures n > 0
    decreases fuel, Size(s) + 1, 3
  {
    SameEntry(t, start, em, em.Bump(), em1, em1);
    IntoReady(bs, Seek(t), start, Fresh(em.n), ks, s, em.Bump(), em1);
    n := Simulation(ev, bs, Seek(t), start, ks, One(s), em.Bump(), st, fuel);
    ExecOne(ev, Seek(t), s, st, fuel);
  }

  /** Where a label is entered depends on the switch data only. */
  lemma {:induction false} SameEntry(t: Target, start: Code, a: Emit, a': Emit, b: Emit, b': Emit)
    requires a.sw == a'.sw && b.sw == b'.sw && EntersAt(t, start, a, b)
    ensures EntersAt(t, start, a', b')
  {
    if t.AtCase? {
      var k: nat :| NewCase(a, b, t.i, k) && start == Jump(Fresh(b.sw.value.cases[k].1));
      assert NewCase(a', b', t.i, k);
    }
  }

  /** A statement with a block of its own is ready to be run or entered. */
  lemma {:induction false} IntoReady(bs: Blocks, m: Mode, start: Code, id: BlockId, ks: Stack, s: Stmt,
      em: Emit, em1: Emit)
    requires TransInto(id, ks, One(s), em) == Some(em1) && Extends(em1.blocks, bs) && Unique(One(s)) && DistinctCases(s)
    requires m.Seek? ==> Has(m.t, s) && EntersAt(m.t, start, em, em1)
    ensures Trans(ks, One(s), em).Some?
    ensures var r := Trans(ks, One(s), em).value;
      && id in bs && bs[id] == r.code
      && Ready(bs, m, if m.Run? then r.code else start, r.code, em, r.out, One(s))
  {
    var r := Trans(ks, One(s), em).value;
    OneCases(s);
    if m.Seek? {
      CountOne(m.t, s);
      SameEntry(m.t, start, em, em, em1, r.out);
    }
  }

  /** An `if` on its own, entered at its condition. */
  lemma {:induction false} BranchRun<S>(ev: (Expr, S) -> (int, S), bs: Blocks, start: Code, ks: Stack, e: Expr,
      a: Stmt, b: Stmt, rest: Stmts, em1: Emit, em2: Emit, em3: Emit, st: S, fuel: nat) returns (n: nat)
    requires TransInto(Fresh(em1.n), ks, One(a), em1.Bump()) == Some(em2)
    requires TransInto(Fresh(em2.n), ks, One(b), em2.Bump()) == Some(em3)
    requires Extends(em2.blocks, bs) && Extends(em3.blocks, bs)
    requires Unique(One(a)) && Unique(One(b)) && DistinctCases(a) && DistinctCases(b)
    requires start.Branch? && start.e == e && start.thn == Jump(Fresh(em1.n)) && start.els == Jump(Fresh(em2.n))
    ensures Lands(Steps(bs, ev, At(start, st), n), n, ks, Exec(ev, Run, If(e, a, b), st, fuel), fuel)
    decreases fuel, SizeAll(rest) + 5 + Size(a) + Size(b), 0
  {
    var (v, st1) := ev(e, st);
    var pick, id, emB := a, Fresh(em1.n), em1.Bump();
    if v == 0 { pick, id, emB := b, Fresh(em2.n), em2.Bump(); }
    var emE := if v == 0 then em3 else em2;
    IntoReady(bs, Run, start, id, ks, pick, emB, emE);
    var code := Trans(ks, One(pick), emB).value.code;
    var j := Simulation(ev, bs, Run, code, ks, One(pick), emB, st1, fuel);
    ExecOne(ev, Run, pick, st1, fuel);
    assert Steps(bs, ev, At(start, st), 2 + j) == Steps(bs, ev, At(Jump(id), st1), 1 + j)
        == Steps(bs, ev, At(code, st1), j);
    n := 2 + j;
  }

  lemma {:induction false} LabelReady(bs: Blocks, m: Mode, start: Code, ks: Stack, l: string, b: Stmt,
      rest: Stmts, em: Emit)
    requires Trans(ks, Cons(Label(l, b), rest), em).Some?
    requires var t := Trans(ks, Cons(Label(l, b), rest), em).value;
      Ready(bs, m, start, t.code, em, t.out, Cons(Label(l, b), rest))
    ensures Trans(ks, Cons(b, rest), em).Some?
    ensures var r := Trans(ks, Cons(b, rest), em).value;
      && User(l) in bs && bs[User(l)] == r.code && (m.Run? || m.t == AtLabel(l) ==> start == Jump(User(l)))
      && Ready(bs, Run, r.code, r.code, em, r.out, Cons(b, rest))
      && (m.Seek? && m.t != AtLabel(l) ==> Ready(bs, m, start, r.code, em, r.out, Cons(b, rest)))
  {
    var t, r := Trans(ks, Cons(Label(l, b), rest), em).value, Trans(ks, Cons(b, rest), em).value;
    LabelledParts(Label(l, b), rest);
    if m.Seek? { SameEntry(m.t, start, em, em, t.out, r.out); }
  }

  lemma {:induction false} LabelSim<S>(ev: (Expr, S) -> (int, S), bs: Blocks, m: Mode, start: Code, ks: Stack,
      l: string, b: Stmt, rest: Stmts, em: Emit, st: S, fuel: nat) returns (n: nat)
    requires Trans(ks, Cons(Label(l, b), rest), em).Some?
    requires var t := Trans(ks, Cons(Label(l, b), rest), em).value;
      Ready(bs, m, start, t.code, em, t.out, Cons(Label(l, b), rest))
    ensures Lands(Steps(bs, ev, At(start, st), n), n, ks, ExecAll(ev, m, Cons(Label(l, b), rest), st, fuel), fuel)
    ensures m.Seek? ==> n > 0
    decreases fuel, SizeAll(rest) + 4 + Size(b), 1
  {
    var inner := Cons(b, rest);
    LabelReady(bs, m, start, ks, l, b, rest, em);
    var r := Trans(ks, inner, em).value;
    ExecLabelled(ev, m, Label(l, b), rest, st, fuel);
    if m.Run? || m.t == AtLabel(l) {
      var k := Simulation(ev, bs, Run, r.code, ks, inner, em, st, fuel);
      assert Steps(bs, ev, At(start, st), 1 + k) == Steps(bs, ev, At(r.code, st), k);
      n := 1 + k;
    } else {
      n := Simulation(ev, bs, m, start, ks, inner, em, st, fuel);
    }
  }

  /** If the entry is not the label itself, it is an entry of what is labelled. */
  lemma {:induction false} CaseEntry(t: Target, start: Code, s: Stmt, em: Emit, out: Emit, inner: Stmts)
    requires (s.Case? || s.Default?) && em.sw.Some? && em.sw.value.dflt.None?
    requires Grows(Registered(s, em), out) && Registers(Registered(s, em), out, inner)
    requires EntersAt(t, start, em, out)
    ensures t != Own(s) ==> EntersAt(t, start, Registered(s, em), out)
    ensures t == Own(s) && !HasAny(t, inner) ==> start == Jump(Fresh(em.sw.value.cur))
  {
    if t.AtCase? {
      var k: nat :| NewCase(em, out, t.i, k) && start == Jump(Fresh(out.sw.value.cases[k].1));
      assert t != Own(s) ==> NewCase(Registered(s, em), out, t.i, k);
      assert t == Own(s) && !HasAny(t, inner) ==> !NewCase(Registered(s, em), out, t.i, k);
    }
  }

  lemma {:induction false} CaseSim<S>(ev: (Expr, S) -> (int, S), bs: Blocks, m: Mode, start: Code, ks: Stack,
      s: Stmt, b: Stmt, rest: Stmts, em: Emit, st: S, fuel: nat) returns (n: nat)
    requires (s.Case? || s.Default?) && s.labelled == b
    requires TransCase(ks, s, b, rest, em).Some?
    requires var t := TransCase(ks, s, b, rest, em).value; Ready(bs, m, start, t.code, em, t.out, Cons(s, rest))
    ensures Lands(Steps(bs, ev, At(start, st), n), n, ks, ExecAll(ev, m, Cons(s, rest), st, fuel), fuel)
    ensures m.Seek? ==> n > 0
    decreases fuel, SizeAll(rest) + 4 + Size(b), 1
  {
    var inner := Cons(b, rest);
    var ks1, r := CaseStages(ks, s, b, rest, em);
    assert Extends(r.out.blocks, bs) && bs[Fresh(em.sw.value.cur)] == r.code;
    ExecLabelled(ev, m, s, rest, st, fuel);
    LabelledParts(s, rest);
    if m.Seek? {
      assert EntersAt(m.t, start, em, r.out);
      CaseEntry(m.t, start, s, em, r.out, inner);
    }
    n := CaseInner(ev, bs, m, start, ks, ks1, s, inner, em, r, st, fuel);
  }

  lemma {:induction false} CaseInner<S>(ev: (Expr, S) -> (int, S), bs: Blocks, m: Mode, start: Code, ks: Stack,
      ks1: Stack, s: Stmt, inner: Stmts, em: Emit, r: Emitted, st: S, fuel: nat) returns (n: nat)
    requires (s.Case? || s.Default?) && em.sw.Some? && ks1 == PushEndCase(Jump(Fresh(em.sw.value.next)), ks)
    requires Trans(ks1, inner, Registered(s, em)) == Some(r)
    requires Unique(inner) && DistinctCasesAll(inner)
    requires Extends(r.out.blocks, bs) && Fresh(em.sw.value.cur) in bs && bs[Fresh(em.sw.value.cur)] == r.code
    requires m.Run? || m.t == Own(s) ==> start == Jump(Fresh(em.sw.value.cur))
    requires m.Seek? && m.t != Own(s) ==> HasAny(m.t, inner) && EntersAt(m.t, start, Registered(s, em), r.out)
    ensures Lands(Steps(bs, ev, At(start, st), n), n, ks,
                  ExecAll(ev, if m == Seek(Own(s)) then Run else m, inner, st, fuel), fuel)
    ensures m.Seek? ==> n > 0
    decreases fuel, SizeAll(inner), 3
  {
    if m.Run? || m.t == Own(s) {
      var k := Simulation(ev, bs, Run, r.code, ks1, inner, Registered(s, em), st, fuel);
      assert Steps(bs, ev, At(start, st), 1 + k) == Steps(bs, ev, At(r.code, st), k);
      n := 1 + k;
    } else {
      n := Simulation(ev, bs, m, start, ks1, inner, Registered(s, em), st, fuel);
    }
  }

  lemma {:induction false} FindIsCase(cases: seq<(int, nat)>, index: seq<(int, nat)>, from: nat, v: int)
    requires from + |index| == |cases|
    requires forall k :: 0 <= k < |index| ==> index[k] == (cases[from + k].0, from + k)
    ensures match Find(index, v)
            case Some(k) => k < |cases| && cases[k].0 == v
            case None => forall k :: from <= k < |cases| ==> cases[k].0 != v
    decreases |index|
  {
    if index != [] && index[0].0 != v {
      FindIsCase(cases, index[1..], from + 1, v);
    }
  }

  lemma {:induction false} SwitchSim<S>(ev: (Expr, S) -> (int, S), bs: Blocks, m: Mode, start: Code, ks: Stack,
      e: Expr, b: Stmt, rest: Stmts, em: Emit, st: S, fuel: nat) returns (n: nat)
    requires TransSwitch(ks, e, b, rest, em).Some?
    requires var t := TransSwitch(ks, e, b, rest, em).value;
      Ready(bs, m, start, t.code, em, t.out, Cons(Switch(e, b), rest))
    ensures Lands(Steps(bs, ev, At(start, st), n), n, ks, ExecAll(ev, m, Cons(Switch(e, b), rest), st, fuel), fuel)
    ensures m.Seek? ==> n > 0
    decreases fuel, SizeAll(rest) + 4 + Size(b), 1
  {
    var em1, r := SwitchStages(ks, e, b, rest, em);
    ExecHead(ev, m, Switch(e, b), rest, st, fuel);
    SwitchLabels(e, b, rest);
    if m.Seek? && !Has(m.t, Switch(e, b)) {
      n := SwitchSkips(ev, bs, m.t, start, ks, e, b, rest, em, st, fuel);
      return;
    }
    if m.Run? {
      var arm := DispatchArm(ev, bs, start, em.n, e, b, SwitchEmit(em1), r.out, st);
      n := DispatchRun(ev, bs, start, arm, ks, em.n, e, b, SwitchEmit(em1), r, st, fuel);
    } else {
      SwitchEnter(bs, m.t, start, ks, e, b, rest, em, em1, r);
      n := Simulation(ev, bs, m, start, SwitchStack(ks, em.n), One(b), SwitchEmit(em1), st, fuel);
      ExecOne(ev, m, b, st, fuel);
    }
    n := ThenRest(ev, bs, Fresh(em.n), ks, rest, em.Bump(), At(start, st), n, Exec(ev, m, Switch(e, b), st, fuel),
      fuel);
  }

  lemma {:induction false} SwitchLabels(e: Expr, b: Stmt, rest: Stmts)
    requires Unique(Cons(Switch(e, b), rest)) && DistinctCasesAll(Cons(Switch(e, b), rest))
    ensures Unique(rest) && DistinctCasesAll(rest) && Unique(One(b)) && DistinctCases(b)
  {
    assert DistinctCases(Switch(e, b));
    UniquePart(Cons(Switch(e, b), rest), rest);
  }

  /** A user label in the body of a `switch`. */
  lemma {:induction false} SwitchEnter(bs: Blocks, t: Target, start: Code, ks: Stack, e: Expr, b: Stmt,
      rest: Stmts, em: Emit, em1: Emit, r: Emitted)
    requires TransSwitch(ks, e, b, rest, em).Some? && Has(t, Switch(e, b))
    requires var q := TransSwitch(ks, e, b, rest, em).value;
      Ready(bs, Seek(t), start, q.code, em, q.out, Cons(Switch(e, b), rest)) && Extends(r.out.blocks, q.out.blocks)
    requires Trans(SwitchStack(ks, em.n), One(b), SwitchEmit(em1)) == Some(r)
    ensures Has(t, b) && Ready(bs, Seek(t), start, r.code, SwitchEmit(em1), r.out, One(b))
  {
    SwitchLabels(e, b, rest);
    CountOne(t, b);
    OneCases(b);
    var q := TransSwitch(ks, e, b, rest, em).value;
    assert Extends(q.out.blocks, bs) && t.AtLabel? && start == Jump(User(t.l));
  }

  lemma {:induction false} OneCases(b: Stmt)
    ensures DistinctCasesAll(One(b)) <==> DistinctCases(b)
  {
    assert DistinctCasesAll(Nil);
  }

  /** A `switch` that the label sought is not in. */
  lemma {:induction false} SwitchSkips<S>(ev: (Expr, S) -> (int, S), bs: Blocks, t: Target, start: Code,
      ks: Stack, e: Expr, b: Stmt, rest: Stmts, em: Emit, st: S, fuel: nat) returns (n: nat)
    requires TransSwitch(ks, e, b, rest, em).Some? && !Has(t, Switch(e, b))
    requires var r := TransSwitch(ks, e, b, rest, em).value;
      Ready(bs, Seek(t), start, r.code, em, r.out, Cons(Switch(e, b), rest))
    ensures Lands(Steps(bs, ev, At(start, st), n), n, ks, ExecAll(ev, Seek(t), Cons(Switch(e, b), rest), st, fuel),
      fuel)
    ensures n > 0
    decreases fuel, SizeAll(rest) + 4 + Size(b), 0
  {
    var em1, r := SwitchStages(ks, e, b, rest, em);
    var out := TransSwitch(ks, e, b, rest, em).value.out;
    ExecHead(ev, Seek(t), Switch(e, b), rest, st, fuel);
    Quiet(em1, em1.With(out.sw));
    n := SeekRest(ev, bs, t, start, Fresh(em.n), ks, Switch(e, b), rest, em, em.Bump(), em1, em1.With(out.sw),
                  Nil, st, fuel);
  }

  /** A `switch` on its own, entered at its head, whose dispatch goes to `arm`. */
  lemma {:induction false} DispatchRun<S>(ev: (Expr, S) -> (int, S), bs: Blocks, start: Code, arm: Code,
      ks: Stack, l: nat, e: Expr, b: Stmt, em: Emit, r: Emitted, st: S, fuel: nat) returns (n: nat)
    requires Trans(SwitchStack(ks, l), One(b), em) == Some(r)
    requires Extends(r.out.blocks, bs) && Unique(One(b)) && DistinctCases(b)
    requires Step(bs, ev, At(start, st)) == At(arm, ev(e, st).1)
    requires var into := Select(ev(e, st).0, b);
      if into.Run? then arm == Jump(Fresh(l)) else EntersAt(into.t, arm, em, r.out) && HasAny(into.t, One(b))
    ensures Lands(Steps(bs, ev, At(start, st), n), n, PushEnd(Jump(Fresh(l)), ks),
                  Exec(ev, Run, Switch(e, b), st, fuel), fuel)
    decreases fuel, 3 + Size(b), 0
  {
    var (v, st1) := ev(e, st);
    var into := Select(v, b);
    n := 1;
    ExecSwitch(ev, e, b, st, fuel);
    if into.Seek? {
      OneCases(b);
      var j := Simulation(ev, bs, into, arm, SwitchStack(ks, l), One(b), em, st1, fuel);
      ExecOne(ev, into, b, st1, fuel);
      assert Steps(bs, ev, At(start, st), 1 + j) == Steps(bs, ev, At(arm, st1), j);
      n := 1 + j;
    }
  }

  lemma {:induction false} ExecSwitch<S>(ev: (Expr, S) -> (int, S), e: Expr, b: Stmt, st: S, fuel: nat)
    ensures var st1 := ev(e, st).1;
      var into := Select(ev(e, st).0, b);
      Exec(ev, Run, Switch(e, b), st, fuel)
        == if into.Run? then Normal(st1) else LeaveSwitch(Exec(ev, into, b, st1, fuel))
  {
  }

  lemma {:induction false} CountOne(t: Target, s: Stmt)
    ensures CountAll(t, One(s)) == Count(t, s)
  {
  }

  /** One step of the emitted dispatch enters the body where the source selects it. */
  lemma {:induction false} DispatchArm<S>(ev: (Expr, S) -> (int, S), bs: Blocks, start: Code, l: nat, e: Expr,
      b: Stmt, em: Emit, out: Emit, st: S)
    returns (arm: Code)
    requires em.sw.Some? && em.sw.value.cases == [] && em.sw.value.dflt.None? && out.sw.Some?
    requires Grows(em, out) && Registers(em, out, One(b))
    requires start == Dispatch(e, out.sw.value, Jump(Fresh(l)))
    ensures Step(bs, ev, At(start, st)) == At(arm, ev(e, st).1)
    ensures var into := Select(ev(e, st).0, b);
      if into.Run? then arm == Jump(Fresh(l)) else EntersAt(into.t, arm, em, out) && HasAny(into.t, One(b))
  {
    var v := ev(e, st).0;
    var cases := out.sw.value.cases;
    FindIsCase(cases, start.index, 0, v);
    CountOne(AtCase(v), b);
    CountOne(AtDefault, b);
    arm := Step(bs, ev, At(start, st)).c;
    match Find(start.index, v)
    case Some(k) => assert NewCase(em, out, v, k);
    case None =>
      forall k: nat ensures !NewCase(em, out, v, k) {}
  }

  lemma {:induction false} LoopEntry(t: Target, start: Code, s: Stmt, b: Stmt, rest: Stmts, em: Emit, em1: Emit,
      em2: Emit, out: Emit)
    requires (s.While? || s.Do?) && s.loop == b && Has(t, s) && Unique(Cons(s, rest))
    requires Grows(em, em1) && Registers(em, em1, rest)
    requires Grows(em1, em2) && Registers(em1, em2, One(b))
    requires Grows(em2, out) && Registers(em2, out, Nil)
    requires EntersAt(t, start, em, out)
    ensures EntersAt(t, start, em1, em2)
  {
    assert CountAll(t, Cons(s, rest)) == Count(t, b) + CountAll(t, rest) <= 1;
    CountOne(t, b);
    Locate(t, start, em, em1, em2, out, rest, One(b), Nil);
  }

  lemma {:induction false} LoopSim<S>(ev: (Expr, S) -> (int, S), bs: Blocks, m: Mode, start: Code, ks: Stack,
      s: Stmt, e: Expr, b: Stmt, rest: Stmts, em: Emit, st: S, fuel: nat) returns (n: nat)
    requires s == While(e, b) || s == Do(b, e)
    requires TransLoop(ks, s.While?, e, b, rest, em).Some?
    requires var t := TransLoop(ks, s.While?, e, b, rest, em).value;
      Ready(bs, m, start, t.code, em, t.out, Cons(s, rest))
    ensures Lands(Steps(bs, ev, At(start, st), n), n, ks, ExecAll(ev, m, Cons(s, rest), st, fuel), fuel)
    ensures m.Seek? ==> n > 0
    decreases fuel, SizeAll(rest) + 4 + Size(b), 1
  {
    var em1, em2 := LoopStages(ks, s.While?, e, b, rest, em);
    var out := TransLoop(ks, s.While?, e, b, rest, em).value.out;
    if m.Seek? && !Has(m.t, s) {
      n := LoopSkips(ev, bs, m.t, start, ks, s, e, b, rest, em, st, fuel);
      return;
    }
    LoopParts(bs, m, start, ks, s, e, b, rest, em, em1, em2);
    n := LoopHead(ev, bs, m, start, ks, s, e, b, rest, em, em1, st, fuel);
  }

  /** The conditions under which the loop with the labels `l` to `l + 2` is run from `start`. */
  ghost predicate LoopReady(bs: Blocks, m: Mode, start: Code, ks: Stack, s: Stmt, e: Expr, b: Stmt, l: nat, em: Emit) {
    && (s == While(e, b) || s == Do(b, e))
    && TransInto(Fresh(l + 1), LoopStack(ks, l), One(b), em).Some?
    && var em1 := TransInto(Fresh(l + 1), LoopStack(ks, l), One(b), em).value;
    && Extends(em1.blocks, bs) && (m.Seek? ==> Has(m.t, b) && EntersAt(m.t, start, em, em1))
    && Fresh(l) in bs && bs[Fresh(l)] == Branch(None, e, Jump(Fresh(l + 1)), Jump(Fresh(l + 2)))
    && (m.Run? ==> start == Jump(Fresh(if s.While? then l else l + 1)))
    && Unique(One(b)) && DistinctCases(b)
  }

  lemma {:induction false} LoopParts(bs: Blocks, m: Mode, start: Code, ks: Stack, s: Stmt, e: Expr, b: Stmt,
      rest: Stmts, em: Emit, em1: Emit, em2: Emit)
    requires (s == While(e, b) || s == Do(b, e)) && (m.Seek? ==> Has(m.t, s))
    requires TransLoop(ks, s.While?, e, b, rest, em).Some?
    requires var t := TransLoop(ks, s.While?, e, b, rest, em).value;
      Ready(bs, m, start, t.code, em, t.out, Cons(s, rest))
    requires TransInto(Fresh(em.n + 2), ks, rest, em.(n := em.n + 3)) == Some(em1)
    requires TransInto(Fresh(em.n + 1), LoopStack(ks, em.n), One(b), em1) == Some(em2)
    requires Grows(em, em1) && Registers(em, em1, rest)
    requires Grows(em1, em2) && Registers(em1, em2, One(b))
    ensures Extends(em1.blocks, bs) && Unique(rest) && DistinctCasesAll(rest)
    ensures LoopReady(bs, m, start, ks, s, e, b, em.n, em1)
  {
    var out := TransLoop(ks, s.While?, e, b, rest, em).value.out;
    LoopBlocks(ks, s.While?, e, b, rest, em, em1, em2);
    LoopLabels(s, b, rest);
    if m.Seek? {
      Quiet(em2, out);
      LoopEntry(m.t, start, s, b, rest, em, em1, em2, out);
    }
  }

  lemma LoopBlocks(ks: Stack, isWhile: bool, e: Expr, b: Stmt, rest: Stmts, em: Emit, em1: Emit, em2: Emit)
    requires TransLoop(ks, isWhile, e, b, rest, em).Some?
    requires TransInto(Fresh(em.n + 2), ks, rest, em.(n := em.n + 3)) == Some(em1)
    requires TransInto(Fresh(em.n + 1), LoopStack(ks, em.n), One(b), em1) == Some(em2) && Grows(em1, em2)
    ensures var t := TransLoop(ks, isWhile, e, b, rest, em).value;
      && Extends(em1.blocks, t.out.blocks) && Extends(em2.blocks, t.out.blocks) && t.out.sw == em2.sw
         && t.out.n == em2.n
      && Fresh(em.n) in t.out.blocks
      && t.out.blocks[Fresh(em.n)] == Branch(None, e, Jump(Fresh(em.n + 1)), Jump(Fresh(em.n + 2)))
      && t.code == Jump(Fresh(if isWhile then em.n else em.n + 1))
  {
  }

  lemma {:induction false} LoopLabels(s: Stmt, b: Stmt, rest: Stmts)
    requires (s.While? || s.Do?) && s.loop == b && Unique(Cons(s, rest)) && DistinctCasesAll(Cons(s, rest))
    ensures Unique(One(b)) && Unique(rest) && DistinctCases(b) && DistinctCasesAll(rest)
    ensures forall t :: Has(t, s) <==> Has(t, b)
  {
    assert DistinctCases(s);
    UniquePart(Cons(s, rest), One(b));
    UniquePart(Cons(s, rest), rest);
  }

  /** A loop that the label sought is not in. */
  lemma {:induction false} LoopSkips<S>(ev: (Expr, S) -> (int, S), bs: Blocks, t: Target, start: Code,
      ks: Stack, s: Stmt, e: Expr, b: Stmt, rest: Stmts, em: Emit, st: S, fuel: nat) returns (n: nat)
    requires (s == While(e, b) || s == Do(b, e)) && !Has(t, s)
    requires TransLoop(ks, s.While?, e, b, rest, em).Some?
    requires var r := TransLoop(ks, s.While?, e, b, rest, em).value;
      Ready(bs, Seek(t), start, r.code, em, r.out, Cons(s, rest))
    ensures Lands(Steps(bs, ev, At(start, st), n), n, ks, ExecAll(ev, Seek(t), Cons(s, rest), st, fuel), fuel)
    ensures n > 0
    decreases fuel, SizeAll(rest) + 4 + Size(b), 0
  {
    var em1, em2 := LoopStages(ks, s.While?, e, b, rest, em);
    var out := TransLoop(ks, s.While?, e, b, rest, em).value.out;
    Quiet(em2, out);
    Chain(em1, em2, out, One(b), Nil, One(b));
    CountOne(t, b);
    n := SeekRest(ev, bs, t, start, Fresh(em.n + 2), ks, s, rest, em, em.(n := em.n + 3), em1, out,
                  One(b), st, fuel);
  }

  lemma {:induction false} LoopHead<S>(ev: (Expr, S) -> (int, S), bs: Blocks, m: Mode, start: Code, ks: Stack,
      s: Stmt, e: Expr, b: Stmt, rest: Stmts, em: Emit, em1: Emit, st: S, fuel: nat) returns (n: nat)
    requires TransInto(Fresh(em.n + 2), ks, rest, em.(n := em.n + 3)) == Some(em1)
    requires Extends(em1.blocks, bs) && Unique(rest) && DistinctCasesAll(rest) && (m.Seek? ==> Has(m.t, s))
    requires LoopReady(bs, m, start, ks, s, e, b, em.n, em1)
    ensures Lands(Steps(bs, ev, At(start, st), n), n, ks, ExecAll(ev, m, Cons(s, rest), st, fuel), fuel)
    ensures m.Seek? ==> n > 0
    decreases fuel, SizeAll(rest) + 4 + Size(b), 0
  {
    ExecHead(ev, m, s, rest, st, fuel);
    if s.While? {
      n := WhileSim(ev, bs, m, start, ks, e, b, em.n, em1, st, fuel);
    } else {
      n := DoSim(ev, bs, m, start, ks, e, b, em.n, em1, st, fuel);
    }
    n := ThenRest(ev, bs, Fresh(em.n + 2), ks, rest, em.(n := em.n + 3), At(start, st), n,
                  Exec(ev, m, s, st, fuel), fuel);
  }

  /** The body of a loop, run once, with what leads up to it: `k` steps to the code of the body. */
  lemma {:induction false} LoopBodySim<S>(ev: (Expr, S) -> (int, S), bs: Blocks, m: Mode, start: Code,
      ks: Stack, s: Stmt, e: Expr, b: Stmt, l: nat, em: Emit, c: Config<S>, k: nat, st: S,
      fuel: nat) returns (n: nat)
    requires LoopReady(bs, m, start, ks, s, e, b, l, em)
    requires Steps(bs, ev, c, k) == At(if m.Run? then bs[Fresh(l + 1)] else start, st)
    ensures Lands(Steps(bs, ev, c, n), n, LoopStack(ks, l), Exec(ev, m, b, st, fuel), fuel)
    ensures n >= k && (m.Seek? ==> n > k)
    decreases fuel, 1 + Size(b), 3
  {
    var t := Trans(LoopStack(ks, l), One(b), em).value;
    LoopBodyReady(bs, m, start, ks, s, e, b, l, em);
    var j := Simulation(ev, bs, m, if m.Run? then t.code else start, LoopStack(ks, l), One(b), em, st, fuel);
    ExecOne(ev, m, b, st, fuel);
    StepsCompose(bs, ev, c, k, j);
    n := k + j;
  }

  lemma {:induction false} LoopBodyReady(bs: Blocks, m: Mode, start: Code, ks: Stack, s: Stmt, e: Expr, b: Stmt,
      l: nat, em: Emit)
    requires LoopReady(bs, m, start, ks, s, e, b, l, em)
    ensures Trans(LoopStack(ks, l), One(b), em).Some?
    ensures var t := Trans(LoopStack(ks, l), One(b), em).value;
      && Fresh(l + 1) in bs && bs[Fresh(l + 1)] == t.code
      && Ready(bs, m, if m.Run? then t.code else start, t.code, em, t.out, One(b))
  {
    IntoReady(bs, m, start, Fresh(l + 1), LoopStack(ks, l), b, em,
      TransInto(Fresh(l + 1), LoopStack(ks, l), One(b), em).value);
  }

  lemma LoopAgain(bs: Blocks, m: Mode, start: Code, ks: Stack, s: Stmt, e: Expr, b: Stmt, l: nat, em: Emit)
    requires LoopReady(bs, m, start, ks, s, e, b, l, em)
    ensures LoopReady(bs, Run, Jump(Fresh(if s.While? then l else l + 1)), ks, s, e, b, l, em)
    ensures Fresh(l) in bs && bs[Fresh(l)] == Branch(None, e, Jump(Fresh(l + 1)), Jump(Fresh(l + 2)))
    ensures Fresh(l + 1) in bs && (m.Run? ==> start == Jump(Fresh(if s.While? then l else l + 1)))
  {
  }

  /** A `while` loop on its own: its normal end is the block after it. */
  lemma {:induction false} WhileSim<S>(ev: (Expr, S) -> (int, S), bs: Blocks, m: Mode, start: Code, ks: Stack,
      e: Expr, b: Stmt, l: nat, em: Emit, st: S, fuel: nat) returns (n: nat)
    requires LoopReady(bs, m, start, ks, While(e, b), e, b, l, em)
    ensures Lands(Steps(bs, ev, At(start, st), n), n, PushEnd(Jump(Fresh(l + 2)), ks),
      Exec(ev, m, While(e, b), st, fuel), fuel)
    ensures m.Seek? ==> n > 0
    decreases fuel, 3 + Size(b), 0, if m.Run? then 0 else 1
  {
    LoopAgain(bs, m, start, ks, While(e, b), e, b, l, em);
    if m.Run? && fuel == 0 {
      return 0;
    }
    ExecWhile(ev, m, e, b, st, fuel);
    var k, st1 := 0, st;
    if m.Run? {
      var (v, st') := ev(e, st);
      st1 := st';
      if v == 0 {
        assert Steps(bs, ev, At(start, st), 2) == Steps(bs, ev, At(bs[Fresh(l)], st), 1);
        return 2;
      }
      assert Steps(bs, ev, At(start, st), 3) == Steps(bs, ev, At(bs[Fresh(l)], st), 2)
          == Steps(bs, ev, At(Jump(Fresh(l + 1)), st1), 1) == At(bs[Fresh(l + 1)], st1);
      k := 3;
    }
    n := LoopBodySim(ev, bs, m, start, ks, While(e, b), e, b, l, em, At(start, st), k, st1, fuel);
    var r := Exec(ev, m, b, st1, fuel);
    if r.Normal? || r.Continued? {
      var i := WhileSim(ev, bs, Run, Jump(Fresh(l)), ks, e, b, l, em, r.st, if m.Run? then fuel - 1 else fuel);
      StepsCompose(bs, ev, At(start, st), n, i);
      n := n + i;
    }
  }

  /** A `do` loop on its own: its normal end is the block after it. */
  lemma {:induction false} DoSim<S>(ev: (Expr, S) -> (int, S), bs: Blocks, m: Mode, start: Code, ks: Stack,
      e: Expr, b: Stmt, l: nat, em: Emit, st: S, fuel: nat) returns (n: nat)
    requires LoopReady(bs, m, start, ks, Do(b, e), e, b, l, em)
    ensures Lands(Steps(bs, ev, At(start, st), n), n, PushEnd(Jump(Fresh(l + 2)), ks), Exec(ev, m, Do(b, e), st, fuel),
      fuel)
    ensures m.Seek? ==> n > 0
    decreases fuel, 3 + Size(b), 0, if m.Run? then 0 else 2
  {
    LoopAgain(bs, m, start, ks, Do(b, e), e, b, l, em);
    if m.Run? && fuel == 0 {
      return 0;
    }
    ExecDo(ev, m, e, b, st, fuel);
    var k := 0;
    if m.Run? {
      assert Steps(bs, ev, At(start, st), 1) == At(bs[Fresh(l + 1)], st);
      k := 1;
    }
    n := LoopBodySim(ev, bs, m, start, ks, Do(b, e), e, b, l, em, At(start, st), k, st, fuel);
    var r := Exec(ev, m, b, st, fuel);
    if r.Normal? || r.Continued? {
      n := DoCondition(ev, bs, ks, e, b, l, em, At(start, st), n, r.st, if m.Run? then fuel - 1 else fuel);
    }
  }

  /** The condition of a `do` loop and what follows it. */
  lemma {:induction false} DoCondition<S>(ev: (Expr, S) -> (int, S), bs: Blocks, ks: Stack, e: Expr, b: Stmt,
      l: nat, em: Emit, c: Config<S>, k: nat, st: S, fuel: nat) returns (n: nat)
    requires LoopReady(bs, Run, Jump(Fresh(l + 1)), ks, Do(b, e), e, b, l, em)
    requires Steps(bs, ev, c, k) == At(Jump(Fresh(l)), st)
    ensures var st1 := ev(e, st).1;
      var r := if ev(e, st).0 == 0 then Normal(st1) else Exec(ev, Run, Do(b, e), st1, fuel);
      Lands(Steps(bs, ev, c, n), n, PushEnd(Jump(Fresh(l + 2)), ks), r, fuel) && (r.Timeout? ==> n >= k + 2 + fuel)
    ensures n >= k + 2
    decreases fuel, 3 + Size(b), 0, 1
  {
    LoopAgain(bs, Run, Jump(Fresh(l + 1)), ks, Do(b, e), e, b, l, em);
    var (v, st1) := ev(e, st);
    assert Steps(bs, ev, At(Jump(Fresh(l)), st), 2) == Steps(bs, ev, At(bs[Fresh(l)], st), 1)
        == At(if v != 0 then Jump(Fresh(l + 1)) else Jump(Fresh(l + 2)), st1);
    StepsCompose(bs, ev, c, k, 2);
    n := k + 2;
    if v != 0 {
      var i := DoSim(ev, bs, Run, Jump(Fresh(l + 1)), ks, e, b, l, em, st1, fuel);
      StepsCompose(bs, ev, c, n, i);
      n := n + i;
    }
  }
}
