/**
 The statements of a C function body and what they mean (sections 6.8.1 to 6.8.6 of
 ISO/IEC 9899:2011).  Expressions are identities whose meaning is supplied from outside as a
 deterministic function on an abstract state `S`.

 The meaning is structural and indexed by fuel.  Jumps are given by two devices: a statement
 that leaves early says so in its outcome, and a statement that is entered at a label is
 executed in `Seek` mode, which skips everything in front of the label.  `case` and `default`
 labels may stand anywhere below their `switch`, also inside loops and branches.
 */
module CSource {

  type Expr = nat

  datatype Value = Void | Int(i: int)

  datatype Stmt =
    | Skip
    | Expression(e: Expr)
    | Block(body: Stmts)
    | If(e: Expr, thn: Stmt, els: Stmt)
    | While(e: Expr, loop: Stmt)
    | Do(loop: Stmt, e: Expr)
    | Switch(e: Expr, cases: Stmt)
    | Case(i: int, labelled: Stmt)
    | Default(labelled: Stmt)
    | Label(l: string, labelled: Stmt)
    | Goto(l: string)
    | Break
    | Continue
    | Return(e: Expr)
    | ReturnVoid

  datatype Stmts = Nil | Cons(head: Stmt, tail: Stmts)

  function Append(a: Stmts, b: Stmts): Stmts {
    match a
    case Nil => b
    case Cons(s, rest) => Cons(s, Append(rest, b))
  }

  function One(s: Stmt): (r: Stmts)
    ensures SizeAll(r) == 1 + Size(s)
  {
    Cons(s, Nil)
  }

  /** The number of constructors: the termination measure of everything below. */
  function Size(s: Stmt): nat {
    match s
    case Block(body) => 1 + SizeAll(body)
    case If(_, a, b) => 4 + Size(a) + Size(b)
    case While(_, b) => 3 + Size(b)
    case Do(b, _) => 3 + Size(b)
    case Switch(_, b) => 3 + Size(b)
    case Case(_, b) => 3 + Size(b)
    case Default(b) => 3 + Size(b)
    case Label(_, b) => 3 + Size(b)
    case _ => 1
  }

  function SizeAll(ss: Stmts): nat {
    match ss
    case Nil => 0
    case Cons(s, rest) => 1 + Size(s) + SizeAll(rest)
  }

  lemma SizeAppend(a: Stmts, b: Stmts)
    ensures SizeAll(Append(a, b)) == SizeAll(a) + SizeAll(b)
  {
  }

  // ----- Labels -----

  datatype Target = AtCase(i: int) | AtDefault | AtLabel(l: string)

  /** How often a target occurs in a statement.  The `case` and `default` labels of an inner
      `switch` belong to that `switch` alone. */
  function Count(t: Target, s: Stmt): nat {
    match s
    case Block(body) => CountAll(t, body)
    case If(_, a, b) => Count(t, a) + Count(t, b)
    case While(_, b) => Count(t, b)
    case Do(b, _) => Count(t, b)
    case Switch(_, b) => if t.AtLabel? then Count(t, b) else 0
    case Case(i, b) => (if t == AtCase(i) then 1 else 0) + Count(t, b)
    case Default(b) => (if t == AtDefault then 1 else 0) + Count(t, b)
    case Label(l, b) => (if t == AtLabel(l) then 1 else 0) + Count(t, b)
    case _ => 0
  }

  function CountAll(t: Target, ss: Stmts): nat {
    match ss
    case Nil => 0
    case Cons(s, rest) => Count(t, s) + CountAll(t, rest)
  }

  predicate Has(t: Target, s: Stmt) { Count(t, s) > 0 }

  predicate HasAny(t: Target, ss: Stmts) { CountAll(t, ss) > 0 }

  ghost predicate Unique(ss: Stmts) {
    forall t :: CountAll(t, ss) <= 1
  }

  /** The constraint of section 6.8.4.2, paragraph 3: within one `switch` no two `case`
      constants are equal and there is at most one `default`. */
  ghost predicate DistinctCases(s: Stmt) {
    match s
    case Block(body) => DistinctCasesAll(body)
    case If(_, a, b) => DistinctCases(a) && DistinctCases(b)
    case While(_, b) => DistinctCases(b)
    case Do(b, _) => DistinctCases(b)
    case Switch(_, b) => DistinctCases(b) && Unique(One(b))
    case Case(_, b) => DistinctCases(b)
    case Default(b) => DistinctCases(b)
    case Label(_, b) => DistinctCases(b)
    case _ => true
  }

  ghost predicate DistinctCasesAll(ss: Stmts) {
    match ss
    case Nil => true
    case Cons(s, rest) => DistinctCases(s) && DistinctCasesAll(rest)
  }

  lemma CountAppend(t: Target, a: Stmts, b: Stmts)
    ensures CountAll(t, Append(a, b)) == CountAll(t, a) + CountAll(t, b)
  {
  }

  lemma DistinctAppend(a: Stmts, b: Stmts)
    ensures DistinctCasesAll(Append(a, b)) <==> DistinctCasesAll(a) && DistinctCasesAll(b)
  {
  }

  // ----- Execution -----

  datatype Mode = Run | Seek(t: Target)

  datatype Outcome<S> =
    | Normal(st: S)
    | Broke(st: S)
    | Continued(st: S)
    | Returned(v: Value, st: S)
    | Jumped(l: string, st: S)
    | Timeout

  /** Where a `switch` on value `v` enters its body, if it enters it at all. */
  function Select(v: int, b: Stmt): Mode {
    if Has(AtCase(v), b) then Seek(AtCase(v))
    else if Has(AtDefault, b) then Seek(AtDefault)
    else Run
  }

  function LeaveSwitch<S>(r: Outcome<S>): Outcome<S> {
    if r.Broke? then Normal(r.st) else r
  }

  /** One statement.  In `Seek` mode the target is meant to occur in it. */
  function Exec<S>(ev: (Expr, S) -> (int, S), m: Mode, s: Stmt, st: S, fuel: nat): Outcome<S>
    decreases fuel, Size(s), if m.Run? then 0 else 1
  {
    match s
    case Skip => Normal(st)
    case Expression(e) => Normal(ev(e, st).1)
    case Block(body) => ExecAll(ev, m, body, st, fuel)
    case If(e, a, b) =>
      if m.Run? then
        var (v, st1) := ev(e, st);
        Exec(ev, Run, if v != 0 then a else b, st1, fuel)
      else
        Exec(ev, m, if Has(m.t, a) then a else b, st, fuel)
    case While(e, b) =>
      if m.Seek? then
        var r := Exec(ev, m, b, st, fuel);
        if r.Normal? || r.Continued? then Exec(ev, Run, s, r.st, fuel)
        else if r.Broke? then Normal(r.st)
        else r
      else if fuel == 0 then Timeout
      else
        var (v, st1) := ev(e, st);
        if v == 0 then Normal(st1) else
        var r := Exec(ev, Run, b, st1, fuel);
        if r.Normal? || r.Continued? then Exec(ev, Run, s, r.st, fuel - 1)
        else if r.Broke? then Normal(r.st)
        else r
    case Do(b, e) =>
      if m.Run? && fuel == 0 then Timeout else
      var r := Exec(ev, m, b, st, fuel);
      if r.Normal? || r.Continued? then
        var (v, st1) := ev(e, r.st);
        if v == 0 then Normal(st1)
        else Exec(ev, Run, s, st1, if m.Run? then fuel - 1 else fuel)
      else if r.Broke? then Normal(r.st)
      else r
    case Switch(e, b) =>
      if m.Seek? then LeaveSwitch(Exec(ev, m, b, st, fuel)) else
      var (v, st1) := ev(e, st);
      var into := Select(v, b);
      if into.Run? then Normal(st1) else LeaveSwitch(Exec(ev, into, b, st1, fuel))
    case Case(i, b) => Exec(ev, if m == Seek(AtCase(i)) then Run else m, b, st, fuel)
    case Default(b) => Exec(ev, if m == Seek(AtDefault) then Run else m, b, st, fuel)
    case Label(l, b) => Exec(ev, if m == Seek(AtLabel(l)) then Run else m, b, st, fuel)
    case Goto(l) => Jumped(l, st)
    case Break => Broke(st)
    case Continue => Continued(st)
    case Return(e) => var (v, st1) := ev(e, st); Returned(Int(v), st1)
    case ReturnVoid => Returned(Void, st)
  }

  function ExecAll<S>(ev: (Expr, S) -> (int, S), m: Mode, ss: Stmts, st: S, fuel: nat): Outcome<S>
    decreases fuel, SizeAll(ss), if m.Run? then 0 else 1
  {
    match ss
    case Nil => Normal(st)
    case Cons(s, rest) =>
      if m.Seek? && !Has(m.t, s) then ExecAll(ev, m, rest, st, fuel) else
      var r := Exec(ev, m, s, st, fuel);
      if r.Normal? then ExecAll(ev, Run, rest, r.st, fuel) else r
  }

  datatype FunctionOutcome<S> = Result(v: Value, st: S) | NoSuchLabel(l: string) | StillRunning

  /** A function body: falling off the end returns `dflt`, a `goto` re-enters the body at its
      label.  `break` and `continue` outside loops do not reach this point in a translated body. */
  function RunBody<S>(ev: (Expr, S) -> (int, S), dflt: Value, m: Mode, body: Stmts, st: S, fuel: nat)
    : FunctionOutcome<S>
    decreases fuel
  {
    match ExecAll(ev, m, body, st, fuel)
    case Normal(st1) => Result(dflt, st1)
    case Returned(v, st1) => Result(v, st1)
    case Jumped(l, st1) =>
      if !HasAny(AtLabel(l), body) then NoSuchLabel(l)
      else if fuel == 0 then StillRunning
      else RunBody(ev, dflt, Seek(AtLabel(l)), body, st1, fuel - 1)
    case Broke(_) => StillRunning
    case Continued(_) => StillRunning
    case Timeout => StillRunning
  }

  /** Nested blocks have no effect on control flow: entering a block and going on behind it is
      executing the concatenation. */
  lemma {:induction false} ExecAppend<S>(ev: (Expr, S) -> (int, S), m: Mode, a: Stmts, b: Stmts, st: S, fuel: nat)
    ensures ExecAll(ev, m, Append(a, b), st, fuel)
         == if m.Seek? && !HasAny(m.t, a) then ExecAll(ev, m, b, st, fuel)
            else var r := ExecAll(ev, m, a, st, fuel);
                 if r.Normal? then ExecAll(ev, Run, b, r.st, fuel) else r
    decreases a
  {
    match a
    case Nil =>
    case Cons(s, rest) =>
      if m.Seek? && !Has(m.t, s) {
        ExecAppend(ev, m, rest, b, st, fuel);
      } else {
        var r := Exec(ev, m, s, st, fuel);
        if r.Normal? {
          ExecAppend(ev, Run, rest, b, r.st, fuel);
        }
      }
  }
}
