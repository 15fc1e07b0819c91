/**
 The ticket lock whose dispenser is reset by the last ticket holder, as a step system over the
 atomic accesses to `owner` and `next`.  Any number of threads; one step is one load, store or
 compare-exchange of one thread.  A schedule names the thread that moves next, so the schedules are
 exactly the interleavings, and a thread that is never scheduled again has stopped.
 */
module TicketLock {

  const NO_TICKET: nat := 65535
  const LAST_TICKET: nat := NO_TICKET - 1

  type Tid = nat

  /** Where a thread stands. */
  datatype Pc =
    | Idle                      // outside the lock
    | LoadNext                  // about to read `next`
    | Exchange(ticket: nat)     // about to compare-exchange `next` from `ticket`
    | Spin(ticket: nat)         // holds `ticket`, about to read `owner`
    | Critical(ticket: nat)     // in the critical section, next is the load of `owner`
    | Release(ticket: nat)      // read `ticket` from `owner`, about to store `owner`
    | Reset                     // stored 0 to `owner`, about to store 0 to `next`

  datatype State = State(owner: nat, next: nat, pc: seq<Pc>) {
    function At(i: Tid, c: Pc): State
      requires i < |pc|
    {
      this.(pc := pc[i := c])
    }
  }

  function Init(threads: nat): State {
    State(0, 0, seq(threads, _ => Idle))
  }

  /** One step of thread `i`. */
  function Step(s: State, i: Tid): State
    requires i < |s.pc|
  {
    match s.pc[i]
    case Idle => s.At(i, LoadNext)
    case LoadNext => if s.next == NO_TICKET then s else s.At(i, Exchange(s.next))
    case Exchange(t) => if s.next == t then s.(next := t + 1).At(i, Spin(t)) else s.At(i, LoadNext)
    case Spin(t) => if s.owner == t then s.At(i, Critical(t)) else s
    case Critical(_) => s.At(i, Release(s.owner))
    case Release(t) => if t == LAST_TICKET then s.(owner := 0).At(i, Reset) else s.(owner := t + 1).At(i, Idle)
    case Reset => s.(next := 0).At(i, Idle)
  }

  /** A state together with who won the compare-exchanges and who entered, in order. */
  datatype Run = Run(s: State, taken: seq<Tid>, entered: seq<Tid>)

  function Advance(r: Run, i: Tid): Run
    requires i < |r.s.pc|
  {
    var s := Step(r.s, i);
    var took := r.s.pc[i].Exchange? && s.pc[i].Spin?;
    var enters := r.s.pc[i].Spin? && s.pc[i].Critical?;
    Run(s, if took then r.taken + [i] else r.taken, if enters then r.entered + [i] else r.entered)
  }

  predicate Names(schedule: seq<Tid>, threads: nat) {
    forall k :: 0 <= k < |schedule| ==> schedule[k] < threads
  }

  function Play(r: Run, schedule: seq<Tid>): (r': Run)
    requires Names(schedule, |r.s.pc|)
    ensures |r'.s.pc| == |r.s.pc|
    decreases |schedule|
  {
    if schedule == [] then r else Play(Advance(r, schedule[0]), schedule[1..])
  }

  function Start(threads: nat): Run { Run(Init(threads), [], []) }

  ghost predicate Reachable(r: Run) {
    exists schedule :: Names(schedule, |r.s.pc|) && Play(Start(|r.s.pc|), schedule) == r
  }

  // ----- The invariant -----

  predicate Holds(c: Pc) { c.Spin? || c.Critical? || c.Release? }

  predicate Inside(c: Pc) { c.Critical? || c.Release? }

  predicate Holding(s: State, i: int, t: int) {
    0 <= i < |s.pc| && Holds(s.pc[i]) && s.pc[i].ticket == t
  }

  ghost predicate Resetting(s: State) {
    exists i :: 0 <= i < |s.pc| && s.pc[i].Reset?
  }

  /** Nobody holds a ticket while the dispenser is being reset, by exactly one thread. */
  ghost predicate ResetWindow(r: Run) {
    && r.s.owner == 0 && r.s.next == NO_TICKET && r.entered == r.taken
    && (forall i :: 0 <= i < |r.s.pc| ==> !Holds(r.s.pc[i]))
    && (forall i, j :: 0 <= i < |r.s.pc| && 0 <= j < |r.s.pc| && r.s.pc[i].Reset? && r.s.pc[j].Reset? ==> i == j)
  }

  /** The compare-exchanges won before the current round of tickets. */
  function Base(r: Run): int { |r.taken| - r.s.next }

  /** Who took ticket `t` of the current round. */
  function Taker(r: Run, t: int): int {
    if 0 <= Base(r) + t < |r.taken| then r.taken[Base(r) + t] else -1
  }

  /** Outside the reset window the outstanding tickets are exactly `owner` to `next - 1`, each held
      by the thread that took it; only the owner of the first can be inside. */
  ghost predicate Serving(r: Run) {
    && r.s.owner <= r.s.next
    && (forall t :: r.s.owner <= t < r.s.next ==> Holding(r.s, Taker(r, t), t))
    && (forall i :: 0 <= i < |r.s.pc| && Holds(r.s.pc[i]) ==>
          r.s.owner <= r.s.pc[i].ticket < r.s.next && Taker(r, r.s.pc[i].ticket) == i)
    && (forall i :: 0 <= i < |r.s.pc| && Inside(r.s.pc[i]) ==> r.s.pc[i].ticket == r.s.owner)
    && |r.entered| == Base(r) + r.s.owner + (if Occupied(r.s) then 1 else 0)
    && r.entered <= r.taken
  }

  ghost predicate Occupied(s: State) {
    exists i :: 0 <= i < |s.pc| && Inside(s.pc[i])
  }

  ghost predicate Inv(r: Run) {
    && r.s.owner <= LAST_TICKET && r.s.next <= NO_TICKET && r.s.next <= |r.taken|
    && (forall i :: 0 <= i < |r.s.pc| && r.s.pc[i].Exchange? ==> r.s.pc[i].ticket <= LAST_TICKET)
    && if Resetting(r.s) then ResetWindow(r) else Serving(r)
  }

  lemma {:induction false} AdvanceKeepsInv(r: Run, i: Tid)
    requires i < |r.s.pc| && Inv(r)
    ensures Inv(Advance(r, i))
  {
    match r.s.pc[i]
    case Idle => Same(r, i, LoadNext);
    case LoadNext => if r.s.next != NO_TICKET { Same(r, i, Exchange(r.s.next)); }
    case Exchange(t) => if r.s.next == t { Take(r, i); } else { Same(r, i, LoadNext); }
    case Spin(t) => if r.s.owner == t { Enter(r, i); }
    case Critical(t) => Leave(r, i);
    case Release(t) => if t == LAST_TICKET { StartReset(r, i); } else { Handover(r, i); }
    case Reset => FinishReset(r, i);
  }

  /** What the other threads contribute is untouched by a step of thread `i`. */
  lemma {:induction false} Others(r: Run, i: Tid)
    requires i < |r.s.pc|
    ensures forall j :: 0 <= j < |r.s.pc| && j != i ==> Advance(r, i).s.pc[j] == r.s.pc[j]
    ensures var s' := Advance(r, i).s;
      s'.pc[i].Reset? == r.s.pc[i].Reset? ==> (Resetting(s') <==> Resetting(r.s))
    ensures var s' := Advance(r, i).s;
      Inside(s'.pc[i]) == Inside(r.s.pc[i]) ==> (Occupied(s') <==> Occupied(r.s))
  {
    var s, s' := r.s, Advance(r, i).s;
    forall j | 0 <= j < |s.pc| && j != i ensures s'.pc[j] == s.pc[j] {}
    if s'.pc[i].Reset? == s.pc[i].Reset? {
      if Resetting(s) { var j :| 0 <= j < |s.pc| && s.pc[j].Reset?; assert s'.pc[j].Reset?; }
      if Resetting(s') { var j :| 0 <= j < |s.pc| && s'.pc[j].Reset?; assert s.pc[j].Reset?; }
    }
    if Inside(s'.pc[i]) == Inside(s.pc[i]) {
      if Occupied(s) { var j :| 0 <= j < |s.pc| && Inside(s.pc[j]); assert Inside(s'.pc[j]); }
      if Occupied(s') { var j :| 0 <= j < |s.pc| && Inside(s'.pc[j]); assert Inside(s.pc[j]); }
    }
  }

  /** A thread without a ticket moves between places that hold none. */
  lemma {:induction false} Same(r: Run, i: Tid, c: Pc)
    requires i < |r.s.pc| && Inv(r) && !Holds(r.s.pc[i]) && !r.s.pc[i].Reset?
    requires Advance(r, i) == Run(r.s.At(i, c), r.taken, r.entered)
    requires c == LoadNext || (c.Exchange? && c.ticket <= LAST_TICKET)
    ensures Inv(Advance(r, i))
  {
    var r' := Advance(r, i);
    Others(r, i);
    if !Resetting(r.s) {
      forall t | r.s.owner <= t < r.s.next ensures Holding(r'.s, Taker(r', t), t) {
        assert Taker(r', t) == Taker(r, t) && Holding(r.s, Taker(r, t), t);
      }
    }
  }

  lemma {:induction false} Take(r: Run, i: Tid)
    requires i < |r.s.pc| && Inv(r) && r.s.pc[i].Exchange? && r.s.pc[i].ticket == r.s.next
    ensures Inv(Advance(r, i))
  {
    var r' := Advance(r, i);
    Others(r, i);
    forall t | r.s.owner <= t < r.s.next
      ensures Taker(r', t) == Taker(r, t)
      ensures Holding(r'.s, Taker(r', t), t)
    {
      assert Holding(r.s, Taker(r, t), t);
    }
    assert Taker(r', r.s.next) == i;
  }

  lemma {:induction false} Enter(r: Run, i: Tid)
    requires i < |r.s.pc| && Inv(r) && r.s.pc[i].Spin? && r.s.pc[i].ticket == r.s.owner
    ensures Inv(Advance(r, i))
  {
    var r' := Advance(r, i);
    Others(r, i);
    assert !Occupied(r.s);
    assert Inside(r'.s.pc[i]);
    forall t | r.s.owner <= t < r.s.next ensures Holding(r'.s, Taker(r', t), t) {
      assert Taker(r', t) == Taker(r, t) && Holding(r.s, Taker(r, t), t);
    }
    assert Taker(r, r.s.owner) == i;
  }

  lemma {:induction false} Leave(r: Run, i: Tid)
    requires i < |r.s.pc| && Inv(r) && r.s.pc[i].Critical?
    ensures Inv(Advance(r, i))
  {
    var r' := Advance(r, i);
    Others(r, i);
    forall t | r.s.owner <= t < r.s.next ensures Holding(r'.s, Taker(r', t), t) {
      assert Taker(r', t) == Taker(r, t) && Holding(r.s, Taker(r, t), t);
    }
  }

  /** A thread that is inside is the only one, and it holds the owner's ticket. */
  lemma {:induction false} InsideIsOwner(r: Run, i: Tid)
    requires i < |r.s.pc| && Inv(r) && Inside(r.s.pc[i])
    ensures !Resetting(r.s) && Serving(r) && Occupied(r.s) && Taker(r, r.s.owner) == i && r.s.pc[i].ticket == r.s.owner
    ensures forall j :: 0 <= j < |r.s.pc| && Inside(r.s.pc[j]) ==> j == i
  {
    forall j | 0 <= j < |r.s.pc| && Inside(r.s.pc[j]) ensures j == i { assert Taker(r, r.s.owner) == j; }
  }

  lemma {:induction false} Handover(r: Run, i: Tid)
    requires i < |r.s.pc| && Inv(r) && r.s.pc[i].Release? && r.s.pc[i].ticket != LAST_TICKET
    ensures Inv(Advance(r, i))
  {
    var r' := Advance(r, i);
    Others(r, i);
    InsideIsOwner(r, i);
    assert !Occupied(r'.s);
    assert !Resetting(r'.s);
    forall t | r'.s.owner <= t < r.s.next ensures Holding(r'.s, Taker(r', t), t) {
      assert Taker(r', t) == Taker(r, t) && Holding(r.s, Taker(r, t), t);
    }
    forall j | 0 <= j < |r'.s.pc| && Holds(r'.s.pc[j])
      ensures r'.s.owner <= r'.s.pc[j].ticket < r'.s.next && Taker(r', r'.s.pc[j].ticket) == j
    {
      assert Taker(r, r.s.pc[j].ticket) == j;
    }
  }

  lemma {:induction false} StartReset(r: Run, i: Tid)
    requires i < |r.s.pc| && Inv(r) && r.s.pc[i].Release? && r.s.pc[i].ticket == LAST_TICKET
    ensures Inv(Advance(r, i))
  {
    var r' := Advance(r, i);
    Others(r, i);
    InsideIsOwner(r, i);
    assert r.s.next == NO_TICKET;
    assert r'.s.pc[i].Reset?;
    assert |r.entered| == |r.taken|;
    assert forall j :: 0 <= j < |r.s.pc| && Holds(r.s.pc[j]) ==> Taker(r, r.s.pc[j].ticket) == j;
  }

  lemma {:induction false} FinishReset(r: Run, i: Tid)
    requires i < |r.s.pc| && Inv(r) && r.s.pc[i].Reset?
    ensures Inv(Advance(r, i))
  {
    var r' := Advance(r, i);
    Others(r, i);
    assert Resetting(r.s);
    assert !Resetting(r'.s) && !Occupied(r'.s);
  }

  lemma {:induction false} PlayKeepsInv(r: Run, schedule: seq<Tid>)
    requires Names(schedule, |r.s.pc|)
    requires Inv(r)
    ensures Inv(Play(r, schedule))
    decreases |schedule|
  {
    if schedule != [] {
      AdvanceKeepsInv(r, schedule[0]);
      PlayKeepsInv(Advance(r, schedule[0]), schedule[1..]);
    }
  }

  lemma {:induction false} ReachableInv(r: Run)
    requires Reachable(r)
    ensures Inv(r)
  {
    var schedule :| Names(schedule, |r.s.pc|) && Play(Start(|r.s.pc|), schedule) == r;
    PlayKeepsInv(Start(|r.s.pc|), schedule);
  }

  // ----- Safety over every run -----

  /** Both counters and all tickets fit in 16 bits. */
  lemma {:induction false} SixteenBits(r: Run)
    requires Reachable(r)
    ensures r.s.owner < 0x1_0000 && r.s.next < 0x1_0000
    ensures forall i :: 0 <= i < |r.s.pc| && (Holds(r.s.pc[i]) || r.s.pc[i].Exchange?) ==> r.s.pc[i].ticket < 0xFFFF
  {
    ReachableInv(r);
  }

  /** A thread that reads `next` waits exactly at 0xFFFF, and otherwise tries to take the ticket. */
  lemma {:induction false} WaitsForReset(s: State, i: Tid)
    requires i < |s.pc| && s.pc[i].LoadNext?
    ensures Step(s, i) == s <==> s.next == 0xFFFF
    ensures s.next != 0xFFFF ==> Step(s, i) == s.(pc := s.pc[i := Exchange(s.next)])
  {
    assert Step(s, i) == s ==> Step(s, i).pc[i] == s.pc[i];
  }

  /** At most one thread is between entering and releasing, and none while the dispenser resets. */
  lemma {:induction false} MutualExclusion(r: Run, i: Tid, j: Tid)
    requires Reachable(r) && i < |r.s.pc| && j < |r.s.pc|
    ensures Inside(r.s.pc[i]) && Inside(r.s.pc[j]) ==> i == j
    ensures Inside(r.s.pc[i]) ==> !Resetting(r.s)
    ensures r.s.pc[i].Reset? && r.s.pc[j].Reset? ==> i == j
  {
    ReachableInv(r);
    if Inside(r.s.pc[i]) { InsideIsOwner(r, i); }
  }

  /** Outside the reset window the tickets `owner` to `next - 1`, and no others, are held, each by
      one thread; inside it none is. */
  lemma {:induction false} TicketsOutstanding(r: Run, t: int)
    requires Reachable(r)
    ensures !Resetting(r.s) && r.s.owner <= t < r.s.next <==> exists i :: Holding(r.s, i, t)
    ensures forall i, j :: Holding(r.s, i, t) && Holding(r.s, j, t) ==> i == j
  {
    ReachableInv(r);
    if !Resetting(r.s) && r.s.owner <= t < r.s.next {
      assert Holding(r.s, Taker(r, t), t);
    }
    if i :| Holding(r.s, i, t) {
      assert Taker(r, t) == i;
    }
  }

  /** Threads enter in the order in which their compare-exchanges succeeded, over the whole run. */
  lemma {:induction false} EntryOrder(r: Run)
    requires Reachable(r)
    ensures r.entered <= r.taken
  {
    ReachableInv(r);
  }

  /** The records only grow, so the order of the tickets taken so far is the order of every future. */
  lemma {:induction false} RecordsGrow(r: Run, schedule: seq<Tid>)
    requires Names(schedule, |r.s.pc|)
    ensures r.taken <= Play(r, schedule).taken && r.entered <= Play(r, schedule).entered
    decreases |schedule|
  {
    if schedule != [] { RecordsGrow(Advance(r, schedule[0]), schedule[1..]); }
  }

  lemma {:induction false} FifoForever(r: Run, schedule: seq<Tid>, k: nat)
    requires Reachable(r) && Names(schedule, |r.s.pc|)
    ensures k < |r.taken| && k < |Play(r, schedule).entered| ==> Play(r, schedule).entered[k] == r.taken[k]
  {
    ReachableInv(r);
    PlayKeepsInv(r, schedule);
    RecordsGrow(r, schedule);
  }

  // ----- Progress -----

  /** When no ticket is left, somebody is about to change that. */
  lemma {:induction false} DispenserEmpty(r: Run)
    requires Reachable(r) && r.s.next == NO_TICKET
    ensures Resetting(r.s) || exists i :: Holding(r.s, i, r.s.owner)
  {
    ReachableInv(r);
    if !Resetting(r.s) { assert Holding(r.s, Taker(r, r.s.owner), r.s.owner); }
  }

  ghost predicate Quiet(r: Run) {
    !Resetting(r.s) && r.s.owner == r.s.next && forall i :: 0 <= i < |r.s.pc| ==> !Holds(r.s.pc[i])
  }

  ghost function Work(r: Run): nat
    requires Inv(r)
  {
    if Resetting(r.s) then 1
    else if r.s.owner == r.s.next then 0
    else
      assert Holding(r.s, Taker(r, r.s.owner), r.s.owner);
      var c := r.s.pc[Taker(r, r.s.owner)];
      1 + 3 * (r.s.next - r.s.owner) + if c.Spin? then 2 else if c.Critical? then 1 else 0
  }

  /** Some thread can always bring the lock closer to being free. */
  lemma {:induction false} Push(r: Run) returns (i: Tid)
    requires Inv(r) && !Quiet(r)
    ensures i < |r.s.pc| && Inv(Advance(r, i)) && Work(Advance(r, i)) < Work(r)
  {
    if Resetting(r.s) {
      var j :| 0 <= j < |r.s.pc| && r.s.pc[j].Reset?;
      i := j;
      AdvanceKeepsInv(r, i);
      Others(r, i);
      assert !Resetting(Advance(r, i).s);
    } else {
      assert r.s.owner < r.s.next;
      assert Holding(r.s, Taker(r, r.s.owner), r.s.owner);
      i := Taker(r, r.s.owner);
      AdvanceKeepsInv(r, i);
      Others(r, i);
      var r' := Advance(r, i);
      if r.s.pc[i].Release? {
        InsideIsOwner(r, i);
        if r.s.owner == LAST_TICKET { assert r'.s.pc[i].Reset?; }
      } else {
        assert !Resetting(r'.s) && Taker(r', r'.s.owner) == i;
      }
    }
  }

  lemma {:induction false} Drain(r: Run) returns (schedule: seq<Tid>)
    requires Inv(r)
    ensures Names(schedule, |r.s.pc|) && Inv(Play(r, schedule)) && Quiet(Play(r, schedule))
    decreases Work(r)
  {
    if Quiet(r) {
      schedule := [];
    } else {
      var i := Push(r);
      var rest := Drain(Advance(r, i));
      schedule := [i] + rest;
      assert schedule[1..] == rest;
    }
  }

  lemma {:induction false} EnterAlone(r: Run, i: Tid) returns (schedule: seq<Tid>)
    requires Inv(r) && i < |r.s.pc| && !Resetting(r.s) && !r.s.pc[i].Release? && !r.s.pc[i].Critical?
    requires if r.s.pc[i].Spin? then r.s.owner == r.s.pc[i].ticket else r.s.owner == r.s.next
    ensures Names(schedule, |r.s.pc|) && Play(r, schedule).s.pc[i].Critical?
    decreases match r.s.pc[i]
              case Idle => 4
              case Exchange(t) => if t == r.s.next then 2 else 5
              case Spin(_) => 1
              case _ => 3
  {
    AdvanceKeepsInv(r, i);
    Others(r, i);
    var r' := Advance(r, i);
    if r'.s.pc[i].Critical? {
      schedule := [i];
      assert Play(r, schedule) == Play(r', schedule[1..]) == r';
    } else {
      var rest := EnterAlone(r', i);
      schedule := [i] + rest;
      assert schedule[1..] == rest;
    }
  }

  lemma {:induction false} PlayAppend(r: Run, a: seq<Tid>, b: seq<Tid>)
    requires Names(a, |r.s.pc|) && Names(b, |r.s.pc|)
    ensures Names(a + b, |r.s.pc|) && Play(r, a + b) == Play(Play(r, a), b)
    decreases |a|
  {
    if a == [] {
      assert a + b == b;
    } else {
      var r' := Advance(r, a[0]);
      assert (a + b)[1..] == a[1..] + b && (a + b)[0] == a[0];
      assert Names(a[1..], |r'.s.pc|);
      PlayAppend(r', a[1..], b);
      assert Play(r, a) == Play(r', a[1..]);
      assert Play(r, a + b) == Play(r', a[1..] + b);
    }
  }

  /** No reachable state leaves a thread stuck: each can still be brought into the critical
      section, also when every ticket has been given out. */
  lemma {:induction false} EveryThreadCanEnter(r: Run, i: Tid) returns (schedule: seq<Tid>)
    requires Reachable(r) && i < |r.s.pc|
    ensures Names(schedule, |r.s.pc|) && Play(r, schedule).s.pc[i].Critical?
  {
    ReachableInv(r);
    var a := Drain(r);
    var q := Play(r, a);
    var b := EnterAlone(q, i);
    PlayAppend(r, a, b);
    schedule := a + b;
  }
}
