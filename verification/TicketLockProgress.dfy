/**
 Progress of the ticket lock: a thread that holds a ticket enters, provided only that threads that
 hold tickets keep moving.  Threads outside the lock may stay there.
 */
module TicketLockProgress {
  import opened TicketLock

  /** The thread that holds the owner's ticket. */
  function Owner(r: Run): int { Taker(r, r.s.owner) }

  /** The steps that a ticket holder has left until it hands over the lock. */
  function Left(c: Pc): nat {
    match c
    case Spin(_) => 3
    case Critical(_) => 2
    case Release(_) => 1
    case _ => 0
  }

  ghost predicate Waits(r: Run, i: Tid) { i < |r.s.pc| && r.s.pc[i].Spin? }

  /** The steps of owners until thread `i` has entered. */
  function Ahead(r: Run, i: Tid): int
    requires i < |r.s.pc| && r.s.pc[i].Spin?
  {
    var t := r.s.pc[i].ticket;
    if t == r.s.owner || !(0 <= Owner(r) < |r.s.pc|) then 1 else 3 * (t - r.s.owner - 1) + Left(r.s.pc[Owner(r)]) + 1
  }

  lemma {:induction false} OwnerHolds(r: Run, i: Tid)
    requires Inv(r) && Waits(r, i)
    ensures !Resetting(r.s) && Serving(r) && r.s.owner <= r.s.pc[i].ticket < r.s.next && Taker(r, r.s.pc[i].ticket) == i
    ensures Holding(r.s, Owner(r), r.s.owner) && 1 <= Left(r.s.pc[Owner(r)]) <= 3
    ensures 1 <= Ahead(r, i) <= 3 * (r.s.pc[i].ticket - r.s.owner) + 1
    ensures r.s.pc[i].ticket == r.s.owner <==> Owner(r) == i
  {
    assert Holds(r.s.pc[i]);
    assert !Resetting(r.s);
    assert Holding(r.s, Taker(r, r.s.owner), r.s.owner);
  }

  /** A step of the owner brings thread `i` closer or in. */
  lemma {:induction false} OwnerSteps(r: Run, i: Tid)
    requires Inv(r) && Waits(r, i)
    ensures 0 <= Owner(r) < |r.s.pc|
    ensures var r' := Advance(r, Owner(r));
      r'.s.pc[i].Critical? || (Waits(r', i) && Ahead(r', i) < Ahead(r, i))
  {
    OwnerHolds(r, i);
    var h := Owner(r);
    var r' := Advance(r, h);
    AdvanceKeepsInv(r, h);
    Others(r, h);
    if h != i {
      assert r.s.pc[i] == r'.s.pc[i];
      OwnerHolds(r', i);
      if r.s.pc[h].Release? {
        assert r.s.pc[h].ticket == r.s.owner && r'.s.owner == r.s.owner + 1;
        assert Owner(r') == Taker(r, r.s.owner + 1) && Holding(r.s, Owner(r'), r.s.owner + 1);
        assert !Inside(r.s.pc[Owner(r')]);
        assert r'.s.pc[Owner(r')] == r.s.pc[Owner(r')];
      } else {
        assert Owner(r') == h;
      }
    }
  }

  /** A step of any other thread changes nothing for thread `i`. */
  lemma {:induction false} OthersStep(r: Run, i: Tid, j: Tid)
    requires Inv(r) && Waits(r, i) && j < |r.s.pc| && j != Owner(r)
    ensures var r' := Advance(r, j);
      Waits(r', i) && Ahead(r', i) == Ahead(r, i) && Owner(r') == Owner(r)
  {
    OwnerHolds(r, i);
    var r' := Advance(r, j);
    Others(r, j);
    assert !Inside(r.s.pc[j]) by {
      if Inside(r.s.pc[j]) { InsideIsOwner(r, j); }
    }
    assert !r.s.pc[j].Reset?;
    assert r'.s.owner == r.s.owner;
    assert Holds(r.s.pc[j]) ==> Taker(r, r.s.pc[j].ticket) == j;
    assert Owner(r') == Owner(r);
  }

  // ----- Rounds -----

  /** Each thread that holds a ticket is in the schedule. */
  ghost predicate HoldersMove(r: Run, schedule: seq<Tid>) {
    forall i: Tid :: i < |r.s.pc| && Holds(r.s.pc[i]) ==> i in schedule
  }

  /** In each round every thread that holds a ticket when the round begins moves at least once. */
  ghost predicate Rounds(r: Run, rounds: seq<seq<Tid>>)
    decreases |rounds|
  {
    rounds == [] ||
    (Names(rounds[0], |r.s.pc|) && HoldersMove(r, rounds[0]) && Rounds(Play(r, rounds[0]), rounds[1..]))
  }

  /** The schedule that consists of the rounds. */
  function Joined(rounds: seq<seq<Tid>>): seq<Tid> {
    if rounds == [] then [] else rounds[0] + Joined(rounds[1..])
  }

  /** Thread `i` enters at some point of the schedule. */
  ghost predicate Enters(r: Run, i: Tid, schedule: seq<Tid>)
    requires Names(schedule, |r.s.pc|) && i < |r.s.pc|
  {
    exists m: nat :: m <= |schedule| && EntersAfter(r, i, schedule, m)
  }

  ghost predicate EntersAfter(r: Run, i: Tid, schedule: seq<Tid>, m: nat)
    requires Names(schedule, |r.s.pc|) && i < |r.s.pc| && m <= |schedule|
  {
    Play(r, schedule[..m]).s.pc[i].Critical?
  }

  lemma {:induction false} EntersLater(r: Run, i: Tid, a: seq<Tid>, b: seq<Tid>)
    requires Names(a, |r.s.pc|) && Names(b, |r.s.pc|) && i < |r.s.pc|
    ensures Names(a + b, |r.s.pc|)
    ensures Enters(r, i, a) ==> Enters(r, i, a + b)
    ensures Enters(Play(r, a), i, b) ==> Enters(r, i, a + b)
  {
    if Enters(r, i, a) {
      var m: nat :| m <= |a| && EntersAfter(r, i, a, m);
      assert (a + b)[..m] == a[..m];
      assert EntersAfter(r, i, a + b, m);
    }
    if Enters(Play(r, a), i, b) {
      var m: nat :| m <= |b| && EntersAfter(Play(r, a), i, b, m);
      PlayAppend(r, a, b[..m]);
      assert (a + b)[..|a| + m] == a + b[..m];
      assert EntersAfter(r, i, a + b, |a| + m);
    }
  }

  /** What a thread may still wait for after a part of the schedule. */
  ghost predicate Closer(r: Run, r': Run, i: Tid, d: nat) {
    Waits(r, i) && Inv(r') && Waits(r', i) && Ahead(r', i) + d <= Ahead(r, i)
  }

  lemma {:induction false} OneStep(r: Run, i: Tid, j: Tid)
    requires Inv(r) && Waits(r, i) && j < |r.s.pc|
    ensures Enters(r, i, [j]) || Closer(r, Advance(r, j), i, if j == Owner(r) then 1 else 0)
    ensures Play(r, [j]) == Advance(r, j)
    ensures j != Owner(r) ==> Waits(Advance(r, j), i) && Owner(Advance(r, j)) == Owner(r)
  {
    AdvanceKeepsInv(r, j);
    assert [j][1..] == [] && [j][..1] == [j];
    if j == Owner(r) {
      OwnerSteps(r, i);
      if Advance(r, j).s.pc[i].Critical? { assert EntersAfter(r, i, [j], 1); }
    } else {
      OthersStep(r, i, j);
    }
  }

  /** No schedule moves a waiting thread back. */
  lemma {:induction false} Drift(r: Run, i: Tid, schedule: seq<Tid>)
    requires Inv(r) && Waits(r, i) && Names(schedule, |r.s.pc|)
    ensures Enters(r, i, schedule) || Closer(r, Play(r, schedule), i, 0)
    decreases |schedule|
  {
    if schedule != [] {
      var j, rest := schedule[0], schedule[1..];
      assert schedule == [j] + rest;
      OneStep(r, i, j);
      EntersLater(r, i, [j], rest);
      if !Enters(r, i, [j]) { Drift(Advance(r, j), i, rest); }
    }
  }

  /** A schedule in which the owner moves brings a waiting thread closer. */
  lemma {:induction false} Round(r: Run, i: Tid, schedule: seq<Tid>)
    requires Inv(r) && Waits(r, i) && Names(schedule, |r.s.pc|) && Owner(r) in schedule
    ensures Enters(r, i, schedule) || Closer(r, Play(r, schedule), i, 1)
    decreases |schedule|
  {
    var j, rest := schedule[0], schedule[1..];
    assert schedule == [j] + rest;
    OneStep(r, i, j);
    EntersLater(r, i, [j], rest);
    if !Enters(r, i, [j]) {
      if j == Owner(r) { Drift(Advance(r, j), i, rest); } else { Round(Advance(r, j), i, rest); }
    }
  }

  lemma {:induction false} OwnerMoves(r: Run, i: Tid, schedule: seq<Tid>)
    requires Inv(r) && Waits(r, i)
    ensures 0 <= Owner(r) < |r.s.pc| && Holds(r.s.pc[Owner(r)]) && 1 <= Ahead(r, i)
    ensures HoldersMove(r, schedule) ==> Owner(r) in schedule
  {
    OwnerHolds(r, i);
  }

  lemma {:induction false} CloserIs(r: Run, r': Run, i: Tid)
    requires Closer(r, r', i, 1)
    ensures Inv(r')
    ensures Waits(r, i) && Waits(r', i) && Ahead(r', i) < Ahead(r, i)
  {
  }

  lemma {:induction false} RoundsEnter(r: Run, i: Tid, rounds: seq<seq<Tid>>)
    requires Inv(r)
    requires Waits(r, i) && Ahead(r, i) <= |rounds| && Rounds(r, rounds) && Names(Joined(rounds), |r.s.pc|)
    ensures Enters(r, i, Joined(rounds))
    decreases |rounds|
  {
    OwnerMoves(r, i, []);
    var a, b := rounds[0], rounds[1..];
    OwnerMoves(r, i, a);
    Round(r, i, a);
    LaterNames(a, Joined(b), |r.s.pc|);
    EntersLater(r, i, a, Joined(b));
    if !Enters(r, i, a) {
      var r1 := Play(r, a);
      CloserIs(r, r1, i);
      RoundsEnter(r1, i, b);
    }
  }

  lemma EarlierNames(a: seq<Tid>, b: seq<Tid>, threads: nat)
    requires Names(a + b, threads)
    ensures Names(a, threads)
  {
    forall k | 0 <= k < |a| ensures a[k] < threads { assert (a + b)[k] == a[k]; }
  }

  lemma LaterNames(a: seq<Tid>, b: seq<Tid>, threads: nat)
    requires Names(a + b, threads)
    ensures Names(b, threads)
  {
    forall k | 0 <= k < |b| ensures b[k] < threads { assert (a + b)[|a| + k] == b[k]; }
  }

  /** Three rounds for each ticket before that of thread `i`, and one; no ticket is below the owner's. */
  function Bound(r: Run, i: Tid): nat
    requires i < |r.s.pc| && r.s.pc[i].Spin?
  {
    var t := r.s.pc[i].ticket;
    if t < r.s.owner then 0 else 3 * (t - r.s.owner) + 1
  }

  /** A thread that holds ticket `t` enters within `3 * (t - owner) + 1` rounds of every schedule. */
  lemma {:induction false} HolderEnters(r: Run, i: Tid, rounds: seq<seq<Tid>>, rest: seq<Tid>)
    requires Reachable(r) && Waits(r, i) && Names(Joined(rounds) + rest, |r.s.pc|)
    requires Rounds(r, rounds) && Bound(r, i) <= |rounds|
    ensures Enters(r, i, Joined(rounds) + rest)
  {
    ReachableInv(r);
    OwnerHolds(r, i);
    LaterNames(Joined(rounds), rest, |r.s.pc|);
    EarlierNames(Joined(rounds), rest, |r.s.pc|);
    RoundsEnter(r, i, rounds);
    EntersLater(r, i, Joined(rounds), rest);
  }

  // ----- Endless schedules -----

  /** The moves of an endless schedule from `a` to `b`. */
  function Part(moves: nat -> Tid, a: nat, b: nat): (s: seq<Tid>)
    requires a <= b
    ensures |s| == b - a && forall k :: 0 <= k < |s| ==> s[k] == moves(a + k)
  {
    seq(b - a, k requires 0 <= k < b - a => moves(a + k))
  }

  ghost predicate Endless(moves: nat -> Tid, threads: nat) {
    forall n :: moves(n) < threads
  }

  /** The run after `n` moves. */
  ghost function After(r: Run, moves: nat -> Tid, n: nat): (r': Run)
    requires Endless(moves, |r.s.pc|)
    ensures |r'.s.pc| == |r.s.pc|
  {
    Play(r, Part(moves, 0, n))
  }

  /** Whenever a thread holds a ticket, it moves then or later. */
  ghost predicate Fair(r: Run, moves: nat -> Tid)
    requires Endless(moves, |r.s.pc|)
  {
    forall n: nat, j: Tid :: j < |r.s.pc| && Holds(After(r, moves, n).s.pc[j]) ==> MovesFrom(moves, n, j)
  }

  ghost predicate MovesFrom(moves: nat -> Tid, n: nat, j: Tid) { exists m: nat :: m >= n && moves(m) == j }

  lemma {:induction false} PartAppend(moves: nat -> Tid, n: nat, m: nat)
    requires n <= m
    ensures Part(moves, 0, n) + Part(moves, n, m) == Part(moves, 0, m)
  {
  }

  lemma {:induction false} AfterMore(r: Run, moves: nat -> Tid, n: nat, m: nat)
    requires Endless(moves, |r.s.pc|) && n <= m
    ensures After(r, moves, m) == Play(After(r, moves, n), Part(moves, n, m))
  {
    PartAppend(moves, n, m);
    PlayAppend(r, Part(moves, 0, n), Part(moves, n, m));
  }

  ghost predicate EntersAt(r: Run, i: Tid, moves: nat -> Tid, n: nat)
    requires Endless(moves, |r.s.pc|) && i < |r.s.pc|
  {
    After(r, moves, n).s.pc[i].Critical?
  }

  /** The moves until the owner's bring a waiting thread in or closer. */
  lemma {:induction false} NextTurn(r: Run, i: Tid, moves: nat -> Tid, n: nat, r0: Run) returns (m: nat)
    requires Endless(moves, |r.s.pc|) && i < |r.s.pc| && Fair(r, moves) && r0 == After(r, moves, n)
    requires Inv(r0) && Waits(r0, i)
    ensures EntersAt(r, i, moves, m) || Closer(r0, After(r, moves, m), i, 1)
  {
    OwnerMoves(r0, i, []);
    m := TurnOf(moves, n, Owner(r0));
    Round(r0, i, Part(moves, n, m));
    AfterMore(r, moves, n, m);
    if Enters(r0, i, Part(moves, n, m)) { m := EntryWithin(r, i, moves, n, m, r0); }
  }

  lemma {:induction false} TurnOf(moves: nat -> Tid, n: nat, j: Tid) returns (m: nat)
    requires MovesFrom(moves, n, j)
    ensures m >= n && j in Part(moves, n, m)
  {
    var k: nat :| k >= n && moves(k) == j;
    m := k + 1;
    assert Part(moves, n, m)[k - n] == j;
  }

  lemma {:induction false} PartPrefix(moves: nat -> Tid, n: nat, m: nat, k: nat)
    requires n <= m && k <= m - n
    ensures Part(moves, n, m)[..k] == Part(moves, n, n + k)
  {
  }

  lemma {:induction false} EntryWithin(r: Run, i: Tid, moves: nat -> Tid, n: nat, end: nat, r0: Run)
      returns (m: nat)
    requires Endless(moves, |r.s.pc|) && i < |r.s.pc| && n <= end && r0 == After(r, moves, n)
    requires Enters(r0, i, Part(moves, n, end))
    ensures EntersAt(r, i, moves, m)
  {
    var k: nat :| k <= end - n && EntersAfter(r0, i, Part(moves, n, end), k);
    PartPrefix(moves, n, end, k);
    m := n + k;
    AfterMore(r, moves, n, m);
  }

  lemma {:induction false} EntersFrom(r: Run, i: Tid, moves: nat -> Tid, n: nat, r0: Run) returns (m: nat)
    requires Endless(moves, |r.s.pc|) && i < |r.s.pc| && Fair(r, moves) && r0 == After(r, moves, n)
    requires Inv(r0)
    requires Waits(r0, i)
    ensures EntersAt(r, i, moves, m)
    decreases Ahead(r0, i)
  {
    m := NextTurn(r, i, moves, n, r0);
    if !EntersAt(r, i, moves, m) {
      OwnerMoves(r0, i, []);
      var r1 := After(r, moves, m);
      m := EntersFrom(r, i, moves, m, r1);
    }
  }

  /** In every endless schedule in which threads that hold tickets keep moving, a waiting thread
      enters. */
  lemma {:induction false} FairEnters(r: Run, i: Tid, moves: nat -> Tid)
    requires Reachable(r) && Waits(r, i) && Endless(moves, |r.s.pc|) && Fair(r, moves)
    ensures exists n: nat :: EntersAt(r, i, moves, n)
  {
    ReachableInv(r);
    assert Part(moves, 0, 0) == [] && After(r, moves, 0) == r;
    var n := EntersFrom(r, i, moves, 0, r);
  }
}
