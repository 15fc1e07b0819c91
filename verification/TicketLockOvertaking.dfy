/**
 A thread that asks for the lock need not get a ticket: another thread can win every
 compare-exchange, over any number of rounds in which both threads move.
 */
module TicketLockOvertaking {
  import opened TicketLock
  import TicketLockProgress

  /** Thread `i` holds no ticket at any point of the schedule. */
  ghost predicate WithoutTicket(r: Run, i: Tid, schedule: seq<Tid>)
    requires Names(schedule, |r.s.pc|) && i < |r.s.pc|
    decreases |schedule|
  {
    !Holds(r.s.pc[i]) && (schedule == [] || WithoutTicket(Advance(r, schedule[0]), i, schedule[1..]))
  }

  /** Thread 0 is about to read `next`, thread 1 is outside the lock and no ticket is out. */
  function Ready(t: nat): State { State(t, t, [LoadNext, Idle]) }

  /** Thread 0 loads `next`, thread 1 takes the ticket, thread 0 fails to take it, and thread 1 enters
      and releases the lock. */
  function Lap(t: nat): seq<Tid> { if t == LAST_TICKET then [0, 1, 1, 1, 0, 1, 1, 1, 1] else [0, 1, 1, 1, 0, 1, 1, 1] }

  function After(t: nat): nat { if t == LAST_TICKET then 0 else t + 1 }

  /** The state after a part of a lap is `s`, and thread 0 had no ticket until then. */
  ghost predicate Passes(r: Run, schedule: seq<Tid>, s: State) {
    && |r.s.pc| == |s.pc| == 2 && Names(schedule, 2) && Play(r, schedule).s == s && WithoutTicket(r, 0, schedule)
  }

  lemma {:induction false} PassesMore(r: Run, a: seq<Tid>, s: State, i: Tid)
    requires Passes(r, a, s) && i < 2 && !Holds(Step(s, i).pc[0])
    ensures Passes(r, a + [i], Step(s, i))
    decreases |a|
  {
    if a == [] {
      assert [i][1..] == [] && a + [i] == [i];
      assert Advance(r, i).s == Step(s, i);
    } else {
      assert (a + [i])[1..] == a[1..] + [i] && (a + [i])[0] == a[0];
      PassesMore(Advance(r, a[0]), a[1..], s, i);
    }
  }

  lemma {:induction false} PassesJoin(r: Run, a: seq<Tid>, s: State, b: seq<Tid>, s': State)
    requires Passes(r, a, s) && Passes(Play(r, a), b, s')
    ensures Passes(r, a + b, s')
    decreases |a|
  {
    if a == [] {
      assert a + b == b;
    } else {
      assert (a + b)[1..] == a[1..] + b && (a + b)[0] == a[0];
      PassesJoin(Advance(r, a[0]), a[1..], s, b, s');
    }
  }

  /** The first half of a lap: thread 1 takes the ticket that thread 0 has read. */
  lemma {:induction false} Overtakes(r: Run, t: nat)
    requires r.s == Ready(t) && t <= LAST_TICKET
    ensures Passes(r, [0, 1, 1, 1, 0], State(t, t + 1, [LoadNext, Spin(t)]))
  {
    assert Passes(r, [], Ready(t));
    PassesMore(r, [], Ready(t), 0);
    var s := State(t, t, [Exchange(t), Idle]);
    assert Step(Ready(t), 0) == s && [] + [0] == [0];
    PassesMore(r, [0], s, 1);
    s := State(t, t, [Exchange(t), LoadNext]);
    assert [0] + [1] == [0, 1];
    PassesMore(r, [0, 1], s, 1);
    s := State(t, t, [Exchange(t), Exchange(t)]);
    assert [0, 1] + [1] == [0, 1, 1];
    PassesMore(r, [0, 1, 1], s, 1);
    s := State(t, t + 1, [Exchange(t), Spin(t)]);
    assert [0, 1, 1] + [1] == [0, 1, 1, 1];
    PassesMore(r, [0, 1, 1, 1], s, 0);
    assert [0, 1, 1, 1] + [0] == [0, 1, 1, 1, 0];
  }

  /** The second half: thread 1 enters and leaves, and resets the dispenser with the last ticket. */
  lemma {:induction false} LapPasses(r: Run, t: nat)
    requires r.s == Ready(t) && t <= LAST_TICKET
    ensures Passes(r, Lap(t), Ready(After(t)))
  {
    Overtakes(r, t);
    var a := [0, 1, 1, 1, 0];
    PassesMore(r, a, State(t, t + 1, [LoadNext, Spin(t)]), 1);
    PassesMore(r, a + [1], State(t, t + 1, [LoadNext, Critical(t)]), 1);
    var s := State(t, t + 1, [LoadNext, Release(t)]);
    PassesMore(r, a + [1] + [1], s, 1);
    assert a + [1] + [1] + [1] == [0, 1, 1, 1, 0, 1, 1, 1];
    if t == LAST_TICKET {
      PassesMore(r, a + [1] + [1] + [1], State(0, t + 1, [LoadNext, Reset]), 1);
      assert a + [1] + [1] + [1] + [1] == Lap(t);
    }
  }

  function Laps(t: nat, k: nat): (laps: seq<seq<Tid>>)
    ensures |laps| == k && forall n :: 0 <= n < k ==> 0 in laps[n] && 1 in laps[n]
    decreases k
  {
    if k == 0 then [] else [Lap(t)] + Laps(After(t), k - 1)
  }

  lemma {:induction false} LapsPass(r: Run, t: nat, k: nat) returns (t': nat)
    requires r.s == Ready(t) && t <= LAST_TICKET
    ensures Passes(r, TicketLockProgress.Joined(Laps(t, k)), Ready(t'))
    decreases k
  {
    if k == 0 {
      t' := t;
    } else {
      LapPasses(r, t);
      var laps := Laps(t, k);
      assert laps[0] == Lap(t) && laps[1..] == Laps(After(t), k - 1);
      t' := LapsPass(Play(r, Lap(t)), After(t), k - 1);
      PassesJoin(r, Lap(t), Ready(After(t)), TicketLockProgress.Joined(laps[1..]), Ready(t'));
    }
  }

  /** For every number of rounds there is a schedule of two threads that both move in each round, and
      thread 0, which asks for the lock all the time, never gets a ticket. */
  lemma {:induction false} NoBoundWithoutTicket(k: nat)
    ensures var r := Play(Start(2), [0]);
      exists rounds: seq<seq<Tid>> ::
        && |rounds| == k && (forall n :: 0 <= n < k ==> 0 in rounds[n] && 1 in rounds[n])
        && r.s.pc[0].LoadNext? && Names(TicketLockProgress.Joined(rounds), |r.s.pc|)
        && WithoutTicket(r, 0, TicketLockProgress.Joined(rounds))
  {
    var r := Play(Start(2), [0]);
    assert [0][1..] == [] && r.s == Ready(0);
    var t := LapsPass(r, 0, k);
    assert Passes(r, TicketLockProgress.Joined(Laps(0, k)), Ready(t));
  }
}
