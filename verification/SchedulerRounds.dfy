/**
 What the main loop of the scheduler does next: the reads of a round follow from what the channels
 deliver, a round without a message leads to a dequeue, and a failing callback ends the loop.  When
 the channels fall silent, every message is dispatched.
 */
module SchedulerRounds {
  import opened Wrappers
  import PrioBitmap
  import opened Npfp
  import opened SchedulerRun

  // ----- A round of reads -----

  /** Channel `fd` delivers exactly `k` packets, from read number `t` on. */
  ghost predicate Delivers<P>(c: Config<P>, fd: int, t: nat, k: nat) {
    (forall j :: t <= j < t + k ==> c.read(fd, j).Packet?) && c.read(fd, t + k).WouldBlock?
  }

  /** The channels from `ch` on deliver `ns` packets, one channel read after the other. */
  ghost predicate DeliverAll<P>(c: Config<P>, ch: nat, t: nat, ns: seq<nat>)
    decreases |ns|
  {
    ch + |ns| == |c.channels| &&
    (ns == [] || (Delivers(c, c.channels[ch], t, ns[0]) && DeliverAll(c, ch + 1, t + ns[0] + 1, ns[1..])))
  }

  /** The reads of one channel until it would block, and those of all channels from `ch` on. */
  function ChannelReads<P>(c: Config<P>, fd: int, t: nat, k: nat): (es: seq<Event<P>>)
    ensures |es| == k + 1
    decreases k
  {
    [Read(fd, t, c.read(fd, t))] + if k == 0 then [] else ChannelReads(c, fd, t + 1, k - 1)
  }

  function RoundReads<P>(c: Config<P>, ch: nat, t: nat, ns: seq<nat>): seq<Event<P>>
    requires ch + |ns| == |c.channels|
    decreases |ns|
  {
    if ns == [] then []
    else ChannelReads(c, c.channels[ch], t, ns[0]) + RoundReads(c, ch + 1, t + ns[0] + 1, ns[1..])
  }

  ghost predicate AnyPacket(ns: seq<nat>) { exists i :: 0 <= i < |ns| && ns[i] > 0 }

  /** The state after `k` steps from `s`. */
  function After<P(==)>(c: Config<P>, s: State<P>, k: nat): (s': State<P>)
    requires |s.queues| == PrioBitmap.NUM_PRIORITIES
    ensures |s'.queues| == PrioBitmap.NUM_PRIORITIES
    decreases k
  {
    if k == 0 then s else After(c, Step(c, s), k - 1)
  }

  lemma {:induction false} AfterMore<P>(c: Config<P>, s: State<P>, a: nat, b: nat)
    requires |s.queues| == PrioBitmap.NUM_PRIORITIES
    ensures After(c, s, a + b) == After(c, After(c, s, a), b)
    decreases a
  {
    if a > 0 { AfterMore(c, Step(c, s), a - 1, b); }
  }

  lemma {:induction false} RunAfter<P>(c: Config<P>, n: nat, k: nat)
    ensures Run(c, n + k) == After(c, Run(c, n), k)
    decreases k
  {
    if k > 0 {
      RunAfter(c, n + 1, k - 1);
      assert n + 1 + (k - 1) == n + k;
      AfterOne(c, Run(c, n), Run(c, n + 1), k - 1);
    }
  }

  ghost predicate AtChannel<P>(c: Config<P>, s: State<P>) {
    |s.queues| == PrioBitmap.NUM_PRIORITIES && s.pc.Reading? && s.pc.ch < |c.channels|
  }

  /** One read: a packet is followed by another read of the channel. */
  lemma {:induction false} OneRead<P>(c: Config<P>, s: State<P>)
    requires AtChannel(c, s)
    ensures var r, s' := c.read(c.channels[s.pc.ch], s.t), Step(c, s);
      && s'.t == s.t + 1 && s'.trace == s.trace + [Read(c.channels[s.pc.ch], s.t, r)]
      && s'.pc == match r
                  case Packet(_) => Reading(s.pc.ch, true, s.pc.flag)
                  case WouldBlock => NextPc(c, s.pc.ch, s.pc.flag || s.pc.nonEmpty)
                  case Failed(_) => Dequeueing
  {
  }

  /** The next channel, or at the last one another round if there was a packet and a dequeue if not. */
  function NextPc<P>(c: Config<P>, ch: nat, any: bool): Pc {
    if ch + 1 != |c.channels| then Reading(ch + 1, false, any) else if any then Reading(0, false, false) else Dequeueing
  }

  /** State `s'` is where reading a channel from `s` on until it would block leads. */
  ghost predicate Drained<P>(c: Config<P>, s: State<P>, k: nat, s': State<P>) {
    && AtChannel(c, s)
    && s'.t == s.t + k + 1
    && s'.trace == s.trace + ChannelReads(c, c.channels[s.pc.ch], s.t, k)
    && s'.pc == NextPc(c, s.pc.ch, s.pc.flag || s.pc.nonEmpty || k > 0)
  }

  lemma {:induction false} Regroup<T>(a: seq<T>, b: seq<T>, c: seq<T>)
    ensures a + b + c == a + (b + c)
  {
  }

  lemma {:induction false} DrainedMore<P>(c: Config<P>, s: State<P>, s1: State<P>, k: nat, s': State<P>)
    requires AtChannel(c, s) && k > 0 && Drained(c, s1, k - 1, s') && s1.pc == Reading(s.pc.ch, true, s.pc.flag)
    requires var fd := c.channels[s.pc.ch];
      s1.t == s.t + 1 && s1.trace == s.trace + [Read(fd, s.t, c.read(fd, s.t))]
    ensures Drained(c, s, k, s')
  {
    var fd := c.channels[s.pc.ch];
    var e, more := Read(fd, s.t, c.read(fd, s.t)), ChannelReads(c, fd, s1.t, k - 1);
    assert ChannelReads(c, fd, s.t, k) == [e] + more;
    Regroup(s.trace, [e], more);
  }

  /** Reading one channel until it would block. */
  lemma {:induction false} ChannelAfter<P>(c: Config<P>, s: State<P>, k: nat)
    requires AtChannel(c, s) && Delivers(c, c.channels[s.pc.ch], s.t, k)
    ensures Drained(c, s, k, After(c, s, k + 1))
    decreases k
  {
    OneRead(c, s);
    var s1 := Step(c, s);
    AfterOne(c, s, s1, k);
    if k > 0 {
      ChannelAfter(c, s1, k - 1);
      DrainedMore(c, s, s1, k, After(c, s1, k));
    }
  }

  lemma {:induction false} AfterOne<P>(c: Config<P>, s: State<P>, s1: State<P>, k: nat)
    requires |s.queues| == PrioBitmap.NUM_PRIORITIES && s1 == Step(c, s)
    ensures After(c, s, k + 1) == After(c, s1, k) && After(c, s1, 0) == s1
  {
  }

  lemma {:induction false} AnyStep(ns: seq<nat>)
    requires ns != []
    ensures AnyPacket(ns) <==> ns[0] > 0 || AnyPacket(ns[1..])
  {
    if AnyPacket(ns[1..]) {
      var i :| 0 <= i < |ns[1..]| && ns[1..][i] > 0;
      assert ns[i + 1] > 0;
    }
    if AnyPacket(ns) {
      var i :| 0 <= i < |ns| && ns[i] > 0;
      assert i > 0 ==> ns[1..][i - 1] > 0;
    }
  }

  /** State `s'` is where reading all channels from the one at `s` on leads. */
  ghost predicate Polled<P>(c: Config<P>, s: State<P>, ns: seq<nat>, s': State<P>) {
    && AtChannel(c, s) && s.pc.ch + |ns| == |c.channels|
    && s'.trace == s.trace + RoundReads(c, s.pc.ch, s.t, ns)
    && s'.pc == if s.pc.flag || AnyPacket(ns) then Reading(0, false, false) else Dequeueing
  }

  lemma {:induction false} PolledMore<P>(c: Config<P>, s: State<P>, s1: State<P>, ns: seq<nat>, s': State<P>)
    requires ns != [] && AtChannel(c, s) && s.pc.ch + |ns| == |c.channels| && !s.pc.nonEmpty
    requires Drained(c, s, ns[0], s1)
    requires if |ns| > 1 then Polled(c, s1, ns[1..], s') else s' == s1
    ensures Polled(c, s, ns, s')
  {
    AnyStep(ns);
    var fd := c.channels[s.pc.ch];
    assert RoundReads(c, s.pc.ch, s.t, ns) ==
      ChannelReads(c, fd, s.t, ns[0]) + RoundReads(c, s.pc.ch + 1, s1.t, ns[1..]);
    Regroup(s.trace, ChannelReads(c, fd, s.t, ns[0]), RoundReads(c, s.pc.ch + 1, s1.t, ns[1..]));
    if |ns| == 1 { assert ns[1..] == []; }
  }

  lemma {:induction false} ChannelsAfter<P>(c: Config<P>, s: State<P>, ns: seq<nat>)
    requires AtChannel(c, s) && !s.pc.nonEmpty && ns != [] && DeliverAll(c, s.pc.ch, s.t, ns)
    ensures Polled(c, s, ns, After(c, s, |RoundReads(c, s.pc.ch, s.t, ns)|))
    decreases |ns|
  {
    ChannelAfter(c, s, ns[0]);
    var s1 := After(c, s, ns[0] + 1);
    if |ns| > 1 {
      ChannelsAfter(c, s1, ns[1..]);
      AfterMore(c, s, ns[0] + 1, |RoundReads(c, s1.pc.ch, s1.t, ns[1..])|);
      PolledMore(c, s, s1, ns, After(c, s1, |RoundReads(c, s1.pc.ch, s1.t, ns[1..])|));
    } else {
      PolledMore(c, s, s1, ns, s1);
    }
  }

  /** A round in which the channels deliver `ns` packets reads exactly these, and is followed by
      another round if there was one and by a dequeue if there was none. */
  lemma {:induction false} RoundRun<P>(c: Config<P>, n: nat, ns: seq<nat>)
    requires Run(c, n).pc == Reading(0, false, false) && |c.channels| > 0 && DeliverAll(c, 0, Run(c, n).t, ns)
    ensures var s, es := Run(c, n), RoundReads(c, 0, Run(c, n).t, ns); var s' := Run(c, n + |es|);
      s'.trace == s.trace + es && s'.pc == if AnyPacket(ns) then Reading(0, false, false) else Dequeueing
  {
    ChannelsAfter(c, Run(c, n), ns);
    RunAfter(c, n, |RoundReads(c, 0, Run(c, n).t, ns)|);
  }

  /** A read that fails for another reason is followed by a dequeue. */
  lemma {:induction false} FailureDequeues<P>(c: Config<P>, n: nat)
    requires var s := Run(c, n); s.pc.Reading? && s.pc.ch < |c.channels| && c.read(c.channels[s.pc.ch], s.t).Failed?
    ensures Run(c, n + 1).pc == Dequeueing
  {
  }

  // ----- After a dequeue -----

  /** The last event is the dispatch of a message whose callback failed. */
  ghost predicate Failing<P>(c: Config<P>, trace: seq<Event<P>>) {
    trace != [] && trace[|trace| - 1].Dispatched? && c.callback(trace[|trace| - 1].msg.data) != 0
  }

  /** The loop has ended exactly when the callback of the last dispatched message has failed, and its
      result is that of the callback. */
  lemma {:induction false} StopsOnFailure<P>(c: Config<P>, n: nat)
    ensures var s := Run(c, n);
      && (s.pc.Stopped? <==> Failing(c, s.trace))
      && (s.pc.Stopped? ==> s.pc.err == c.callback(s.trace[|s.trace| - 1].msg.data))
    decreases n
  {
    if n > 0 { StopsOnFailure(c, n - 1); }
  }

  /** After a dequeue that does not end the loop a new round begins. */
  lemma {:induction false} DequeueGoesOn<P>(c: Config<P>, n: nat)
    requires Run(c, n).pc == Dequeueing
    ensures !Failing(c, Run(c, n + 1).trace) ==> Run(c, n + 1).pc == Reading(0, false, false)
  {
  }

  // ----- Every message is dispatched -----

  /** From read number `t` on no channel delivers anything, and all callbacks succeed. */
  ghost predicate Silent<P(!new)>(c: Config<P>, t: nat) {
    (forall fd, j :: j >= t ==> c.read(fd, j).WouldBlock?) && forall x :: c.callback(x) == 0
  }

  lemma {:induction false} NotStopped<P(!new)>(c: Config<P>, t: nat, n: nat)
    requires Silent(c, t) && |c.channels| > 0
    ensures !Run(c, n).pc.Stopped? && (Run(c, n).pc.Reading? ==> AtChannel(c, Run(c, n)))
  {
    StopsOnFailure(c, n);
    RunPolls(c, n);
  }

  lemma {:induction false} TraceGrows<P>(c: Config<P>, n: nat, m: nat)
    requires n <= m
    ensures Run(c, n).trace <= Run(c, m).trace
    decreases m
  {
    if n < m { TraceGrows(c, n, m - 1); }
  }

  /** Reads go on until any number of them. */
  lemma {:induction false} ReadsGoOn<P(!new)>(c: Config<P>, t: nat, n: nat) returns (m: nat)
    requires Silent(c, t) && |c.channels| > 0
    ensures m >= n && Run(c, m).t >= t
    decreases if t > Run(c, n).t then t - Run(c, n).t else 0, if Run(c, n).pc.Dequeueing? then 1 else 0
  {
    if Run(c, n).t >= t { return n; }
    NotStopped(c, t, n);
    if Run(c, n).pc.Reading? {
      OneRead(c, Run(c, n));
    } else {
      StopsOnFailure(c, n + 1);
      DequeueGoesOn(c, n);
      DequeueKeepsTime(c, n);
    }
    m := ReadsGoOn(c, t, n + 1);
  }

  lemma {:induction false} DequeueKeepsTime<P>(c: Config<P>, n: nat)
    requires Run(c, n).pc == Dequeueing
    ensures Run(c, n + 1).t == Run(c, n).t
  {
  }

  /** The reads until the next dequeue: the rest of this round and, after a message, one more. */
  function Ahead<P>(c: Config<P>, pc: Pc): nat {
    if !pc.Reading? || pc.ch > |c.channels| then 0
    else |c.channels| - pc.ch + if pc.flag || pc.nonEmpty then |c.channels| else 0
  }

  lemma {:induction false} QuietRead<P(!new)>(c: Config<P>, t: nat, n: nat)
    requires Silent(c, t) && |c.channels| > 0 && Run(c, n).t >= t && Run(c, n).pc.Reading?
    ensures Waiting(Run(c, n + 1).trace) == Waiting(Run(c, n).trace) && Run(c, n + 1).t >= t
    ensures Ahead(c, Run(c, n + 1).pc) < Ahead(c, Run(c, n).pc)
  {
    NotStopped(c, t, n);
    var s := Run(c, n);
    OneRead(c, s);
    assert Run(c, n + 1).trace[..|s.trace|] == s.trace;
  }

  lemma {:induction false} QuietDequeues<P(!new)>(c: Config<P>, t: nat, n: nat) returns (m: nat)
    requires Silent(c, t) && |c.channels| > 0 && Run(c, n).t >= t
    ensures m >= n && Run(c, m).t >= t && Run(c, m).pc == Dequeueing
    ensures Waiting(Run(c, m).trace) == Waiting(Run(c, n).trace)
    decreases Ahead(c, Run(c, n).pc)
  {
    NotStopped(c, t, n);
    m := n;
    if Run(c, n).pc.Reading? {
      QuietRead(c, t, n);
      m := QuietDequeues(c, t, n + 1);
    }
  }

  lemma {:induction false} WaitingDispatched<P(!new)>(c: Config<P>, t: nat, n: nat, m: Msg<P>, w: set<Msg<P>>)
      returns (n': nat)
    requires Silent(c, t) && |c.channels| > 0 && Run(c, n).t >= t && w == Waiting(Run(c, n).trace) && m in w
    ensures n' >= n && WasDispatched(Run(c, n').trace, m)
    decreases |w|
  {
    var x;
    n', x := NextDispatched(c, t, n, w);
    if x != m {
      Smaller(w, x);
      n' := WaitingDispatched(c, t, n', m, w - {x});
    }
  }

  lemma {:induction false} NextDispatched<P(!new)>(c: Config<P>, t: nat, n: nat, w: set<Msg<P>>)
      returns (n': nat, m: Msg<P>)
    requires Silent(c, t) && |c.channels| > 0 && Run(c, n).t >= t && w == Waiting(Run(c, n).trace) && w != {}
    ensures n' >= n && Run(c, n').t >= t && m in w && Waiting(Run(c, n').trace) == w - {m}
    ensures WasDispatched(Run(c, n').trace, m)
  {
    var k := QuietDequeues(c, t, n);
    n', m := OneDispatched(c, k, w);
  }

  lemma {:induction false} Smaller<T>(w: set<T>, x: T)
    requires x in w
    ensures |w - {x}| < |w|
  {
    assert w == w - {x} + {x};
  }

  lemma {:induction false} OneDispatched<P(!new)>(c: Config<P>, n: nat, w: set<Msg<P>>)
      returns (n': nat, m: Msg<P>)
    requires Run(c, n).pc == Dequeueing && w == Waiting(Run(c, n).trace) && w != {}
    ensures n' >= n && m in w && Waiting(Run(c, n').trace) == w - {m}
    ensures WasDispatched(Run(c, n').trace, m) && Run(c, n').t == Run(c, n).t
  {
    n' := n + 1;
    DequeueKeepsTime(c, n);
    m := FirstDispatched(c, n);
    DispatchTrace(Run(c, n).trace, Run(c, n').trace, m);
  }

  lemma {:induction false} FirstDispatched<P(!new)>(c: Config<P>, n: nat) returns (m: Msg<P>)
    requires Run(c, n).pc == Dequeueing && Waiting(Run(c, n).trace) != {}
    ensures m in Waiting(Run(c, n).trace) && Run(c, n + 1).trace == Run(c, n).trace + [Dispatched(m)]
  {
    DispatchesFirst(c, n);
    TraceGrows(c, n, n + 1);
    m := Run(c, n + 1).trace[|Run(c, n).trace|].msg;
  }

  lemma {:induction false} DispatchTrace<P>(trace: seq<Event<P>>, trace': seq<Event<P>>, m: Msg<P>)
    requires trace' == trace + [Dispatched(m)]
    ensures Waiting(trace') == Waiting(trace) - {m} && WasDispatched(trace', m)
  {
    assert trace'[|trace|] == Dispatched(m) && trace'[..|trace|] == trace;
  }

  /** If the channels fall silent and callbacks succeed, every message that is waiting at any time is
      dispatched. */
  lemma {:induction false} EveryMessageDispatched<P(!new)>(c: Config<P>, t: nat, n: nat, m: Msg<P>)
    requires Silent(c, t) && |c.channels| > 0 && m in Waiting(Run(c, n).trace)
    ensures exists n' :: n' >= n && WasDispatched(Run(c, n').trace, m)
  {
    var k := ReadsGoOn(c, t, n);
    TraceGrows(c, n, k);
    NothingLost(c, n);
    NothingLost(c, k);
    var i, fd :| 0 <= i < |Run(c, n).trace| && Run(c, n).trace[i] == Read(fd, m.id, Packet(m.data));
    assert Run(c, k).trace[i] == Read(fd, m.id, Packet(m.data));
    if !WasDispatched(Run(c, k).trace, m) { var n' := WaitingDispatched(c, t, k, m, Waiting(Run(c, k).trace)); }
  }
}
