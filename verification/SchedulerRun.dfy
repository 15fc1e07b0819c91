/**
 The main loop of the scheduler as a sequence of steps, one for each read and each dispatch.  The
 outcome of every read is given in advance as a function of the channel and the number of the read.
 */
module SchedulerRun {
  import opened Wrappers
  import PrioBitmap
  import opened Npfp

  datatype ReadResult<P> = Packet(data: P) | WouldBlock | Failed(errno: int)

  /** A message, identified by the number of the read that received it. */
  datatype Msg<P> = Msg(id: nat, data: P)

  datatype Config<!P> = Config(channels: seq<int>, read: (int, nat) -> ReadResult<P>, identify: P -> MessageType,
                               prio: MessageType -> Priority, callback: P -> int)

  datatype Event<P> = Read(fd: int, t: nat, r: ReadResult<P>) | Dispatched(msg: Msg<P>) | Idle

  /** Where the loop is: at a read of channel `ch`, where `nonEmpty` tells whether this channel and
      `flag` whether an earlier one of this round has had a message; at the dequeue; or ended by a
      callback. */
  datatype Pc = Reading(ch: nat, nonEmpty: bool, flag: bool) | Dequeueing | Stopped(err: int)

  datatype State<P> = State(pc: Pc, t: nat, queues: seq<seq<Msg<P>>>, trace: seq<Event<P>>)

  function PrioOf<P>(c: Config<P>, m: Msg<P>): Priority { c.prio(c.identify(m.data)) }

  const ROUND: Pc := Reading(0, false, false)

  /** Where the loop goes on when a channel has nothing more to read. */
  function AfterChannel<P>(c: Config<P>, ch: nat, flag: bool): Pc {
    if ch + 1 < |c.channels| then Reading(ch + 1, false, flag) else if flag then ROUND else Dequeueing
  }

  function Step<P(==)>(c: Config<P>, s: State<P>): State<P>
    requires |s.queues| == PrioBitmap.NUM_PRIORITIES
  {
    match s.pc
    case Stopped(_) => s
    case Reading(ch, nonEmpty, flag) =>
      if ch >= |c.channels| then s
      else
        var fd := c.channels[ch];
        var r := c.read(fd, s.t);
        var trace := s.trace + [Read(fd, s.t, r)];
        (match r
         case Packet(data) =>
           var m := Msg(s.t, data);
           State(Reading(ch, true, flag), s.t + 1, Enqueued(s.queues, PrioOf(c, m), m), trace)
         case WouldBlock => State(AfterChannel(c, ch, flag || nonEmpty), s.t + 1, s.queues, trace)
         case Failed(_) => State(Dequeueing, s.t + 1, s.queues, trace))
    case Dequeueing =>
      match Next(s.queues)
      case None => State(ROUND, s.t, s.queues, s.trace + [Idle])
      case Some(m) =>
        var err := c.callback(m.data);
        State(if err != 0 then Stopped(err) else ROUND, s.t, Dequeued(s.queues), s.trace + [Dispatched(m)])
  }

  /** The state after `n` steps of a run. */
  function Run<P(==)>(c: Config<P>, n: nat): (s: State<P>)
    ensures |s.queues| == PrioBitmap.NUM_PRIORITIES
  {
    if n == 0 then State(ROUND, 0, seq(PrioBitmap.NUM_PRIORITIES, _ => []), []) else Step(c, Run(c, n - 1))
  }

  /** The messages that have been read and not yet dispatched. */
  ghost function Waiting<P>(trace: seq<Event<P>>): set<Msg<P>> {
    if trace == [] then {}
    else
      var rest := Waiting(trace[..|trace| - 1]);
      match trace[|trace| - 1]
      case Read(_, t, Packet(data)) => rest + {Msg(t, data)}
      case Read(_, _, _) => rest
      case Dispatched(m) => rest - {m}
      case Idle => rest
  }

  /** The last `k` events are reads of the first `k` channels that found nothing. */
  ghost predicate FoundEmpty<P>(c: Config<P>, trace: seq<Event<P>>, k: nat) {
    && k <= |c.channels| && k <= |trace|
    && forall i :: 0 <= i < k ==> EmptyRead(trace[|trace| - k + i], c.channels[i])
  }

  ghost predicate EmptyRead<P>(e: Event<P>, fd: int) { e.Read? && e.fd == fd && e.r.WouldBlock? }

  ghost predicate LastFailed<P>(trace: seq<Event<P>>) {
    trace != [] && trace[|trace| - 1].Read? && trace[|trace| - 1].r.Failed?
  }

  // ----- The queues -----

  ghost predicate Ordered<P>(q: seq<Msg<P>>) {
    forall i, j :: 0 <= i < j < |q| ==> q[i].id < q[j].id
  }

  ghost predicate QueueOk<P>(c: Config<P>, q: seq<Msg<P>>, p: nat, t: nat) {
    Ordered(q) && forall i :: 0 <= i < |q| ==> PrioOf(c, q[i]) == p && q[i].id < t
  }

  /** Each queue holds the waiting messages of its priority in the order of their reads. */
  ghost predicate QueuesOk<P(!new)>(c: Config<P>, s: State<P>) {
    && |s.queues| == PrioBitmap.NUM_PRIORITIES
    && (forall p :: 0 <= p < PrioBitmap.NUM_PRIORITIES ==> QueueOk(c, s.queues[p], p, s.t))
    && (forall m :: m in Waiting(s.trace) <==> m in s.queues[PrioOf(c, m)])
  }

  lemma {:induction false} EnqueueOk<P(!new)>(c: Config<P>, s: State<P>, s': State<P>, fd: int, data: P)
    requires QueuesOk(c, s)
    requires var m := Msg(s.t, data);
      s'.t == s.t + 1 && s'.queues == Enqueued(s.queues, PrioOf(c, m), m)
        && s'.trace == s.trace + [Read(fd, s.t, Packet(data))]
    ensures QueuesOk(c, s')
  {
    var m := Msg(s.t, data);
    assert s'.trace[..|s'.trace| - 1] == s.trace;
    assert Waiting(s'.trace) == Waiting(s.trace) + {m};
    forall p | 0 <= p < PrioBitmap.NUM_PRIORITIES ensures QueueOk(c, s'.queues[p], p, s'.t) {
      assert QueueOk(c, s.queues[p], p, s.t);
    }
  }

  lemma {:induction false} DequeueOk<P(!new)>(c: Config<P>, s: State<P>, s': State<P>)
    requires QueuesOk(c, s) && Next(s.queues).Some?
    requires s'.t == s.t && s'.queues == Dequeued(s.queues) && s'.trace == s.trace + [Dispatched(Next(s.queues).value)]
    ensures QueuesOk(c, s')
  {
    var m, top := Next(s.queues).value, TopFrom(s.queues, 0);
    assert s'.trace[..|s'.trace| - 1] == s.trace;
    assert Waiting(s'.trace) == Waiting(s.trace) - {m};
    assert QueueOk(c, s.queues[top], top, s.t);
    RestOk(c, s.queues[top], top, s.t);
    forall p | 0 <= p < PrioBitmap.NUM_PRIORITIES ensures QueueOk(c, s'.queues[p], p, s'.t) {
      assert QueueOk(c, s.queues[p], p, s.t);
    }
    forall x: Msg<P> ensures x in Waiting(s'.trace) <==> x in s'.queues[PrioOf(c, x)] {
      assert x in Waiting(s.trace) <==> x in s.queues[PrioOf(c, x)];
    }
  }

  /** A queue without its first message. */
  lemma {:induction false} RestOk<P(!new)>(c: Config<P>, q: seq<Msg<P>>, p: nat, t: nat)
    requires QueueOk(c, q, p, t) && q != []
    ensures PrioOf(c, q[0]) == p && QueueOk(c, q[1..], p, t)
    ensures forall x :: x in q[1..] <==> x in q && x != q[0]
  {
    forall x ensures x in q[1..] <==> x in q && x != q[0] {
      if x in q[1..] {
        var i :| 0 <= i < |q[1..]| && q[1..][i] == x;
        assert q[0].id < q[i + 1].id;
      }
    }
  }

  lemma {:induction false} QuietOk<P(!new)>(c: Config<P>, s: State<P>, s': State<P>, e: Event<P>)
    requires QueuesOk(c, s) && s.t <= s'.t && s'.queues == s.queues && s'.trace == s.trace + [e]
    requires e.Idle? || (e.Read? && !e.r.Packet?)
    ensures QueuesOk(c, s')
  {
    assert s'.trace[..|s'.trace| - 1] == s.trace;
    assert Waiting(s'.trace) == Waiting(s.trace);
    forall p | 0 <= p < PrioBitmap.NUM_PRIORITIES ensures QueueOk(c, s'.queues[p], p, s'.t) {
      assert QueueOk(c, s.queues[p], p, s.t);
    }
  }

  lemma {:induction false} RunQueues<P(!new)>(c: Config<P>, n: nat)
    ensures QueuesOk(c, Run(c, n))
    decreases n
  {
    if n > 0 {
      RunQueues(c, n - 1);
      var s := Run(c, n - 1);
      var s' := Step(c, s);
      match s.pc
      case Stopped(_) =>
      case Reading(ch, _, _) =>
        if ch < |c.channels| {
          var fd := c.channels[ch];
          match c.read(fd, s.t)
          case Packet(data) => EnqueueOk(c, s, s', fd, data);
          case WouldBlock => QuietOk(c, s, s', Read(fd, s.t, c.read(fd, s.t)));
          case Failed(_) => QuietOk(c, s, s', Read(fd, s.t, c.read(fd, s.t)));
        }
      case Dequeueing =>
        if Next(s.queues).None? { QuietOk(c, s, s', Idle); } else { DequeueOk(c, s, s'); }
    }
  }

  // ----- Main results -----

  /** Comes before in the order of dispatch: higher priority, or same priority and read earlier. */
  ghost predicate Precedes<P>(c: Config<P>, m: Msg<P>, m': Msg<P>) {
    PrioOf(c, m) < PrioOf(c, m') || (PrioOf(c, m) == PrioOf(c, m') && m.id < m'.id)
  }

  /** Whenever the loop dequeues, it dispatches the waiting message that precedes all others, and it
      is idle exactly when no message is waiting. */
  lemma {:induction false} DispatchesFirst<P(!new)>(c: Config<P>, n: nat)
    requires Run(c, n).pc == Dequeueing
    ensures var waiting := Waiting(Run(c, n).trace); var e := Run(c, n + 1).trace[|Run(c, n).trace|];
      && |Run(c, n + 1).trace| == |Run(c, n).trace| + 1
      && (e == Idle <==> waiting == {})
      && (waiting != {} ==> e.Dispatched? && e.msg in waiting && forall m :: m in waiting && m != e.msg ==>
         Precedes(c, e.msg, m))
  {
    var s := Run(c, n);
    RunQueues(c, n);
    var top := TopFrom(s.queues, 0);
    if top < |s.queues| {
      var m := s.queues[top][0];
      assert QueueOk(c, s.queues[top], top, s.t);
      assert m in Waiting(s.trace) by { assert PrioOf(c, m) == top; }
      forall m' | m' in Waiting(s.trace) && m' != m ensures Precedes(c, m, m') {
        var p := PrioOf(c, m');
        assert m' in s.queues[p];
      }
    } else {
      forall m ensures m !in Waiting(s.trace) {
        assert s.queues[PrioOf(c, m)] == [];
      }
    }
  }

  /** The loop dequeues only after a round in which every channel was read once and found empty,
      unless a read has failed for another reason: the error is dropped and the loop dequeues at
      once. */
  lemma {:induction false} PollsBeforeDequeue<P>(c: Config<P>, n: nat)
    requires |c.channels| > 0 && Run(c, n).pc == Dequeueing
    ensures FoundEmpty(c, Run(c, n).trace, |c.channels|) <==> !LastFailed(Run(c, n).trace)
  {
    RunPolls(c, n);
    var trace := Run(c, n).trace;
    if FoundEmpty(c, trace, |c.channels|) {
      var k := |c.channels|;
      assert EmptyRead(trace[|trace| - k + (k - 1)], c.channels[k - 1]);
    }
  }

  ghost predicate Polled<P>(c: Config<P>, s: State<P>) {
    match s.pc
    case Reading(ch, nonEmpty, flag) => ch < |c.channels| && (!nonEmpty && !flag ==> FoundEmpty(c, s.trace, ch))
    case Dequeueing => FoundEmpty(c, s.trace, |c.channels|) || LastFailed(s.trace)
    case Stopped(_) => true
  }

  lemma {:induction false} RunPolls<P>(c: Config<P>, n: nat)
    requires |c.channels| > 0
    ensures Polled(c, Run(c, n))
    decreases n
  {
    if n > 0 {
      RunPolls(c, n - 1);
      StepPolls(c, Run(c, n - 1));
    }
  }

  lemma {:induction false} StepPolls<P>(c: Config<P>, s: State<P>)
    requires |c.channels| > 0 && |s.queues| == PrioBitmap.NUM_PRIORITIES && Polled(c, s)
    ensures Polled(c, Step(c, s))
  {
    if s.pc.Reading? && !s.pc.nonEmpty && !s.pc.flag && c.read(c.channels[s.pc.ch], s.t).WouldBlock? {
      FoundOneMore(c, s.trace, s.pc.ch, s.t);
    }
  }

  lemma {:induction false} FoundOneMore<P>(c: Config<P>, trace: seq<Event<P>>, k: nat, t: nat)
    requires k < |c.channels| && FoundEmpty(c, trace, k)
    ensures FoundEmpty(c, trace + [Read(c.channels[k], t, WouldBlock)], k + 1)
  {
    var trace' := trace + [Read(c.channels[k], t, WouldBlock)];
    forall i | 0 <= i < k + 1 ensures EmptyRead(trace'[|trace'| - (k + 1) + i], c.channels[i]) {
      if i < k {
        assert EmptyRead(trace[|trace| - k + i], c.channels[i]);
        assert trace'[|trace'| - (k + 1) + i] == trace[|trace| - k + i];
      }
    }
  }

  /** A failed read makes the loop dequeue although no channel has been found empty. */
  lemma {:induction false} FailureSkipsPolling()
    ensures exists c: Config<int>, n: nat ::
      |c.channels| > 0 && Run(c, n).pc == Dequeueing && !FoundEmpty(c, Run(c, n).trace, |c.channels|)
  {
    var broken: ReadResult<int> := Failed(5);
    var c := Config([0, 1], (fd: int, t: nat) => broken, (x: int) => 0, (t: MessageType) => 0, (x: int) => 0);
    assert Run(c, 1) == Step(c, Run(c, 0));
    assert Run(c, 1).trace == [Read(0, 0, Failed(5))];
    assert Run(c, 1).pc == Dequeueing;
  }

  // ----- No message is lost or dispatched twice -----

  ghost predicate WasRead<P>(trace: seq<Event<P>>, m: Msg<P>) {
    exists i, fd :: 0 <= i < |trace| && trace[i] == Read(fd, m.id, Packet(m.data))
  }

  ghost predicate WasDispatched<P>(trace: seq<Event<P>>, m: Msg<P>) {
    exists i :: 0 <= i < |trace| && trace[i] == Dispatched(m)
  }

  ghost predicate Accounted<P(!new)>(s: State<P>) {
    && (forall m :: WasRead(s.trace, m) ==> m.id < s.t)
    && (forall m :: WasDispatched(s.trace, m) ==> WasRead(s.trace, m))
    && (forall m :: m in Waiting(s.trace) <==> WasRead(s.trace, m) && !WasDispatched(s.trace, m))
    && (forall i, j :: 0 <= i < j < |s.trace| && s.trace[i].Dispatched? && s.trace[j].Dispatched? ==>
       s.trace[i] != s.trace[j])
  }

  /** In every run each message read is waiting or has been dispatched, not both, and none is
      dispatched twice. */
  lemma {:induction false} NothingLost<P(!new)>(c: Config<P>, n: nat)
    ensures Accounted(Run(c, n))
    decreases n
  {
    if n > 0 {
      NothingLost(c, n - 1);
      RunQueues(c, n - 1);
      StepAccounted(c, Run(c, n - 1));
    } else {
      NothingYet(c);
    }
  }

  lemma {:induction false} NothingYet<P(!new)>(c: Config<P>)
    ensures Accounted(Run(c, 0))
  {
  }

  lemma {:induction false} StepAccounted<P(!new)>(c: Config<P>, s: State<P>)
    requires QueuesOk(c, s) && Accounted(s)
    ensures Accounted(Step(c, s))
  {
    var s' := Step(c, s);
    if s'.trace != s.trace {
      var e := s'.trace[|s.trace|];
      assert s'.trace == s.trace + [e];
      if e.Dispatched? { DispatchedWaits(c, s, e.msg); }
      AccountOne(s, s', e);
    }
  }

  lemma {:induction false} DispatchedWaits<P(!new)>(c: Config<P>, s: State<P>, m: Msg<P>)
    requires QueuesOk(c, s) && Next(s.queues) == Some(m)
    ensures m in Waiting(s.trace)
  {
    var top := TopFrom(s.queues, 0);
    assert QueueOk(c, s.queues[top], top, s.t);
    assert m == s.queues[top][0] && PrioOf(c, m) == top;
  }

  lemma {:induction false} AccountOne<P(!new)>(s: State<P>, s': State<P>, e: Event<P>)
    requires Accounted(s) && s'.trace == s.trace + [e] && s.t <= s'.t
    requires e.Read? ==> e.t == s.t && s'.t == s.t + 1
    requires e.Dispatched? ==> e.msg in Waiting(s.trace)
    ensures Accounted(s')
  {
    var n := |s.trace|;
    assert s'.trace[..n] == s.trace && s'.trace[n] == e;
    forall m: Msg<P> ensures WasRead(s'.trace, m) <==>
      WasRead(s.trace, m) || (e.Read? && e.t == m.id && e.r == Packet(m.data)) {
      if WasRead(s.trace, m) {
        var i, fd :| 0 <= i < n && s.trace[i] == Read(fd, m.id, Packet(m.data));
        assert s'.trace[i] == Read(fd, m.id, Packet(m.data));
      }
      if e.Read? && e.t == m.id && e.r == Packet(m.data) { assert s'.trace[n] == Read(e.fd, m.id, Packet(m.data)); }
    }
    forall m: Msg<P> ensures WasDispatched(s'.trace, m) <==> WasDispatched(s.trace, m) || e == Dispatched(m) {
      if WasDispatched(s.trace, m) {
        var i :| 0 <= i < n && s.trace[i] == Dispatched(m);
        assert s'.trace[i] == Dispatched(m);
      }
      if e == Dispatched(m) { assert s'.trace[n] == Dispatched(m); }
    }
    forall i, j | 0 <= i < j < |s'.trace| && s'.trace[i].Dispatched? && s'.trace[j].Dispatched?
      ensures s'.trace[i] != s'.trace[j] {
      if j == n { assert WasDispatched(s.trace, s.trace[i].msg); }
    }
  }
}
