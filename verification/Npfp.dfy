/**
 The non-preemptive fixed-priority scheduler: one queue per priority and a bitmap of the non-empty
 ones.
 */
module Npfp {
  import opened Wrappers
  import opened PrioBitmap
  import opened MessageQueue

  const NUM_TYPES: nat := 256

  type MessageType = t: nat | t < NUM_TYPES
  type Priority = p: nat | p < NUM_PRIORITIES

  // ----- What the operations mean for the queues -----

  function Enqueued<T>(qs: seq<seq<T>>, p: nat, x: T): (r: seq<seq<T>>)
    requires p < |qs|
    ensures |r| == |qs|
  {
    qs[p := qs[p] + [x]]
  }

  /** The first non-empty queue from `p` on, or the number of queues. */
  function TopFrom<T(==)>(qs: seq<seq<T>>, p: nat): (r: nat)
    requires p <= |qs|
    ensures p <= r <= |qs| && (r < |qs| ==> qs[r] != []) && forall q :: p <= q < r ==> qs[q] == []
    decreases |qs| - p
  {
    if p == |qs| || qs[p] != [] then p else TopFrom(qs, p + 1)
  }

  /** The message that is next, and the queues without it. */
  function Next<T(==)>(qs: seq<seq<T>>): Option<T> {
    var p := TopFrom(qs, 0);
    if p < |qs| then Some(qs[p][0]) else None
  }

  function Dequeued<T(==)>(qs: seq<seq<T>>): (r: seq<seq<T>>)
    ensures |r| == |qs|
  {
    var p := TopFrom(qs, 0);
    if p < |qs| then qs[p := qs[p][1..]] else qs
  }

  // ----- The queues in memory -----

  function Payloads<T>(ms: seq<Message<T>>): seq<T> { seq(|ms|, i requires 0 <= i < |ms| => ms[i].payload) }

  /** Queue `q` and its messages lie in `place`, and the payloads of the messages are `xs`. */
  ghost predicate Holds<T>(q: Queue<T>, xs: seq<T>, place: set<object>)
    requires q in place
    reads place
  {
    && (forall m :: m in q.contents ==> m in place)
    && q.Valid() && Payloads(q.contents) == xs
  }

  /** The queues hold the sequences `xs`, each in a place of its own. */
  ghost predicate Backed<T>(qs: seq<Queue<T>>, xs: seq<seq<T>>, places: seq<set<object>>, repr: set<object>)
    reads repr
  {
    && |qs| == |xs| == |places|
    && (forall p {:trigger places[p]} :: 0 <= p < |qs| ==> qs[p] in places[p] && places[p] <= repr)
    && (forall p, r {:trigger places[p], places[r]} :: 0 <= p < r < |qs| ==> places[p] !! places[r])
    && (forall p {:trigger Holds(qs[p], xs[p], places[p])} :: 0 <= p < |qs| ==> Holds(qs[p], xs[p], places[p]))
  }

  /** The same, but for queue `a`. */
  ghost predicate Others<T>(qs: seq<Queue<T>>, xs: seq<seq<T>>, places: seq<set<object>>, a: nat, repr: set<object>)
    requires a < |places|
    reads repr - places[a]
  {
    && |qs| == |xs| == |places|
    && (forall p {:trigger places[p]} :: 0 <= p < |qs| ==> qs[p] in places[p] && places[p] <= repr)
    && (forall p, r {:trigger places[p], places[r]} :: 0 <= p < r < |qs| ==> places[p] !! places[r])
    && (forall p {:trigger Holds(qs[p], xs[p], places[p])} :: 0 <= p < |qs| && p != a ==>
          places[p] !! places[a] && Holds(qs[p], xs[p], places[p]))
  }

  /** Queue `a` has changed and now lies in `place`, apart from the others. */
  lemma {:induction false} Rejoin<T>(qs: seq<Queue<T>>, xs: seq<seq<T>>, places: seq<set<object>>, a: nat,
      repr: set<object>, ys: seq<T>, place: set<object>)
    requires a < |places| && Others(qs, xs, places, a, repr) && place !! repr - places[a]
    requires qs[a] in place && Holds(qs[a], ys, place)
    ensures Backed(qs, xs[a := ys], places[a := place], repr - places[a] + place)
  {
    var xs', places' := xs[a := ys], places[a := place];
    forall p | 0 <= p < |qs| ensures qs[p] in places'[p] && places'[p] <= repr - places[a] + place {
      if p != a { assert places[p] !! places[a] && places[p] <= repr; }
    }
    forall p | 0 <= p < |qs| ensures Holds(qs[p], xs'[p], places'[p]) {
      if p != a { assert Holds(qs[p], xs[p], places[p]); }
    }
    forall p, r | 0 <= p < r < |qs| ensures places'[p] !! places'[r] {
      assert places[p] !! places[r] && places[p] <= repr && places[r] <= repr;
      if p != a { assert places[p] !! places[a]; }
      if r != a { assert places[r] !! places[a]; }
    }
  }

  lemma {:induction false} Extend<T>(qs: seq<Queue<T>>, xs: seq<seq<T>>, places: seq<set<object>>,
      repr: set<object>, q: Queue<T>)
    requires Backed(qs, xs, places, repr) && q !in repr && q.Valid() && q.contents == []
    ensures Backed(qs + [q], xs + [[]], places + [{q}], repr + {q})
  {
    var qs', xs', places' := qs + [q], xs + [[]], places + [{q}];
    forall p | 0 <= p < |qs'| ensures Holds(qs'[p], xs'[p], places'[p]) {
      if p < |qs| { assert places[p] <= repr && Holds(qs[p], xs[p], places[p]); }
    }
    forall p, r | 0 <= p < r < |qs'| ensures places'[p] !! places'[r] {
      assert places[p] <= repr;
      if r < |qs| { assert places[p] !! places[r]; }
    }
  }

  class Scheduler<T(==)> {
    const identify: T -> MessageType
    const callbacks: array<Priority>
    const pending: array<Queue<T>>
    const prioLevels: Bitmap
    ghost var queues: seq<seq<T>>
    ghost var places: seq<set<object>>
    ghost var repr: set<object>

    /** Each priority is marked exactly when its queue is not empty. */
    ghost predicate Marks(xs: seq<seq<T>>)
      reads prioLevels, prioLevels.bits
    {
      && prioLevels.Valid() && |xs| == NUM_PRIORITIES
      && forall p :: 0 <= p < NUM_PRIORITIES ==> (Marked(prioLevels.bits[..], p) <==> xs[p] != [])
    }

    ghost predicate Separate()
      reads this
    {
      && callbacks.Length == NUM_TYPES && pending.Length == NUM_PRIORITIES
      && this !in repr && callbacks !in repr && pending !in repr && prioLevels !in repr && prioLevels.bits !in repr
    }

    ghost predicate Valid()
      reads this, callbacks, pending, prioLevels, prioLevels.bits, repr
    {
      Separate() && Marks(queues) && Backed(pending[..], queues, places, repr)
    }

    /** All message types get priority 0 and all queues are empty. */
    constructor (identify: T -> MessageType)
      ensures Valid() && this.identify == identify && fresh(callbacks) && fresh(pending) && fresh(prioLevels)
        && fresh(prioLevels.bits)
      ensures fresh(repr) && forall p :: 0 <= p < NUM_PRIORITIES ==> queues[p] == []
      ensures callbacks.Length == 256 && pending.Length == 256 && forall t :: 0 <= t < 256 ==> callbacks[t] == 0
    {
      this.identify := identify;
      prioLevels := new Bitmap();
      callbacks := new Priority[NUM_TYPES](_ => 0);
      var q := new Queue<T>();
      pending := new Queue<T>[NUM_PRIORITIES](_ => q);
      queues, places, repr := [], [], {};
      new;
      InitQueues();
    }

    method InitQueues()
      requires Separate() && queues == [] && places == [] && repr == {}
      modifies pending, this`queues, this`places, this`repr
      ensures Separate() && fresh(repr) && Backed(pending[..], queues, places, repr)
      ensures |queues| == NUM_PRIORITIES && forall p :: 0 <= p < NUM_PRIORITIES ==> queues[p] == []
    {
      var prio := 0;
      while prio < NUM_PRIORITIES
        invariant prio <= NUM_PRIORITIES && Separate() && fresh(repr)
        invariant |queues| == prio && forall p :: 0 <= p < prio ==> queues[p] == []
        invariant Backed(pending[..prio], queues, places, repr)
      {
        var q := new Queue<T>();
        Extend(pending[..prio], queues, places, repr, q);
        pending[prio] := q;
        assert pending[..prio + 1] == pending[..prio] + [q];
        queues, places, repr := queues + [[]], places + [{q}], repr + {q};
        prio := prio + 1;
      }
      assert pending[..prio] == pending[..];
    }

    /** Changes the priority of a message type. */
    method SetCallback(t: MessageType, prio: Priority)
      requires Valid()
      modifies callbacks
      ensures Valid() && callbacks[..] == old(callbacks[..])[t := prio]
    {
      callbacks[t] := prio;
    }

    /** Adds a message to the queue of the priority of its type. */
    method Enqueue(msg: Message<T>)
      requires Valid() && msg !in repr
      modifies this`queues, this`places, this`repr, prioLevels.bits, repr, msg
      ensures Valid()
      ensures repr == old(repr) + {msg}
      ensures queues == Enqueued(old(queues), callbacks[identify(msg.payload)], msg.payload)
    {
      var prio := callbacks[identify(msg.payload)];
      AddTo(prio, msg);
      prioLevels.Set(prio);
    }

    method AddTo(prio: nat, msg: Message<T>)
      requires prio < NUM_PRIORITIES && Separate() && |queues| == NUM_PRIORITIES && msg !in repr
      requires Backed(pending[..], queues, places, repr)
      modifies this`queues, this`places, this`repr, repr, msg
      ensures Separate()
      ensures repr == old(repr) + {msg} && queues == Enqueued(old(queues), prio, msg.payload)
      ensures Backed(pending[..], queues, places, repr)
    {
      var q := pending[prio];
      ghost var qs := pending[..];
      assert Holds(qs[prio], queues[prio], places[prio]);
      assert Others(qs, queues, places, prio, repr);
      ghost var xs := queues[prio] + [msg.payload];
      q.Add(msg);
      assert Payloads(q.contents) == xs;
      Rejoin(qs, queues, places, prio, repr, xs, places[prio] + {msg});
      assert repr - places[prio] + (places[prio] + {msg}) == repr + {msg} by { assert places[prio] <= repr; }
      queues, places, repr := queues[prio := xs], places[prio := places[prio] + {msg}], repr + {msg};
    }

    /** Removes the first message of the highest priority. */
    method Dequeue() returns (msg: Message?<T>)
      requires Valid()
      modifies this`queues, this`places, this`repr, prioLevels.bits, repr
      ensures Valid()
      ensures queues == Dequeued(old(queues))
      ensures Next(old(queues)) == if msg == null then None else Some(msg.payload)
      ensures repr == old(repr) - {msg} && (msg != null ==> msg in old(repr))
    {
      var top := prioLevels.HighestPendingPriority();
      if top < 0 {
        return null;
      }
      assert TopFrom(queues, 0) == top;
      var empty;
      msg, empty := RemoveFrom(top);
      if empty {
        prioLevels.Clear(top);
      }
    }

    method RemoveFrom(prio: nat) returns (msg: Message<T>, empty: bool)
      requires prio < NUM_PRIORITIES && Separate() && |queues| == NUM_PRIORITIES && queues[prio] != []
      requires Backed(pending[..], queues, places, repr)
      modifies this`queues, this`places, this`repr, repr
      ensures Separate()
      ensures msg in old(repr) && repr == old(repr) - {msg}
      ensures msg.payload == old(queues[prio])[0] && queues == old(queues)[prio := old(queues[prio])[1..]]
      ensures empty <==> queues[prio] == []
      ensures Backed(pending[..], queues, places, repr)
    {
      var q := pending[prio];
      ghost var qs := pending[..];
      assert Holds(qs[prio], queues[prio], places[prio]);
      assert Others(qs, queues, places, prio, repr);
      ghost var xs := queues[prio][1..];
      msg := q.Remove();
      empty := q.IsEmpty();
      assert Payloads(q.contents) == xs;
      ghost var place := places[prio] - {msg};
      Rejoin(qs, queues, places, prio, repr, xs, place);
      assert repr - places[prio] + place == repr - {msg} by { assert places[prio] <= repr; }
      queues, places, repr := queues[prio := xs], places[prio := place], repr - {msg};
    }
  }
}
