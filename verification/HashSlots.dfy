/**
 The slots of a linear-probing hash map: probing, and what inserting and removing do to the slots.
 */
module HashSlots {

  datatype Item<V> = Empty | Entry(key: nat, value: V) | Tombstone(key: nat)

  ghost predicate Keyed<V>(x: Item<V>, k: nat) { !x.Empty? && x.key == k }

  function Home(n: nat, k: nat): (h: nat)
    requires n > 0
    ensures h < n
  {
    k % n
  }

  /** The home slot is the remainder of the key. */
  lemma {:induction false} HomeIs(n: nat, k: nat)
    requires n > 0
    ensures Home(n, k) < n && exists q: nat :: k == q * n + Home(n, k)
  {
    assert k == (k / n) * n + Home(n, k);
  }

  /** The slot `d` steps after slot `h`, going around, and the number of steps from `h` to `i`. */
  function Around(h: nat, d: nat, n: nat): nat { if h + d < n then h + d else h + d - n }

  function Steps(h: nat, i: nat, n: nat): int { if i >= h then i - h else i - h + n }

  lemma AroundSteps(h: nat, i: nat, n: nat)
    requires h < n && i < n
    ensures 0 <= Steps(h, i, n) < n && Around(h, Steps(h, i, n), n) == i
  {
  }

  lemma StepsAround(h: nat, d: nat, n: nat)
    requires h < n && d < n
    ensures Around(h, d, n) < n && Steps(h, Around(h, d, n), n) == d
  {
  }

  /** No empty slot lies between the home slot of `k` and slot `i`. */
  ghost predicate Reachable<V>(s: seq<Item<V>>, k: nat, i: nat)
    requires i < |s|
  {
    forall j :: 0 <= j < |s| && Steps(Home(|s|, k), j, |s|) < Steps(Home(|s|, k), i, |s|) ==> !s[j].Empty?
  }

  /** Each key has at most one slot, entry or tombstone, and is reachable from its home slot. */
  ghost predicate WellPlaced<V>(s: seq<Item<V>>) {
    && |s| > 1
    && (forall i, j :: 0 <= i < |s| && 0 <= j < |s| && !s[i].Empty? && !s[j].Empty? && s[i].key == s[j].key ==> i == j)
    && (forall i {:trigger s[i]} :: 0 <= i < |s| && !s[i].Empty? ==> Reachable(s, s[i].key, i))
  }

  /** The map that the entries represent. */
  ghost predicate Represents<V>(s: seq<Item<V>>, mp: map<nat, V>) {
    && (forall k :: k in mp ==> Entry(k, mp[k]) in s)
    && (forall i :: 0 <= i < |s| && s[i].Entry? ==> s[i].key in mp && mp[s[i].key] == s[i].value)
  }

  function Empties<V>(s: seq<Item<V>>): (c: nat)
    ensures c <= |s|
  {
    if s == [] then 0 else (if s[|s| - 1].Empty? then 1 else 0) + Empties(s[..|s| - 1])
  }

  lemma {:induction false} EmptiesUpdate<V>(s: seq<Item<V>>, i: nat, x: Item<V>)
    requires i < |s|
    ensures Empties(s[i := x]) == Empties(s) - (if s[i].Empty? then 1 else 0) + (if x.Empty? then 1 else 0)
    decreases |s|
  {
    var n := |s| - 1;
    if i == n {
      assert s[i := x][..n] == s[..n];
    } else {
      assert s[i := x][..n] == s[..n][i := x];
      EmptiesUpdate(s[..n], i, x);
    }
  }

  lemma {:induction false} EmptyExists<V>(s: seq<Item<V>>) returns (i: nat)
    requires Empties(s) > 0
    ensures i < |s| && s[i].Empty?
    decreases |s|
  {
    if s[|s| - 1].Empty? { i := |s| - 1; } else { i := EmptyExists(s[..|s| - 1]); }
  }

  lemma {:induction false} AllEmpty<V>(s: seq<Item<V>>)
    requires forall i :: 0 <= i < |s| ==> s[i].Empty?
    ensures Empties(s) == |s|
    decreases |s|
  {
    if s != [] { AllEmpty(s[..|s| - 1]); }
  }

  /** Slot `i` is where probing for `k` stops: all slots before it are taken by other keys. */
  ghost predicate Stops<V>(s: seq<Item<V>>, k: nat, i: nat) {
    && i < |s| && (s[i].Empty? || s[i].key == k)
    && forall j :: 0 <= j < |s| && Steps(Home(|s|, k), j, |s|) < Steps(Home(|s|, k), i, |s|) ==>
       !s[j].Empty? && s[j].key != k
  }

  /** Probing finds the slot of a key that has one. */
  lemma {:induction false} ProbeFinds<V>(s: seq<Item<V>>, k: nat, i: nat, j: nat)
    requires WellPlaced(s) && Stops(s, k, i) && j < |s| && Keyed(s[j], k)
    ensures i == j
  {
    AroundSteps(Home(|s|, k), i, |s|);
    AroundSteps(Home(|s|, k), j, |s|);
    assert Reachable(s, k, j);
  }

  /** What probing tells about the map. */
  lemma {:induction false} ProbeDecides<V>(s: seq<Item<V>>, mp: map<nat, V>, k: nat, i: nat)
    requires WellPlaced(s) && Represents(s, mp) && Stops(s, k, i)
    ensures k in mp <==> s[i].Entry?
    ensures k in mp ==> s[i] == Entry(k, mp[k])
  {
    if k in mp {
      var j :| 0 <= j < |s| && s[j] == Entry(k, mp[k]);
      ProbeFinds(s, k, i, j);
    }
  }

  /** Writing an item of key `k` where probing for `k` stops keeps all keys in place. */
  lemma {:induction false} PlaceKeeps<V>(s: seq<Item<V>>, k: nat, i: nat, x: Item<V>)
    requires WellPlaced(s) && Stops(s, k, i) && Keyed(x, k)
    ensures WellPlaced(s[i := x])
  {
    var t := s[i := x];
    forall a, b | 0 <= a < |t| && 0 <= b < |t| && !t[a].Empty? && !t[b].Empty? && t[a].key == t[b].key ensures a == b {
      if a != i && t[a].key == k { ProbeFinds(s, k, i, a); }
      if b != i && t[b].key == k { ProbeFinds(s, k, i, b); }
    }
    forall a {:trigger t[a]} | 0 <= a < |t| && !t[a].Empty? ensures Reachable(t, t[a].key, a) {
      if a != i { assert Reachable(s, s[a].key, a); }
    }
  }

  lemma {:induction false} InsertRepresents<V>(s: seq<Item<V>>, mp: map<nat, V>, k: nat, v: V, i: nat)
    requires WellPlaced(s) && Represents(s, mp) && Stops(s, k, i)
    ensures Represents(s[i := Entry(k, v)], mp[k := v])
  {
    var t, mp' := s[i := Entry(k, v)], mp[k := v];
    assert t[i] == Entry(k, v);
    forall j | j in mp' ensures Entry(j, mp'[j]) in t {
      if j != k {
        var a :| 0 <= a < |s| && s[a] == Entry(j, mp[j]);
        assert t[a] == s[a];
      }
    }
    forall a | 0 <= a < |t| && t[a].Entry? ensures t[a].key in mp' && mp'[t[a].key] == t[a].value {
      if a != i && t[a].key == k { ProbeFinds(s, k, i, a); }
    }
  }

  lemma {:induction false} RemoveRepresents<V>(s: seq<Item<V>>, mp: map<nat, V>, k: nat, i: nat)
    requires WellPlaced(s) && Represents(s, mp) && Stops(s, k, i) && s[i].Entry?
    ensures Represents(s[i := Tombstone(k)], mp - {k})
  {
    var t, mp' := s[i := Tombstone(k)], mp - {k};
    forall j | j in mp' ensures Entry(j, mp'[j]) in t {
      var a :| 0 <= a < |s| && s[a] == Entry(j, mp[j]);
      assert t[a] == s[a];
    }
    forall a: nat | a < |s| && Keyed(s[a], k) ensures a == i { ProbeFinds(s, k, i, a); }
  }

  // ----- Copying -----

  /** The map of the entries among the first `n` slots. */
  ghost function Copied<V>(s: seq<Item<V>>, n: nat): map<nat, V>
    requires n <= |s|
  {
    if n == 0 then map[]
    else if s[n - 1].Entry? then Copied(s, n - 1)[s[n - 1].key := s[n - 1].value]
    else Copied(s, n - 1)
  }

  ghost predicate HasEntry<V>(s: seq<Item<V>>, n: nat, k: nat)
    requires n <= |s|
  {
    exists i :: 0 <= i < n && s[i].Entry? && s[i].key == k
  }

  lemma {:induction false} CopiedKey<V>(s: seq<Item<V>>, mp: map<nat, V>, n: nat, k: nat)
    requires Represents(s, mp) && n <= |s|
    ensures k in Copied(s, n) <==> HasEntry(s, n, k)
    ensures k in Copied(s, n) ==> k in mp && Copied(s, n)[k] == mp[k]
    decreases n
  {
    if n > 0 {
      CopiedKey(s, mp, n - 1, k);
      assert HasEntry(s, n, k) <==> HasEntry(s, n - 1, k) || (s[n - 1].Entry? && s[n - 1].key == k);
    }
  }

  /** Copying all entries copies the map. */
  lemma {:induction false} CopiedAll<V>(s: seq<Item<V>>, mp: map<nat, V>)
    requires Represents(s, mp)
    ensures Copied(s, |s|) == mp
  {
    forall k ensures k in Copied(s, |s|) <==> k in mp {
      CopiedKey(s, mp, |s|, k);
      if k in mp {
        var i :| 0 <= i < |s| && s[i] == Entry(k, mp[k]);
        assert HasEntry(s, |s|, k);
      }
    }
    forall k | k in mp ensures Copied(s, |s|)[k] == mp[k] { CopiedKey(s, mp, |s|, k); }
  }
}
