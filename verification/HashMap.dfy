/**
 A hash map with linear probing, keyed tombstones and doubling: insertion may resize, and resizing
 inserts.
 */
module HashMap {
  import opened Wrappers
  import Bits
  import opened HashSlots

  const SIZE_MAX: nat := 0xFFFF_FFFF_FFFF_FFFF
  const ITEM_SIZE: nat := 24

  /** From this length on the map cannot be doubled. */
  const LENGTH_LIMIT: nat := SIZE_MAX / 2 / ITEM_SIZE - 16

  lemma {:induction false} Shifted(a: nat, b: nat)
    ensures Bits.Pow2(a + b) == Bits.Pow2(a) * Bits.Pow2(b)
    decreases b
  {
    if b > 0 { Shifted(a, b - 1); }
  }

  /** Sizes have 64 bits. */
  lemma {:induction false} SizeMaxIs()
    ensures SIZE_MAX == Bits.Pow2(64) - 1
  {
    assert Bits.Pow2(4) == 16 && Bits.Pow2(8) == 256 && Bits.Pow2(12) == 4096 && Bits.Pow2(16) == 0x1_0000;
    Shifted(16, 16);
    Shifted(32, 32);
  }

  /** A shorter map can be doubled, and the limit is less than 17 slots below the length at which the
      size of the doubled array does not fit in 64 bits. */
  lemma {:induction false} LimitIs(len: nat)
    ensures len < LENGTH_LIMIT <==> ITEM_SIZE * 2 * (len + 17) <= SIZE_MAX
    ensures len < LENGTH_LIMIT ==> ITEM_SIZE * (2 * len) + 16 <= SIZE_MAX
  {
  }

  /** The program loops forever when a full map is too large to double. */
  datatype Outcome<V> = Hangs | Done(replaced: Option<V>)

  function MinCount(len: nat): nat { 2 }

  class FixedSizeMap<V(0)> {
    var items: array<Item<V>>
    var count: nat
    var length: nat
    ghost var mp: map<nat, V>

    /** `count` is the number of empty slots, and there always is one. */
    ghost predicate Valid()
      reads this, items
    {
      && items.Length == length && count == Empties(items[..]) && 0 < count
      && WellPlaced(items[..]) && Represents(items[..], mp)
    }

    ghost predicate NoTombstones()
      reads this, items
    {
      forall i :: 0 <= i < items.Length ==> !items[i].Tombstone?
    }

    constructor (len: nat)
      requires 1 < len && ITEM_SIZE * len + 16 <= SIZE_MAX
      ensures Valid() && fresh(items) && mp == map[] && length == len && count == len && NoTombstones()
    {
      length, count, mp := len, len, map[];
      items := new Item<V>[len];
      new;
      var i := 0;
      while i < len
        invariant i <= len && items.Length == len && fresh(items)
        invariant length == len && count == len && mp == map[]
        invariant forall j :: 0 <= j < i ==> items[j].Empty?
      {
        items[i] := Empty;
        i := i + 1;
      }
      AllEmpty(items[..]);
    }

    /** The slot of the key, or the empty slot where it belongs. */
    method Probe(key: nat) returns (slot: nat)
      requires Valid()
      ensures Stops(items[..], key, slot)
    {
      slot := Home(length, key);
      ghost var h, n, d := slot, length, 0;
      ghost var e := EmptyExists(items[..]);
      AroundSteps(h, e, n);
      while true
        invariant slot < n && d < n && slot == Around(h, d, n) && d <= Steps(h, e, n)
        invariant forall j :: 0 <= j < n && Steps(h, j, n) < d ==> !items[j].Empty? && items[j].key != key
        decreases Steps(h, e, n) - d
      {
        StepsAround(h, d, n);
        if items[slot].Empty? || (items[slot].Tombstone? && items[slot].key == key) {
          return;
        }
        if items[slot].Entry? && items[slot].key == key {
          return;
        }
        Passed(items[..], h, d, slot, e);
        slot := (slot + 1) % length;
        d := d + 1;
      }
    }

    /** Maps the key to the value and returns the value it had. */
    method Insert(key: nat, value: V) returns (r: Outcome<V>)
      requires Valid()
      modifies this, items
      ensures r.Hangs? <==> old(count) < 2 && old(length) >= 0xFFFF_FFFF_FFFF_FFFF / 2 / 24 - 16
      ensures !r.Hangs? ==> Valid() && mp == old(mp)[key := value] && (items == old(items) || fresh(items))
      ensures !r.Hangs? ==> r.replaced == if key in old(mp) then Some(old(mp)[key]) else None
      ensures old(count) >= 2 ==> items == old(items) && length == old(length) && count >= old(count) - 1
      ensures old(count) >= 2 && old(NoTombstones()) ==> NoTombstones()
      decreases if count < 2 then 1 else 0, 2
    {
      var hangs := ReallocIfNecessary();
      if hangs {
        return Hangs;
      }
      var replaced := Enter(key, value);
      r := Done(replaced);
    }

    /** Writes the entry where probing stops. */
    method Enter(key: nat, value: V) returns (replaced: Option<V>)
      requires Valid() && count >= 2
      modifies this`count, this`mp, items
      ensures Valid() && mp == old(mp)[key := value] && count >= old(count) - 1
      ensures replaced == if key in old(mp) then Some(old(mp)[key]) else None
      ensures old(NoTombstones()) ==> NoTombstones()
    {
      var slot := Probe(key);
      replaced := None;
      ProbeDecides(items[..], mp, key, slot);
      PlaceKeeps(items[..], key, slot, Entry(key, value));
      InsertRepresents(items[..], mp, key, value, slot);
      EmptiesUpdate(items[..], slot, Entry(key, value));
      if items[slot].Entry? {
        replaced := Some(items[slot].value);
      } else if items[slot].Empty? {
        count := count - 1;
      }
      Put(slot, Entry(key, value));
      mp := mp[key := value];
    }

    method Put(slot: nat, item: Item<V>)
      requires slot < items.Length
      modifies items
      ensures items[..] == old(items[..])[slot := item]
      ensures old(NoTombstones()) && !item.Tombstone? ==> NoTombstones()
    {
      items[slot] := item;
    }

    method Get(key: nat) returns (r: Option<V>)
      requires Valid()
      ensures r == if key in mp then Some(mp[key]) else None
    {
      var slot := Probe(key);
      ProbeDecides(items[..], mp, key, slot);
      if items[slot].Entry? {
        r := Some(items[slot].value);
      } else {
        r := None;
      }
    }

    method Remove(key: nat) returns (r: Option<V>)
      requires Valid()
      modifies this`mp, items
      ensures Valid() && mp == old(mp) - {key}
      ensures r == if key in old(mp) then Some(old(mp)[key]) else None
    {
      var slot := Probe(key);
      ProbeDecides(items[..], mp, key, slot);
      if items[slot].Entry? {
        r := Some(items[slot].value);
        PlaceKeeps(items[..], key, slot, Tombstone(key));
        RemoveRepresents(items[..], mp, key, slot);
        EmptiesUpdate(items[..], slot, Tombstone(key));
        Put(slot, Tombstone(key));
      } else {
        r := None;
      }
      mp := mp - {key};
    }

    /** Moves the entries to a map of twice the length if only one empty slot is left. */
    method ReallocIfNecessary() returns (hangs: bool)
      requires Valid()
      modifies this
      ensures hangs <==> old(count) < 2 && old(length) >= 0xFFFF_FFFF_FFFF_FFFF / 2 / 24 - 16
      ensures !hangs ==> Valid() && mp == old(mp) && count >= 2
      ensures old(count) >= 2 ==> items == old(items) && length == old(length) && count == old(count)
      ensures !hangs && old(count) < 2 ==> fresh(items) && length == 2 * old(length) && NoTombstones()
      ensures !hangs && old(count) < 2 ==> count >= old(length)
      decreases if count < 2 then 1 else 0, 1
    {
      if MinCount(length) <= count {
        return false;
      }
      if length < LENGTH_LIMIT {} else {
        return true;
      }
      LimitIs(length);
      var m2 := new FixedSizeMap<V>(length * 2);
      CopyInto(m2);
      items, count, length, mp := m2.items, m2.count, m2.length, m2.mp;
      hangs := false;
    }

    /** Inserts all entries into an empty map of twice the length; none of these insertions resizes. */
    method CopyInto(m2: FixedSizeMap<V>)
      requires Valid() && count < 2 && m2.Valid() && m2 != this && m2.items != items
      requires m2.mp == map[] && m2.length == 2 * length == m2.count && m2.NoTombstones()
      modifies m2, m2.items
      ensures Valid() && m2.Valid() && m2.items == old(m2.items) && m2.mp == mp
      ensures m2.length == 2 * length && m2.count >= length && m2.NoTombstones()
      decreases if count < 2 then 1 else 0, 0
    {
      ghost var s := items[..];
      CopiedAll(s, mp);
      var i := 0;
      while i < length
        invariant i <= length && items[..] == s && m2.items == old(m2.items) && m2.Valid() && m2.mp == Copied(s, i)
        invariant m2.length == 2 * length && m2.count >= 2 * length - i && m2.NoTombstones()
      {
        if items[i].Entry? {
          var _ := m2.Insert(items[i].key, items[i].value);
        }
        i := i + 1;
      }
    }
  }

  lemma {:induction false} Passed<V>(s: seq<Item<V>>, h: nat, d: nat, slot: nat, e: nat)
    requires h < |s| && d < |s| && slot == Around(h, d, |s|) && e < |s| && s[e].Empty? && slot < |s| && !s[slot].Empty?
    requires d <= Steps(h, e, |s|)
    ensures d + 1 <= Steps(h, e, |s|) && d + 1 < |s| && (slot + 1) % |s| == Around(h, d + 1, |s|)
    ensures forall j :: 0 <= j < |s| && Steps(h, j, |s|) < d + 1 ==> Steps(h, j, |s|) < d || j == slot
  {
    NextSlot(slot, |s|);
    AroundSteps(h, e, |s|);
    StepsAround(h, d, |s|);
  }

  lemma NextSlot(slot: nat, n: nat)
    requires slot < n
    ensures (slot + 1) % n == if slot + 1 == n then 0 else slot + 1
  {
  }
}
