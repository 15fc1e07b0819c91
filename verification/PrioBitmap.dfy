/**
 A bitmap of 256 priority levels in four 64-bit words, searched for its lowest set bit.
 */
module PrioBitmap {
  import opened Bits

  const NUM_PRIORITIES: nat := 256
  const WORD_BITS: nat := 64

  // ----- Bitwise operations on words -----

  predicate BitOf(x: nat, i: nat)
    decreases i, x
  {
    if i == 0 then x % 2 == 1 else BitOf(x / 2, i - 1)
  }

  function Or(a: nat, b: nat): nat
    decreases a + b
  {
    if a == 0 && b == 0 then 0 else (if a % 2 == 1 || b % 2 == 1 then 1 else 0) + 2 * Or(a / 2, b / 2)
  }

  /** `a` with the bits of `b` cleared. */
  function AndNot(a: nat, b: nat): nat
    decreases a + b
  {
    if a == 0 then 0 else (if a % 2 == 1 && b % 2 == 0 then 1 else 0) + 2 * AndNot(a / 2, b / 2)
  }

  lemma {:induction false} ZeroBits(i: nat)
    ensures !BitOf(0, i)
    decreases i
  {
    if i > 0 { ZeroBits(i - 1); }
  }

  lemma {:induction false} HigherBits(y: nat, x: nat, i: nat)
    requires x < 2 && i > 0
    ensures BitOf(x + 2 * y, i) <==> BitOf(y, i - 1)
  {
    assert (x + 2 * y) / 2 == y;
  }

  lemma {:induction false} OrBits(a: nat, b: nat, i: nat)
    ensures BitOf(Or(a, b), i) <==> BitOf(a, i) || BitOf(b, i)
    decreases i
  {
    if a == 0 && b == 0 {
      ZeroBits(i);
    } else if i > 0 {
      OrBits(a / 2, b / 2, i - 1);
      HigherBits(Or(a / 2, b / 2), if a % 2 == 1 || b % 2 == 1 then 1 else 0, i);
    }
  }

  lemma {:induction false} AndNotBits(a: nat, b: nat, i: nat)
    ensures BitOf(AndNot(a, b), i) <==> BitOf(a, i) && !BitOf(b, i)
    decreases i
  {
    if a == 0 {
      ZeroBits(i);
    } else if i > 0 {
      AndNotBits(a / 2, b / 2, i - 1);
      HigherBits(AndNot(a / 2, b / 2), if a % 2 == 1 && b % 2 == 0 then 1 else 0, i);
    }
  }

  lemma {:induction false} Pow2Bits(k: nat, i: nat)
    ensures BitOf(Pow2(k), i) <==> i == k
    decreases i
  {
    if k == 0 {
      if i > 0 { ZeroBits(i - 1); }
    } else {
      assert Pow2(k) / 2 == Pow2(k - 1) && Pow2(k) % 2 == 0;
      if i > 0 { Pow2Bits(k - 1, i - 1); }
    }
  }

  lemma {:induction false} WordBounds(a: nat, b: nat, n: nat)
    requires a < Pow2(n) && b < Pow2(n)
    ensures Or(a, b) < Pow2(n) && AndNot(a, b) < Pow2(n)
    decreases n
  {
    if n > 0 { WordBounds(a / 2, b / 2, n - 1); }
  }

  lemma {:induction false} Pow2Grows(k: nat, n: nat)
    requires k < n
    ensures Pow2(k) < Pow2(n)
    decreases n
  {
    if k < n - 1 { Pow2Grows(k, n - 1); }
  }

  /** One plus the number of the lowest set bit, or 0. */
  function Ffs(x: nat): nat
    decreases x
  {
    if x == 0 then 0 else if x % 2 == 1 then 1 else 1 + Ffs(x / 2)
  }

  lemma {:induction false} FfsFinds(x: nat)
    ensures Ffs(x) == 0 <==> x == 0
    ensures Ffs(x) > 0 ==> BitOf(x, Ffs(x) - 1) && forall i :: 0 <= i < Ffs(x) - 1 ==> !BitOf(x, i)
    decreases x
  {
    if x > 0 && x % 2 == 0 {
      FfsFinds(x / 2);
      forall i | 0 <= i < Ffs(x) - 1 ensures !BitOf(x, i) {
        if i > 0 { assert !BitOf(x / 2, i - 1); }
      }
    }
  }

  lemma {:induction false} BitsBounded(x: nat, n: nat, i: nat)
    requires x < Pow2(n) && BitOf(x, i)
    ensures i < n
    decreases n
  {
    if n == 0 {
      ZeroBits(i);
    } else if i > 0 {
      BitsBounded(x / 2, n - 1, i - 1);
    }
  }

  // ----- The bitmap -----

  ghost predicate Words(bits: seq<nat>) {
    |bits| == 4 && forall w :: 0 <= w < 4 ==> bits[w] < Pow2(WORD_BITS)
  }

  /** Whether level `p` is marked. */
  ghost predicate Marked(bits: seq<nat>, p: nat)
    requires |bits| == 4 && p < NUM_PRIORITIES
  {
    BitOf(bits[p / WORD_BITS], p % WORD_BITS)
  }

  lemma {:induction false} MarkSet(bits: seq<nat>, p: nat, q: nat)
    requires Words(bits) && p < NUM_PRIORITIES && q < NUM_PRIORITIES
    ensures var w := p / WORD_BITS;
      var set', clear := bits[w := Or(bits[w], Pow2(p % WORD_BITS))], bits[w := AndNot(bits[w], Pow2(p % WORD_BITS))];
      && Words(set') && (Marked(set', q) <==> Marked(bits, q) || q == p)
      && Words(clear) && (Marked(clear, q) <==> Marked(bits, q) && q != p)
  {
    var w, b := p / WORD_BITS, p % WORD_BITS;
    Pow2Grows(b, WORD_BITS);
    WordBounds(bits[w], Pow2(b), WORD_BITS);
    OrBits(bits[w], Pow2(b), q % WORD_BITS);
    AndNotBits(bits[w], Pow2(b), q % WORD_BITS);
    Pow2Bits(b, q % WORD_BITS);
    assert q / WORD_BITS == w && q % WORD_BITS == b ==> q == p;
  }

  class Bitmap {
    const bits: array<nat>

    ghost predicate Valid()
      reads this, bits
    {
      bits.Length == 4 && Words(bits[..])
    }

    constructor ()
      ensures Valid() && fresh(bits) && forall p :: 0 <= p < NUM_PRIORITIES ==> !Marked(bits[..], p)
    {
      bits := new nat[4];
      new;
      var lvl := 0;
      while lvl < 4
        invariant lvl <= 4 && fresh(bits) && bits.Length == 4 && forall w :: 0 <= w < lvl ==> bits[w] == 0
      {
        bits[lvl] := 0;
        lvl := lvl + 1;
      }
      forall p | 0 <= p < NUM_PRIORITIES ensures !Marked(bits[..], p) { ZeroBits(p % WORD_BITS); }
    }

    /** The lowest marked level, or -1. */
    method HighestPendingPriority() returns (r: int)
      requires Valid()
      ensures r == -1 || 0 <= r < NUM_PRIORITIES
      ensures r == -1 ==> forall p :: 0 <= p < NUM_PRIORITIES ==> !Marked(bits[..], p)
      ensures r >= 0 ==> Marked(bits[..], r) && forall p :: 0 <= p < r ==> !Marked(bits[..], p)
    {
      var offset := -1;
      var i := 0;
      while i < 4
        invariant i <= 4 && offset == i * WORD_BITS - 1
        invariant forall p :: 0 <= p < i * WORD_BITS ==> !Marked(bits[..], p)
      {
        var first := Ffs(bits[i]);
        WordSearched(bits[..], i);
        if first != 0 {
          return first + offset;
        }
        offset := offset + WORD_BITS;
        i := i + 1;
      }
      r := -1;
    }

    method Set(p: nat)
      requires Valid() && p < NUM_PRIORITIES
      modifies bits
      ensures Valid() && forall q :: 0 <= q < NUM_PRIORITIES ==>
        (Marked(bits[..], q) <==> old(Marked(bits[..], q)) || q == p)
    {
      ghost var before := bits[..];
      var word, bit := p / WORD_BITS, p % WORD_BITS;
      bits[word] := Or(bits[word], Pow2(bit));
      assert bits[..] == before[word := Or(before[word], Pow2(bit))];
      MarkSet(before, p, p);
      forall q | 0 <= q < NUM_PRIORITIES ensures Marked(bits[..], q) <==>
        Marked(before, q) || q == p { MarkSet(before, p, q); }
    }

    method Clear(p: nat)
      requires Valid() && p < NUM_PRIORITIES
      modifies bits
      ensures Valid() && forall q :: 0 <= q < NUM_PRIORITIES ==>
        (Marked(bits[..], q) <==> old(Marked(bits[..], q)) && q != p)
    {
      ghost var before := bits[..];
      var word, bit := p / WORD_BITS, p % WORD_BITS;
      bits[word] := AndNot(bits[word], Pow2(bit));
      assert bits[..] == before[word := AndNot(before[word], Pow2(bit))];
      MarkSet(before, p, p);
      forall q | 0 <= q < NUM_PRIORITIES
        ensures Marked(bits[..], q) <==> Marked(before, q) && q != p
      {
        MarkSet(before, p, q);
      }
    }
  }

  /** What the search of word `i` tells about its levels. */
  lemma {:induction false} WordSearched(bits: seq<nat>, i: nat)
    requires Words(bits) && i < 4
    ensures var first := Ffs(bits[i]); var base := i * WORD_BITS;
      && first <= WORD_BITS
      && (first == 0 ==> forall p :: base <= p < base + WORD_BITS ==> !Marked(bits, p))
      && (first > 0 ==> Marked(bits, base + first - 1) && forall p :: base <= p < base + first - 1 ==> !Marked(bits, p))
  {
    FfsFinds(bits[i]);
    if Ffs(bits[i]) > 0 { BitsBounded(bits[i], WORD_BITS, Ffs(bits[i]) - 1); }
    forall p | i * WORD_BITS <= p < (i + 1) * WORD_BITS ensures p / WORD_BITS == i
      && p % WORD_BITS == p - i * WORD_BITS {
    }
    if bits[i] == 0 {
      forall p | i * WORD_BITS <= p < (i + 1) * WORD_BITS ensures !Marked(bits, p) { ZeroBits(p % WORD_BITS); }
    }
  }
}
