/**
 The blocks of a buddy allocator and which of them the free lists must hold.  A block of order `k`
 and number `q` consists of the `2^k` pages whose number divided by `2^k` is `q`.
 */
module BuddyBlocks {
  import opened Bits

  const MAX_ORDER: nat := 11

  function Pages(k: nat, q: nat): set<nat>
    decreases k, q
  {
    if k == 0 then {q} else Pages(k - 1, 2 * q) + Pages(k - 1, 2 * q + 1)
  }

  /** The first page of a block. */
  function Head(k: nat, q: nat): nat
    decreases k, q
  {
    if k == 0 then q else Head(k - 1, 2 * q)
  }

  /** The number of the order-`k` block that page `p` lies in. */
  function Up(p: nat, k: nat): nat
    decreases k, p
  {
    if k == 0 then p else Up(p, k - 1) / 2
  }

  function Buddy(q: nat): nat { if q % 2 == 0 then q + 1 else q - 1 }

  lemma {:induction false} PagesUp(k: nat, q: nat, p: nat)
    ensures p in Pages(k, q) <==> Up(p, k) == q
    decreases k
  {
    if k > 0 {
      PagesUp(k - 1, 2 * q, p);
      PagesUp(k - 1, 2 * q + 1, p);
    }
  }

  lemma {:induction false} UpAdd(p: nat, j: nat, k: nat)
    ensures Up(Up(p, j), k) == Up(p, j + k)
    decreases k
  {
    if k > 0 { UpAdd(p, j, k - 1); }
  }

  lemma {:induction false} HeadIs(k: nat, q: nat)
    ensures Head(k, q) == q * Pow2(k)
    decreases k
  {
    if k > 0 { HeadIs(k - 1, 2 * q); }
  }

  lemma {:induction false} HeadIn(k: nat, q: nat)
    ensures Head(k, q) in Pages(k, q)
    decreases k
  {
    if k > 0 { HeadIn(k - 1, 2 * q); }
  }

  lemma {:induction false} HeadOrder(k: nat, q: nat, r: nat)
    requires q < r
    ensures Head(k, q) < Head(k, r)
    decreases k
  {
    if k > 0 { HeadOrder(k - 1, 2 * q, 2 * r); }
  }

  lemma {:induction false} PageRange(k: nat, q: nat, p: nat)
    ensures p in Pages(k, q) <==> q * Pow2(k) <= p < (q + 1) * Pow2(k)
    decreases k
  {
    if k > 0 {
      PageRange(k - 1, 2 * q, p);
      PageRange(k - 1, 2 * q + 1, p);
      Regroup(q, Pow2(k - 1));
    }
  }

  lemma Regroup(q: nat, h: nat)
    ensures (2 * q) * h == q * (2 * h) && (2 * q + 1) * h == q * (2 * h) + h
    ensures (2 * q + 1 + 1) * h == (q + 1) * (2 * h)
  {
  }

  lemma {:induction false} PageCount(k: nat, q: nat)
    ensures |Pages(k, q)| == Pow2(k)
    decreases k
  {
    if k > 0 {
      PageCount(k - 1, 2 * q);
      PageCount(k - 1, 2 * q + 1);
      Apart(k - 1, 2 * q, 2 * q + 1);
    }
  }

  lemma {:induction false} Apart(k: nat, q: nat, r: nat)
    requires q != r
    ensures Pages(k, q) !! Pages(k, r)
  {
    forall p: nat | p in Pages(k, q) ensures p !in Pages(k, r) { PagesUp(k, q, p); PagesUp(k, r, p); }
  }

  /** Of two blocks the smaller one lies in the larger one, together with its buddy if it is
      smaller by more than nothing, or they have no page in common. */
  lemma {:induction false} Nested(j: nat, r: nat, k: nat, q: nat)
    requires j <= k
    ensures Pages(j, r) <= Pages(k, q) || Pages(j, r) !! Pages(k, q)
    ensures j < k && Pages(j, r) <= Pages(k, q) ==> Pages(j + 1, r / 2) <= Pages(k, q)
  {
    forall p: nat | p in Pages(j, r) ensures p in Pages(k, q) <==> Up(r, k - j) == q {
      PagesUp(j, r, p);
      PagesUp(k, q, p);
      UpAdd(p, j, k - j);
    }
    HeadIn(j, r);
    if j < k && Pages(j, r) <= Pages(k, q) {
      assert Up(r, k - j) == q;
      UpAdd(r, 1, k - j - 1);
      assert Up(r, 1) == r / 2;
      forall p: nat | p in Pages(j + 1, r / 2) ensures p in Pages(k, q) {
        PagesUp(j + 1, r / 2, p);
        PagesUp(k, q, p);
        UpAdd(p, j + 1, k - j - 1);
      }
    }
  }

  lemma {:induction false} ParentPages(k: nat, q: nat)
    ensures Pages(k + 1, q / 2) == Pages(k, q) + Pages(k, Buddy(q))
    ensures Pages(k, q) !! Pages(k, Buddy(q))
    ensures Head(k + 1, q / 2) == if q % 2 == 0 then Head(k, q) else Head(k, Buddy(q))
    ensures Buddy(Buddy(q)) == q && Buddy(q) / 2 == q / 2
  {
    Apart(k, q, Buddy(q));
    assert Pages(k + 1, q / 2) == Pages(k, 2 * (q / 2)) + Pages(k, 2 * (q / 2) + 1);
  }

  // ----- Canonical free blocks -----

  /** A block the free lists must hold: wholly free, and largest possible of that kind. */
  ghost predicate Canonical(free: set<nat>, k: nat, q: nat) {
    && k <= MAX_ORDER
    && Pages(k, q) <= free
    && (k == MAX_ORDER || !(Pages(k + 1, q / 2) <= free))
  }

  lemma {:induction false} CanonicalApart(free: set<nat>, j: nat, r: nat, k: nat, q: nat)
    requires Canonical(free, j, r) && Canonical(free, k, q)
    requires !(j == k && r == q)
    ensures Pages(j, r) !! Pages(k, q)
  {
    if j <= k { Nested(j, r, k, q); } else { Nested(k, q, j, r); }
    if j == k { Apart(j, r, q); }
  }

  /** No block next to a canonical one has a wholly free parent that reaches into it. */
  lemma {:induction false} ParentApart(free: set<nat>, k: nat, q: nat, j: nat, r: nat)
    requires Canonical(free, k, q) && j < MAX_ORDER && Pages(j, r) !! Pages(k, q)
    ensures Pages(j + 1, r / 2) !! Pages(k, q) || !(Pages(j + 1, r / 2) <= free)
  {
    HeadIn(j, r);
    ParentPages(j, r);
    if j + 1 <= k {
      Nested(j + 1, r / 2, k, q);
      assert Head(j, r) in Pages(j + 1, r / 2) && Head(j, r) !in Pages(k, q);
    } else {
      Nested(k, q, j + 1, r / 2);
    }
  }

  /** Removing or adding a canonical block changes nothing about the others: this is what lets one
      step of coalescing or splitting touch one block only. */
  lemma {:induction false} CanonicalStep(rest: set<nat>, k: nat, q: nat, j: nat, r: nat)
    requires Pages(k, q) !! rest && Canonical(rest + Pages(k, q), k, q)
    ensures Canonical(rest + Pages(k, q), j, r) <==> Canonical(rest, j, r) || (j == k && r == q)
  {
    if Canonical(rest, j, r) { StaysCanonical(rest, k, q, j, r); }
    if Canonical(rest + Pages(k, q), j, r) && !(j == k && r == q) { WasCanonical(rest, k, q, j, r); }
  }

  lemma {:induction false} StaysCanonical(rest: set<nat>, k: nat, q: nat, j: nat, r: nat)
    requires Pages(k, q) !! rest && Canonical(rest + Pages(k, q), k, q) && Canonical(rest, j, r)
    ensures Canonical(rest + Pages(k, q), j, r)
  {
    Weaken(Pages(j, r), rest, Pages(k, q));
    if j < MAX_ORDER {
      ParentApart(rest + Pages(k, q), k, q, j, r);
      Weaken(Pages(j + 1, r / 2), rest, Pages(k, q));
    }
  }

  lemma {:induction false} WasCanonical(rest: set<nat>, k: nat, q: nat, j: nat, r: nat)
    requires Pages(k, q) !! rest && Canonical(rest + Pages(k, q), k, q)
    requires Canonical(rest + Pages(k, q), j, r) && !(j == k && r == q)
    ensures Canonical(rest, j, r)
  {
    CanonicalApart(rest + Pages(k, q), j, r, k, q);
    Weaken(Pages(j, r), rest, Pages(k, q));
    Weaken(Pages(j + 1, r / 2), rest, Pages(k, q));
  }

  lemma {:induction false} Weaken(p: set<nat>, rest: set<nat>, b: set<nat>)
    ensures p <= rest ==> p <= rest + b && (b !! rest ==> p !! b)
    ensures p !! b ==> (p <= rest + b <==> p <= rest)
  {
    if p !! b && p <= rest + b {
      forall x | x in p ensures x in rest { assert x in rest + b; }
    }
  }

  /** A block given back is canonical if its buddy is not wholly free. */
  lemma {:induction false} CanonicalNew(rest: set<nat>, k: nat, q: nat)
    requires k <= MAX_ORDER
    requires k == MAX_ORDER || !(Pages(k, Buddy(q)) <= rest)
    ensures Canonical(rest + Pages(k, q), k, q)
  {
    ParentPages(k, q);
  }

  /** The buddy of a block that is not free is wholly free exactly when it is canonical itself. */
  lemma {:induction false} BuddyCanonical(rest: set<nat>, k: nat, q: nat)
    requires Pages(k, q) !! rest && k < MAX_ORDER
    ensures Pages(k, Buddy(q)) <= rest <==> Canonical(rest, k, Buddy(q))
  {
    ParentPages(k, q);
    HeadIn(k, q);
  }

  /** A block that is wholly free but not canonical lies in a larger one that is. */
  lemma {:induction false} CanonicalAbove(free: set<nat>, k: nat, q: nat) returns (i: nat, r: nat)
    requires k <= MAX_ORDER && Pages(k, q) <= free
    ensures k <= i && Canonical(free, i, r) && Pages(k, q) <= Pages(i, r)
    decreases MAX_ORDER - k
  {
    if Canonical(free, k, q) {
      i, r := k, q;
    } else {
      ParentPages(k, q);
      i, r := CanonicalAbove(free, k + 1, q / 2);
    }
  }

  // ----- Finding the buddy by exclusive or on addresses -----

  function Xor(a: nat, b: nat): nat
    decreases a + b
  {
    if a == 0 && b == 0 then 0 else (a % 2 + b % 2) % 2 + 2 * Xor(a / 2, b / 2)
  }

  lemma {:induction false} XorZero(a: nat)
    ensures Xor(a, 0) == a
    decreases a
  {
    if a > 0 { XorZero(a / 2); }
  }

  /** `a` shifted left by `n` bits. */
  function Shl(a: nat, n: nat): nat
    decreases n, a
  {
    if n == 0 then a else 2 * Shl(a, n - 1)
  }

  lemma {:induction false} ShlIs(a: nat, n: nat)
    ensures Shl(a, n) == a * Pow2(n)
    decreases n
  {
    if n > 0 {
      ShlIs(a, n - 1);
      Twice(a, Pow2(n - 1));
    }
  }

  lemma Twice(a: nat, h: nat)
    ensures a * (2 * h) == 2 * (a * h)
  {
  }

  lemma {:induction false} XorShift(a: nat, b: nat, n: nat)
    ensures Xor(Shl(a, n), Shl(b, n)) == Shl(Xor(a, b), n)
    decreases n
  {
    if n > 0 {
      XorShift(a, b, n - 1);
      XorDouble(Shl(a, n - 1), Shl(b, n - 1));
    }
  }

  lemma {:induction false} XorDouble(a: nat, b: nat)
    ensures Xor(2 * a, 2 * b) == 2 * Xor(a, b)
  {
    assert (2 * a) / 2 == a && (2 * b) / 2 == b && (2 * a) % 2 == 0 && (2 * b) % 2 == 0;
  }

  lemma {:induction false} XorOne(q: nat)
    ensures Xor(q, 1) == Buddy(q)
  {
    XorZero(q / 2);
  }

  lemma {:induction false} XorBuddy(k: nat, q: nat, n: nat)
    ensures Xor(Shl(Shl(q, k), n), Shl(Shl(1, k), n)) == Shl(Shl(Buddy(q), k), n)
  {
    XorShift(Shl(q, k), Shl(1, k), n);
    XorShift(q, 1, k);
    XorOne(q);
  }

  /** Flipping bit `12 + k` of the address of an aligned block of order `k` gives the address of its
      buddy. */
  lemma {:induction false} XorIsBuddy(k: nat, q: nat)
    ensures Xor(Head(k, q) * Pow2(12), Pow2(12) * Pow2(k)) == Head(k, Buddy(q)) * Pow2(12)
  {
    XorBuddy(k, q, 12);
    Address(k, q);
    Address(k, Buddy(q));
    Address(k, 1);
    HeadIs(k, 1);
    assert Pow2(12) * Pow2(k) == Pow2(k) * Pow2(12);
  }

  lemma {:induction false} Address(k: nat, q: nat)
    ensures Shl(Shl(q, k), 12) == Head(k, q) * Pow2(12)
  {
    HeadIs(k, q);
    ShlIs(q, k);
    ShlIs(Head(k, q), 12);
  }
}
