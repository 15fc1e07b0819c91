/**
 Enumerating permutations in lexicographic order: `next` turns an array into its immediate
 successor in place, `permut` collects all of them.
 */
module Permutations {

  // ----- Lexicographic order -----

  predicate LessAt(p: seq<int>, q: seq<int>, k: nat) {
    k < |p| && k < |q| && p[..k] == q[..k] && p[k] < q[k]
  }

  ghost predicate Less(p: seq<int>, q: seq<int>) {
    exists k: nat :: LessAt(p, q, k)
  }

  predicate Descending(s: seq<int>) {
    forall i, j :: 0 <= i < j < |s| ==> s[i] >= s[j]
  }

  predicate Ascending(s: seq<int>) {
    forall i, j :: 0 <= i < j < |s| ==> s[i] <= s[j]
  }

  ghost predicate Permutes(p: seq<int>, q: seq<int>) { multiset(p) == multiset(q) }

  lemma {:induction false} SameLength(p: seq<int>, q: seq<int>)
    requires Permutes(p, q)
    ensures |p| == |q|
  {
    assert |multiset(p)| == |p| && |multiset(q)| == |q|;
  }

  /** The first position in which two sequences differ. */
  lemma {:induction false} FirstDifference(p: seq<int>, q: seq<int>) returns (k: nat)
    requires |p| == |q| && p != q
    ensures k < |p| && p[..k] == q[..k] && p[k] != q[k]
  {
    assert p[..|p|] == p && q[..|q|] == q;
    k := 0;
    while k < |p| && p[k] == q[k]
      invariant k <= |p| && p[..k] == q[..k]
    {
      k := k + 1;
    }
  }

  lemma {:induction false} LessTotal(p: seq<int>, q: seq<int>)
    requires |p| == |q|
    ensures p == q || Less(p, q) || Less(q, p)
  {
    if p != q {
      var k := FirstDifference(p, q);
      assert LessAt(p, q, k) || LessAt(q, p, k);
    }
  }

  lemma LessIrreflexive(p: seq<int>)
    ensures !Less(p, p)
  {
  }

  lemma {:induction false} LessTransitive(p: seq<int>, q: seq<int>, r: seq<int>)
    requires Less(p, q) && Less(q, r)
    ensures Less(p, r)
  {
    var k: nat :| LessAt(p, q, k);
    var l: nat :| LessAt(q, r, l);
    var m := if k < l then k else l;
    assert p[..m] == p[..k][..m] == q[..k][..m] == q[..m];
    assert q[..m] == q[..l][..m] == r[..l][..m] == r[..m];
    assert k < l ==> q[k] == q[..l][k] == r[..l][k] == r[k];
    assert l < k ==> p[l] == p[..k][l] == q[..k][l] == q[l];
    assert LessAt(p, r, m);
  }

  /** Equal prefixes can be removed from a permutation. */
  lemma {:induction false} RestPermutes(p: seq<int>, q: seq<int>, k: nat)
    requires Permutes(p, q) && k <= |p| && k <= |q| && p[..k] == q[..k]
    ensures Permutes(p[k..], q[k..])
  {
    assert p == p[..k] + p[k..] && q == q[..k] + q[k..];
    assert multiset(p[k..]) == multiset(p) - multiset(p[..k]);
    assert multiset(q[k..]) == multiset(q) - multiset(q[..k]);
  }

  lemma {:induction false} MemberOf(p: seq<int>, q: seq<int>, i: nat) returns (j: nat)
    requires Permutes(p, q) && i < |p|
    ensures j < |q| && q[j] == p[i]
  {
    assert p[i] in multiset(q);
    j :| j < |q| && q[j] == p[i];
  }

  /** At the first place where a permutation leaves a sequence, it continues with an element that
      the sequence still has to come. */
  lemma {:induction false} FromTheRest(p: seq<int>, s: seq<int>, k: nat) returns (j: nat)
    requires Permutes(p, s) && k < |p| && k < |s| && p[..k] == s[..k]
    ensures k <= j < |s| && p[k] == s[j]
  {
    RestPermutes(p, s, k);
    var i := MemberOf(p[k..], s[k..], 0);
    assert p[k] == p[k..][0] == s[k..][i];
    j := k + i;
  }

  lemma {:induction false} DescendingIsLast(s: seq<int>, p: seq<int>)
    requires Descending(s) && Permutes(p, s)
    ensures !Less(s, p)
  {
    forall k: nat | k < |p| && k < |s| && p[..k] == s[..k] ensures p[k] <= s[k] {
      var j := FromTheRest(p, s, k);
    }
  }

  lemma {:induction false} AscendingIsFirst(s: seq<int>, p: seq<int>)
    requires Ascending(s) && Permutes(p, s)
    ensures !Less(p, s)
  {
    forall k: nat | k < |p| && k < |s| && p[..k] == s[..k] ensures p[k] >= s[k] {
      var j := FromTheRest(p, s, k);
    }
  }

  // ----- The successor -----

  /** `t` is the immediate successor of `s` among the permutations of `s`. */
  ghost predicate IsSuccessor(s: seq<int>, t: seq<int>) {
    Permutes(t, s) && Less(s, t) && forall p :: Permutes(p, s) ==> !(Less(s, p) && Less(p, t))
  }

  ghost predicate IsLast(s: seq<int>) {
    forall p :: Permutes(p, s) ==> !Less(s, p)
  }

  /** What the three loops establish: `s` and `t` agree before `i`, `t[i]` is the smallest larger
      element behind position `i` of `s`, and both rests are sorted the extreme way. */
  ghost predicate Stepped(s: seq<int>, t: seq<int>, i: nat) {
    && i < |s| == |t| && s[..i] == t[..i] && s[i] < t[i]
    && Permutes(t, s)
    && Descending(s[i + 1..]) && Ascending(t[i + 1..])
    && (forall k :: i < k < |s| && s[k] > s[i] ==> s[k] >= t[i])
  }

  lemma {:induction false} SteppedIsSuccessor(s: seq<int>, t: seq<int>, i: nat)
    requires Stepped(s, t, i)
    ensures IsSuccessor(s, t)
  {
    assert LessAt(s, t, i);
    forall p | Permutes(p, s) ensures !(Less(s, p) && Less(p, t)) {
      NothingBetween(s, t, i, p);
    }
  }

  lemma {:induction false} NothingBetween(s: seq<int>, t: seq<int>, i: nat, p: seq<int>)
    requires Stepped(s, t, i) && Permutes(p, s)
    ensures !(Less(s, p) && Less(p, t))
  {
    if Less(s, p) && Less(p, t) {
      SameLength(p, s);
      var k: nat :| LessAt(s, p, k);
      var l: nat :| LessAt(p, t, l);
      SharedPrefix(s, t, i, p, k, l);
      var j := FromTheRest(p, s, i);
      if p[i] == s[i] {
        assert p[..i + 1] == p[..i] + [p[i]] && s[..i + 1] == s[..i] + [s[i]];
        RestLess(s, p, i + 1, k);
        RestPermutes(p, s, i + 1);
        DescendingIsLast(s[i + 1..], p[i + 1..]);
      } else {
        assert p[..i + 1] == p[..i] + [p[i]] && t[..i + 1] == t[..i] + [t[i]];
        RestLess(p, t, i + 1, l);
        RestPermutes(p, t, i + 1);
        AscendingIsFirst(t[i + 1..], p[i + 1..]);
      }
    }
  }

  /** What lies between two sequences with a common prefix has that prefix, and at the next
      position a value between theirs. */
  lemma {:induction false} SharedPrefix(s: seq<int>, t: seq<int>, i: nat, p: seq<int>, k: nat, l: nat)
    requires i < |s| == |t| == |p| && s[..i] == t[..i] && s[i] < t[i]
    requires LessAt(s, p, k) && LessAt(p, t, l)
    ensures p[..i] == s[..i] && s[i] <= p[i] <= t[i]
    ensures p[i] == s[i] ==> k > i
    ensures p[i] == t[i] ==> l > i
  {
    assert forall m :: 0 <= m < i ==> s[m] == s[..i][m] == t[..i][m] == t[m];
    assert forall m :: 0 <= m < k ==> s[m] == s[..k][m] == p[..k][m] == p[m];
    assert forall m :: 0 <= m < l ==> p[m] == p[..l][m] == t[..l][m] == t[m];
    assert k >= i && l >= i;
    assert p[..i] == p[..k][..i] == s[..k][..i] == s[..i];
  }

  lemma {:induction false} RestLess(p: seq<int>, q: seq<int>, i: nat, k: nat)
    requires LessAt(p, q, k) && i <= k
    ensures Less(p[i..], q[i..])
  {
    assert p[i..][..k - i] == p[..k][i..] == q[..k][i..] == q[i..][..k - i];
    assert LessAt(p[i..], q[i..], k - i);
  }

  // ----- `next` -----

  lemma SwapPermutes(s: seq<int>, i: nat, j: nat)
    requires i < |s| && j < |s|
    ensures Permutes(s[i := s[j]][j := s[i]], s)
  {
  }

  /** Turns the array into the next permutation, or returns false and leaves it alone if it is the
      last one.  An empty array counts as its own last permutation. */
  method Next(a: array<int>) returns (more: bool)
    modifies a
    ensures more ==> IsSuccessor(old(a[..]), a[..])
    ensures !more ==> a[..] == old(a[..]) && IsLast(a[..])
  {
    ghost var s := a[..];
    var size := a.Length;
    var i := size - 1;
    while i > 0 && a[i - 1] >= a[i]
      invariant -1 <= i < size && (size > 0 ==> i >= 0)
      invariant DescendingFrom(s, i)
    {
      i := i - 1;
    }
    if i <= 0 {
      forall p | Permutes(p, s) ensures !Less(s, p) { DescendingIsLast(s, p); }
      return false;
    }

    var j := size - 1;
    while a[j] <= a[i - 1]
      invariant i <= j < size
      invariant forall k :: j < k < size ==> s[k] <= s[i - 1]
      decreases j
    {
      j := j - 1;
    }
    a[i - 1], a[j] := a[j], a[i - 1];
    ghost var u := a[..];
    assert u == s[i - 1 := s[j]][j := s[i - 1]];

    ReverseFrom(a, i);
    Turned(s, u, i - 1, j);
    return true;
  }

  predicate DescendingFrom(s: seq<int>, i: int) {
    forall k, l :: 0 <= i <= k < l < |s| ==> s[k] >= s[l]
  }

  /** The last loop of `next`: turns round everything from position `i` on. */
  method ReverseFrom(a: array<int>, first: nat)
    requires first <= a.Length
    modifies a
    ensures a[..] == old(a[..first]) + Backwards(old(a[first..]))
  {
    ghost var u := a[..];
    var i, j := first, a.Length - 1;
    while i < j
      invariant first <= i <= j + 1 <= a.Length && i - first == a.Length - 1 - j
      invariant forall k {:trigger a[k]} :: 0 <= k < first ==> a[k] == u[k]
      invariant forall k {:trigger a[k]} :: i <= k <= j ==> a[k] == u[k]
      invariant forall k {:trigger a[k]} :: first <= k < i ==> a[k] == u[a.Length - 1 - (k - first)]
      invariant forall k {:trigger a[k]} :: j < k < a.Length ==> a[k] == u[a.Length - 1 - (k - first)]
    {
      a[i], a[j] := a[j], a[i];
      i := i + 1;
      j := j - 1;
    }
    MirrorIs(u, a[..], first);
  }

  lemma {:induction false} MirrorIs(u: seq<int>, t: seq<int>, first: nat)
    requires first <= |u| == |t|
    requires forall k :: 0 <= k < first ==> t[k] == u[k]
    requires forall k {:trigger t[k]} :: first <= k < |u| ==> t[k] == u[|u| - 1 - (k - first)]
    ensures t == u[..first] + Backwards(u[first..])
  {
    BackwardsIs(u[first..]);
  }

  function Backwards(s: seq<int>): seq<int> {
    if s == [] then [] else Backwards(s[1..]) + [s[0]]
  }

  lemma {:induction false} BackwardsIs(s: seq<int>)
    ensures |Backwards(s)| == |s| && multiset(Backwards(s)) == multiset(s)
    ensures forall k :: 0 <= k < |s| ==> Backwards(s)[k] == s[|s| - 1 - k]
    decreases |s|
  {
    if s != [] {
      BackwardsIs(s[1..]);
      assert s == [s[0]] + s[1..];
    }
  }

  lemma {:induction false} Turned(s: seq<int>, u: seq<int>, x: nat, m: nat)
    requires x < m < |s| == |u| && u == s[x := s[m]][m := s[x]]
    requires DescendingFrom(s, x + 1) && s[m] > s[x]
    requires forall k :: m < k < |s| ==> s[k] <= s[x]
    ensures IsSuccessor(s, u[..x + 1] + Backwards(u[x + 1..]))
  {
    var w := u[x + 1..];
    var t := u[..x + 1] + Backwards(w);
    BackwardsIs(w);
    SwapPermutes(s, x, m);
    assert u == u[..x + 1] + w;
    assert multiset(t) == multiset(u);
    assert s[..x] == t[..x];
    assert t[x + 1..] == Backwards(w);
    assert Descending(w);
    SteppedIsSuccessor(s, t, x);
  }

  // ----- `permut` -----

  /** All permutations of a bag, the measure of the enumeration. */
  ghost function Perms(m: multiset<int>): set<seq<int>>
    decreases |m|
  {
    if |m| == 0 then {[]}
    else set x, p | x in m && p in Perms(m - multiset{x}) :: [x] + p
  }

  lemma {:induction false} PermsAre(m: multiset<int>, p: seq<int>)
    ensures p in Perms(m) <==> multiset(p) == m
    decreases |m|
  {
    if |m| == 0 {
      assert m == multiset{};
      assert multiset(p) == m ==> |p| == |multiset(p)| == 0;
    } else if p == [] {
      assert multiset(p) == multiset{};
    } else {
      var x, q := p[0], p[1..];
      assert p == [x] + q;
      BagHead(m, x, q);
      if x in m { PermsAre(m - multiset{x}, q); }
      PermsStep(m, x, q);
    }
  }

  lemma {:induction false} BagHead(m: multiset<int>, x: int, q: seq<int>)
    ensures multiset([x] + q) == m <==> x in m && multiset(q) == m - multiset{x}
  {
    assert multiset([x] + q) == multiset{x} + multiset(q);
  }

  lemma {:induction false} PermsStep(m: multiset<int>, x: int, q: seq<int>)
    requires |m| > 0
    ensures [x] + q in Perms(m) <==> x in m && q in Perms(m - multiset{x})
  {
    if [x] + q in Perms(m) {
      var y, r :| y in m && r in Perms(m - multiset{y}) && [x] + q == [y] + r;
      assert ([x] + q)[0] == ([y] + r)[0] && ([x] + q)[1..] == ([y] + r)[1..];
      assert r == ([y] + r)[1..] && q == ([x] + q)[1..];
    }
  }

  ghost function Above(s: seq<int>): set<seq<int>> {
    set p | p in Perms(multiset(s)) && Less(s, p)
  }

  lemma {:induction false} SuccessorShrinks(s: seq<int>, t: seq<int>)
    requires IsSuccessor(s, t)
    ensures |Above(t)| < |Above(s)|
  {
    forall p | p in Above(t) ensures p in Above(s) { LessTransitive(s, t, p); }
    PermsAre(multiset(s), t);
    LessIrreflexive(t);
    assert t in Above(s) && t !in Above(t);
    SubsetSize(Above(t), Above(s) - {t});
  }

  lemma {:induction false} SubsetSize(a: set<seq<int>>, b: set<seq<int>>)
    requires a <= b
    ensures |a| <= |b|
    decreases a
  {
    if x :| x in a {
      SubsetSize(a - {x}, b - {x});
    }
  }

  function Insert(x: int, s: seq<int>): seq<int> {
    if s == [] || x <= s[0] then [x] + s else [s[0]] + Insert(x, s[1..])
  }

  lemma {:induction false} InsertBag(x: int, s: seq<int>)
    ensures multiset(Insert(x, s)) == multiset{x} + multiset(s)
    decreases |s|
  {
    if s != [] && x > s[0] {
      InsertBag(x, s[1..]);
      assert s == [s[0]] + s[1..];
    }
  }

  lemma {:induction false} InsertAscending(x: int, s: seq<int>)
    requires Ascending(s)
    ensures Ascending(Insert(x, s)) && forall k :: 0 <= k < |Insert(x, s)| ==>
      Insert(x, s)[k] == x || Insert(x, s)[k] in s
    decreases |s|
  {
    if s != [] && x > s[0] {
      InsertAscending(x, s[1..]);
    }
  }

  function SortedOf(s: seq<int>): (r: seq<int>)
    ensures Ascending(r) && multiset(r) == multiset(s)
  {
    if s == [] then [] else
    assert s == [s[0]] + s[1..];
    InsertBag(s[0], SortedOf(s[1..])); InsertAscending(s[0], SortedOf(s[1..]));
    Insert(s[0], SortedOf(s[1..]))
  }

  /** The declared contract of `sort`. */
  method Sort(a: array<int>)
    modifies a
    ensures Ascending(a[..]) && Permutes(a[..], old(a[..]))
  {
    var r := SortedOf(a[..]);
    SameLength(r, a[..]);
    forall i | 0 <= i < a.Length { a[i] := r[i]; }
    assert a[..] == r;
  }

  /** Listed in strictly increasing order, so no permutation occurs twice. */
  ghost predicate Increasing(l: seq<seq<int>>) {
    forall i, j :: 0 <= i < j < |l| ==> Less(l[i], l[j])
  }

  /** Every distinct permutation of the array, once each, in lexicographic order; the single
      permutation of the empty array is not listed. */
  method Permut(a: array<int>) returns (l: seq<seq<int>>)
    modifies a
    ensures a.Length == 0 ==> l == []
    ensures a.Length > 0 <==> forall p :: p in l <==> Permutes(p, old(a[..]))
    ensures Increasing(l)
  {
    l := [];
    if a.Length == 0 {
      assert a[..] == [] && Permutes([], a[..]);
      return;
    }
    ghost var s0 := a[..];
    Sort(a);
    l := l + [a[..]];
    ghost var cur := a[..];
    forall p | Permutes(p, s0) && !Less(cur, p) ensures p in l { OnlyFirst(cur, p); }
    var more := Next(a);
    while more
      invariant l != [] && cur == l[|l| - 1] && Permutes(cur, s0) && Increasing(l)
      invariant forall p :: p in l ==> Permutes(p, s0)
      invariant forall p :: Permutes(p, s0) && !Less(cur, p) ==> p in l
      invariant if more then IsSuccessor(cur, a[..]) else IsLast(cur)
      decreases if more then 1 + |Above(a[..])| else 0
    {
      ghost var t := a[..];
      Extend(l, cur, t, s0);
      l := l + [a[..]];
      cur := t;
      more := Next(a);
      if more { SuccessorShrinks(t, a[..]); }
    }
  }

  lemma {:induction false} OnlyFirst(s: seq<int>, p: seq<int>)
    requires Ascending(s) && Permutes(p, s) && !Less(s, p)
    ensures p == s
  {
    SameLength(p, s);
    AscendingIsFirst(s, p);
    LessTotal(p, s);
  }

  /** Appending the successor keeps the list complete and in order. */
  lemma {:induction false} Extend(l: seq<seq<int>>, cur: seq<int>, t: seq<int>, s0: seq<int>)
    requires l != [] && cur == l[|l| - 1] && Permutes(cur, s0) && Increasing(l) && IsSuccessor(cur, t)
    requires forall p :: Permutes(p, s0) && !Less(cur, p) ==> p in l
    ensures Increasing(l + [t])
    ensures forall p :: Permutes(p, s0) && !Less(t, p) ==> p in l + [t]
  {
    forall i | 0 <= i < |l| ensures Less(l[i], t) {
      if i < |l| - 1 { LessTransitive(l[i], cur, t); }
    }
    forall p | Permutes(p, s0) && !Less(t, p) ensures p in l + [t] {
      SameLength(p, t);
      LessTotal(p, t);
    }
  }
}
