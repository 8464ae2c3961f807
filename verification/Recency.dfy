/**
 * Recency order: the order an `OrderedDict` keeps when every use of a key moves
 * it to the end. The request limiter, the bounded cache and the metrics registry
 * all evict from the front of such an order.
 */
module Recency {

  ghost predicate Distinct<K(!new)>(s: seq<K>) {
    forall i, j :: 0 <= i < j < |s| ==> s[i] != s[j]
  }

  ghost function Elements<K(!new)>(s: seq<K>): set<K> {
    set x | x in s
  }

  /** `s` with every occurrence of `k` taken out. */
  function Without<K(==,!new)>(s: seq<K>, k: K): (r: seq<K>)
    ensures forall x :: x in r <==> x in s && x != k
    ensures k !in s ==> r == s
  {
    if s == [] then []
    else if s[0] == k then Without(s[1..], k)
    else [s[0]] + Without(s[1..], k)
  }

  /** `move_to_end(k)`, or insertion at the end when `k` is new. */
  function Touch<K(==,!new)>(s: seq<K>, k: K): seq<K> {
    Without(s, k) + [k]
  }

  lemma {:induction false} WithoutDistinct<K(!new)>(s: seq<K>, k: K)
    requires Distinct(s)
    ensures Distinct(Without(s, k))
    ensures |Without(s, k)| == |s| - (if k in s then 1 else 0)
  {
    if s != [] {
      WithoutDistinct(s[1..], k);
      if s[0] == k {
        assert k !in s[1..];
      } else {
        assert s[0] !in s[1..];
        assert forall j :: 0 <= j < |Without(s[1..], k)| ==> Without(s[1..], k)[j] in s[1..];
      }
    }
  }

  lemma TouchIsDistinct<K(!new)>(s: seq<K>, k: K)
    requires Distinct(s)
    ensures Distinct(Touch(s, k))
    ensures forall x :: x in Touch(s, k) <==> x in s || x == k
    ensures |Touch(s, k)| == |s| + (if k in s then 0 else 1)
  {
    WithoutDistinct(s, k);
    var w := Without(s, k);
    assert forall i :: 0 <= i < |w| ==> w[i] in w;
  }

  lemma {:induction false} WithoutConcat<K(!new)>(a: seq<K>, b: seq<K>, k: K)
    ensures Without(a + b, k) == Without(a, k) + Without(b, k)
  {
    if a == [] {
      assert a + b == b;
    } else {
      assert (a + b)[1..] == a[1..] + b;
      WithoutConcat(a[1..], b, k);
    }
  }

  lemma {:induction false} DistinctCardinality<K(!new)>(s: seq<K>)
    requires Distinct(s)
    ensures |Elements(s)| == |s|
  {
    if s != [] {
      DistinctCardinality(s[1..]);
      assert s[0] !in s[1..];
      assert Elements(s) == {s[0]} + Elements(s[1..]);
    }
  }

  // ----- uses -------------------------------------------------------------

  /** Index of the last use of `k`, -1 when it was never used. */
  function LastUse<K(==,!new)>(uses: seq<K>, k: K): (i: int)
    ensures -1 <= i < |uses|
    ensures i >= 0 ==> uses[i] == k
    ensures forall j :: i < j < |uses| ==> uses[j] != k
  {
    if uses == [] then -1
    else if uses[|uses| - 1] == k then |uses| - 1
    else LastUse(uses[..|uses| - 1], k)
  }

  /** The keys used strictly after the last use of `k`. */
  ghost function UsedSince<K(!new)>(uses: seq<K>, k: K): set<K> {
    set i | LastUse(uses, k) < i < |uses| :: uses[i]
  }

  /** `order` lists used keys, the least recently used first. */
  ghost predicate ByLastUse<K(!new)>(order: seq<K>, uses: seq<K>) {
    && (forall i :: 0 <= i < |order| ==> LastUse(uses, order[i]) >= 0)
    && (forall i, j :: 0 <= i < j < |order| ==> LastUse(uses, order[i]) < LastUse(uses, order[j]))
  }

  lemma LastUseOfAppend<K(!new)>(uses: seq<K>, k: K)
    ensures forall x :: LastUse(uses + [k], x) == if x == k then |uses| else LastUse(uses, x)
  {
    assert (uses + [k])[..|uses|] == uses;
  }

  lemma ByLastUseIsDistinct<K(!new)>(order: seq<K>, uses: seq<K>)
    requires ByLastUse(order, uses)
    ensures Distinct(order)
  {
  }

  lemma HeadIsOldest<K(!new)>(order: seq<K>, uses: seq<K>, x: K)
    requires ByLastUse(order, uses) && order != [] && x in order[1..]
    ensures LastUse(uses, order[0]) < LastUse(uses, x)
  {
    var j :| 0 <= j < |order[1..]| && order[1..][j] == x;
    assert order[j + 1] == x;
  }

  lemma ByLastUseCons<K(!new)>(head: K, order: seq<K>, uses: seq<K>)
    requires ByLastUse(order, uses) && LastUse(uses, head) >= 0
    requires forall x :: x in order ==> LastUse(uses, head) < LastUse(uses, x)
    ensures ByLastUse([head] + order, uses)
  {
    assert forall i :: 0 <= i < |order| ==> order[i] in order;
  }

  lemma {:induction false} ByLastUseWithout<K(!new)>(order: seq<K>, uses: seq<K>, k: K)
    requires ByLastUse(order, uses)
    ensures ByLastUse(Without(order, k), uses)
  {
    if order != [] {
      var rest := order[1..];
      ByLastUseWithout(rest, uses, k);
      forall x | x in Without(rest, k)
        ensures LastUse(uses, order[0]) < LastUse(uses, x)
      {
        HeadIsOldest(order, uses, x);
      }
      if order[0] != k {
        ByLastUseCons(order[0], Without(rest, k), uses);
      }
    }
  }

  /** Using a key keeps the order sorted by last use. */
  lemma UseKeepsOrder<K(!new)>(order: seq<K>, uses: seq<K>, k: K)
    requires ByLastUse(order, uses)
    ensures ByLastUse(Touch(order, k), uses + [k])
  {
    ByLastUseWithout(order, uses, k);
    LastUseOfAppend(uses, k);
    var w := Without(order, k);
    assert forall i :: 0 <= i < |w| ==> w[i] in w && w[i] != k;
  }

  /** Whoever stands behind a key in the order was used after it. */
  lemma OvertakenBy<K(!new)>(order: seq<K>, uses: seq<K>, i: nat)
    requires ByLastUse(order, uses)
    requires i < |order|
    ensures Elements(order[i + 1..]) <= UsedSince(uses, order[i])
    ensures |UsedSince(uses, order[i])| >= |order| - 1 - i
  {
    var behind := order[i + 1..];
    forall x | x in behind
      ensures x in UsedSince(uses, order[i])
    {
      var j :| 0 <= j < |behind| && behind[j] == x;
      assert x == order[i + 1 + j];
      assert uses[LastUse(uses, x)] == x;
    }
    ByLastUseIsDistinct(order, uses);
    DistinctCardinality(behind);
    CardinalityIsMonotone(Elements(behind), UsedSince(uses, order[i]));
  }

  /** A key cut off the front was overtaken by everything that stayed. */
  lemma CutOffIsOvertaken<K(!new)>(order: seq<K>, uses: seq<K>, cut: nat, k: K)
    requires ByLastUse(order, uses) && cut <= |order|
    requires k in order && k !in order[cut..]
    ensures cut > 0 && |UsedSince(uses, k)| >= |order| - cut
  {
    assert order == order[..cut] + order[cut..];
    var i :| 0 <= i < cut && order[..cut][i] == k;
    OvertakenBy(order, uses, i);
  }

  lemma CardinalityIsMonotone<T>(a: set<T>, b: set<T>)
    requires a <= b
    ensures |a| <= |b|
  {
    assert b == a + (b - a);
  }

  // ----- the unbounded order and its bounded window -----------------------

  /** Every key ever used, least recently used first. */
  function FullOrder<K(==,!new)>(uses: seq<K>): seq<K> {
    if uses == [] then [] else Touch(FullOrder(uses[..|uses| - 1]), uses[|uses| - 1])
  }

  /** The last `n` elements, or all of them. */
  function TakeLast<T>(s: seq<T>, n: nat): seq<T> {
    if |s| <= n then s else s[|s| - n..]
  }

  lemma {:induction false} FullOrderIsByLastUse<K(!new)>(uses: seq<K>)
    ensures ByLastUse(FullOrder(uses), uses)
    ensures forall k :: k in FullOrder(uses) <==> k in uses
  {
    if uses != [] {
      var before, k := uses[..|uses| - 1], uses[|uses| - 1];
      FullOrderIsByLastUse(before);
      UseKeepsOrder(FullOrder(before), before, k);
      assert uses == before + [k];
    }
  }

  lemma TakeLastOfConcat<T>(front: seq<T>, back: seq<T>, n: nat)
    requires |back| >= n
    ensures TakeLast(front + back, n) == TakeLast(back, n)
  {
  }

  /**
   * A list that keeps only the `cap` most recently used keys stays a window of
   * the unbounded order: touching and then cutting the front off is the same as
   * touching the unbounded order and looking at its last `cap` keys.
   */
  lemma BoundedTouch<K(!new)>(full: seq<K>, cap: nat, k: K)
    requires Distinct(full)
    ensures TakeLast(Touch(TakeLast(full, cap), k), cap) == TakeLast(Touch(full, k), cap)
  {
    if |full| > cap {
      var front, recent := full[..|full| - cap], full[|full| - cap..];
      assert full == front + recent;
      WithoutConcat(front, recent, k);
      WithoutDistinct(recent, k);
      assert Touch(full, k) == Without(front, k) + Touch(recent, k);
      TakeLastOfConcat(Without(front, k), Touch(recent, k), cap);
    }
  }

  lemma InTakeLast<K(!new)>(s: seq<K>, n: nat, i: nat)
    requires Distinct(s) && i < |s|
    ensures s[i] in TakeLast(s, n) <==> i >= |s| - n
  {
    if |s| > n {
      var cut := |s| - n;
      if i >= cut {
        assert s[cut..][i - cut] == s[i];
      }
    }
  }

  /** In the unbounded order, the keys behind a key are exactly the ones used after it. */
  lemma BehindIsUsedSince<K(!new)>(uses: seq<K>, i: nat)
    requires i < |FullOrder(uses)|
    ensures |UsedSince(uses, FullOrder(uses)[i])| == |FullOrder(uses)| - 1 - i
  {
    var full := FullOrder(uses);
    FullOrderIsByLastUse(uses);
    ByLastUseIsDistinct(full, uses);
    OvertakenBy(full, uses, i);
    var behind := full[i + 1..];
    forall x | x in UsedSince(uses, full[i])
      ensures x in Elements(behind)
    {
      var m :| LastUse(uses, full[i]) < m < |uses| && uses[m] == x;
      assert x in full;
      var j :| 0 <= j < |full| && full[j] == x;
      assert LastUse(uses, x) >= m;
      assert j > i;
      assert behind[j - i - 1] == x;
    }
    assert UsedSince(uses, full[i]) == Elements(behind);
    DistinctCardinality(behind);
  }

  /**
   * Exact membership of the bounded window: a used key is among the `cap` most
   * recent ones iff fewer than `cap` distinct other keys were used after it.
   */
  lemma RecentIffFewSince<K(!new)>(uses: seq<K>, cap: nat, k: K)
    requires k in uses
    ensures k in TakeLast(FullOrder(uses), cap) <==> |UsedSince(uses, k)| < cap
  {
    var full := FullOrder(uses);
    FullOrderIsByLastUse(uses);
    ByLastUseIsDistinct(full, uses);
    assert k in full;
    var i :| 0 <= i < |full| && full[i] == k;
    BehindIsUsedSince(uses, i);
    InTakeLast(full, cap, i);
  }
}
