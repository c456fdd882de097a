/** Generic facts about sequences, counts and sums used throughout the pool model. */
module Seqs {

  /** No element occurs twice. */
  predicate Distinct<T(==)>(s: seq<T>) {
    forall i, j :: 0 <= i < j < |s| ==> s[i] != s[j]
  }

  function Min(a: int, b: int): int { if a <= b then a else b }

  function Pow2(k: nat): (p: nat)
    ensures p >= 1
  {
    if k == 0 then 1 else 2 * Pow2(k - 1)
  }

  /** Sum of a sequence of naturals. */
  function Sum(s: seq<nat>): nat {
    if s == [] then 0 else Sum(s[..|s| - 1]) + s[|s| - 1]
  }

  /** Σ over the keys `es` of how often each occurs in `ms`. */
  function SumCounts<T>(es: seq<T>, ms: multiset<T>): nat {
    if es == [] then 0 else SumCounts(es[..|es| - 1], ms) + ms[es[|es| - 1]]
  }

  /** Σ over the keys `es` of the real values `m` holds for them. */
  function SumReal<T>(es: seq<T>, m: map<T, real>): real
    requires forall e <- es :: e in m
  {
    if es == [] then 0.0 else SumReal(es[..|es| - 1], m) + m[es[|es| - 1]]
  }

  lemma {:induction false} DistinctPrefix<T>(s: seq<T>, k: nat)
    requires Distinct(s) && k <= |s|
    ensures Distinct(s[..k])
  {
  }

  /** Adding one more occurrence of a key raises the count sum by one. */
  lemma {:induction false} SumCountsAddOne<T>(es: seq<T>, ms: multiset<T>, y: T)
    requires Distinct(es) && y in es
    ensures SumCounts(es, ms + multiset{y}) == SumCounts(es, ms) + 1
  {
    var last := es[|es| - 1];
    var init := es[..|es| - 1];
    if last == y {
      assert y !in init;
      SumCountsAbsent(init, ms, y);
    } else {
      assert y in init;
      SumCountsAddOne(init, ms, y);
    }
  }

  /** A key outside `es` does not change the count sum. */
  lemma {:induction false} SumCountsAbsent<T>(es: seq<T>, ms: multiset<T>, y: T)
    requires y !in es
    ensures SumCounts(es, ms + multiset{y}) == SumCounts(es, ms)
  {
    if es != [] {
      SumCountsAbsent(es[..|es| - 1], ms, y);
    }
  }

  /** Counting every element of `k` against distinct keys that cover it gives |k|. */
  lemma {:induction false} SumCountsCovers<T>(es: seq<T>, k: seq<T>)
    requires Distinct(es)
    requires forall y <- k :: y in es
    ensures SumCounts(es, multiset(k)) == |k|
  {
    if k == [] {
      SumCountsEmpty(es);
    } else {
      var init := k[..|k| - 1];
      assert k == init + [k[|k| - 1]];
      SumCountsCovers(es, init);
      SumCountsAddOne(es, multiset(init), k[|k| - 1]);
    }
  }

  lemma {:induction false} SumCountsEmpty<T>(es: seq<T>)
    ensures SumCounts(es, multiset{}) == 0
  {
    if es != [] {
      SumCountsEmpty(es[..|es| - 1]);
    }
  }

  /** Raising the value of one key in a real-valued table raises its sum by the same amount. */
  lemma {:induction false} SumRealUpdate<T>(es: seq<T>, m: map<T, real>, x: T, c: real)
    requires Distinct(es) && x in es
    requires forall e <- es :: e in m
    ensures forall e <- es :: e in m[x := m[x] + c]
    ensures SumReal(es, m[x := m[x] + c]) == SumReal(es, m) + c
  {
    var m' := m[x := m[x] + c];
    var init := es[..|es| - 1];
    if es[|es| - 1] == x {
      assert x !in init;
      SumRealAgree(init, m, m');
    } else {
      SumRealUpdate(init, m, x, c);
    }
  }

  /** Tables that agree on the keys have the same sum. */
  lemma {:induction false} SumRealAgree<T>(es: seq<T>, m: map<T, real>, m': map<T, real>)
    requires forall e <- es :: e in m && e in m' && m[e] == m'[e]
    ensures SumReal(es, m) == SumReal(es, m')
  {
    if es != [] {
      SumRealAgree(es[..|es| - 1], m, m');
    }
  }

  /** Sums of non-negative values are non-negative and bound each summand. */
  lemma {:induction false} SumRealNonNeg<T>(es: seq<T>, m: map<T, real>)
    requires forall e <- es :: e in m && m[e] >= 0.0
    ensures SumReal(es, m) >= 0.0
  {
    if es != [] {
      SumRealNonNeg(es[..|es| - 1], m);
    }
  }

  /** Σ over the keys `es` of the counts `m` holds for them. */
  function SumNat<T>(es: seq<T>, m: map<T, nat>): nat
    requires forall e <- es :: e in m
  {
    if es == [] then 0 else SumNat(es[..|es| - 1], m) + m[es[|es| - 1]]
  }

  /** Raising the count of one key raises the sum by one. */
  lemma {:induction false} SumNatIncrement<T>(es: seq<T>, m: map<T, nat>, x: T)
    requires Distinct(es) && x in es
    requires forall e <- es :: e in m
    ensures forall e <- es :: e in m[x := m[x] + 1]
    ensures SumNat(es, m[x := m[x] + 1]) == SumNat(es, m) + 1
  {
    var init := es[..|es| - 1];
    if es[|es| - 1] == x {
      assert x !in init;
      SumNatAgree(init, m, m[x := m[x] + 1]);
    } else {
      SumNatIncrement(init, m, x);
    }
  }

  /** Tables that agree on the keys have the same sum. */
  lemma {:induction false} SumNatAgree<T>(es: seq<T>, m: map<T, nat>, m': map<T, nat>)
    requires forall e <- es :: e in m && e in m' && m[e] == m'[e]
    ensures SumNat(es, m) == SumNat(es, m')
  {
    if es != [] {
      SumNatAgree(es[..|es| - 1], m, m');
    }
  }

  /** A new key at the end adds its count to the sum. */
  lemma SumNatNewKey<T>(es: seq<T>, m: map<T, nat>, x: T, v: nat)
    requires x !in es && forall e <- es :: e in m
    ensures forall e <- es + [x] :: e in m[x := v]
    ensures SumNat(es + [x], m[x := v]) == SumNat(es, m) + v
  {
    assert (es + [x])[..|es|] == es;
    SumNatAgree(es, m, m[x := v]);
  }
}
