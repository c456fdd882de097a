/** The outcome loop of gen_comparisons: crediting each outcome's winners, then ranking the entrants by credit. */
module Credits {
  import opened Seqs
  import opened Wrappers
  import opened Teams
  import opened Comparisons

  /** What the outcome loop accumulates: `pnt_tot` (share of outcomes won) and `big_comp` (outcomes won). */
  datatype Tally = Tally(pnt: map<string, real>, big: map<string, seq<seq<TeamId>>>)

  /** Before any outcome: every entrant at 0.0 with no outcome recorded. */
  function Initial(entrants: seq<string>): (t: Tally)
    ensures t.pnt.Keys == t.big.Keys
    ensures forall e <- entrants :: e in t.pnt && t.pnt[e] == 0.0 && t.big[e] == []
    ensures forall e <- t.pnt.Keys :: e in entrants
  {
    Tally(map e | e in entrants :: 0.0, map e | e in entrants :: [])
  }

  /** The credit of each entry of the winner list: `1.0 / len(pkey)`. */
  function Share(pkey: seq<string>): (share: real)
    ensures share >= 0.0
    ensures pkey != [] ==> share * (|pkey| as real) == 1.0
  {
    if pkey == [] then 0.0 else 1.0 / (|pkey| as real)
  }

  /** The inner loop over `pkey`: each entry adds `share` to its entrant and records the outcome once more. */
  function Credit(t: Tally, pkey: seq<string>, share: real, out: seq<TeamId>): (r: Tally)
    requires forall w <- pkey :: w in t.pnt && w in t.big
    ensures r.pnt.Keys == t.pnt.Keys && r.big.Keys == t.big.Keys
  {
    if pkey == [] then t
    else
      var r := Credit(t, pkey[..|pkey| - 1], share, out);
      var w := pkey[|pkey| - 1];
      Tally(r.pnt[w := r.pnt[w] + share], r.big[w := r.big[w] + [out]])
  }

  /** Every entry of the winner list is an entrant. */
  lemma {:induction false} ScanMembers(names: seq<string>, totals: seq<nat>)
    requires |names| == |totals|
    ensures forall w <- ScanTotals(names, totals).pkey :: w in names
  {
    if names != [] {
      var n, t := names[..|names| - 1], totals[..|totals| - 1];
      ScanMembers(n, t);
      assert forall w <- n :: w in names;
    }
  }

  /** One outcome's winner list: the scan over the entrants' totals, or the first entrant's failure. */
  function OutcomeWinners(entrants: seq<string>, answers: map<string, seq<string>>, startpts: map<string, nat>,
                          out: seq<TeamId>): (r: Result<seq<string>>)
    requires forall e <- entrants :: e in answers
    ensures r.Ok? ==> forall w <- r.value :: w in entrants
  {
    var totals :- Totals(entrants, answers, startpts, out);
    ScanMembers(entrants, totals);
    Ok(ScanTotals(entrants, totals).pkey)
  }

  /** The whole outcome loop: for each outcome in order, its winner list and their credit. */
  function Aggregate(entrants: seq<string>, answers: map<string, seq<string>>, startpts: map<string, nat>,
                     outs: seq<seq<TeamId>>): (r: Result<Tally>)
    requires forall e <- entrants :: e in answers
    ensures r.Ok? ==> forall e <- entrants :: e in r.value.pnt && e in r.value.big
  {
    if outs == [] then Ok(Initial(entrants))
    else
      var t :- Aggregate(entrants, answers, startpts, outs[..|outs| - 1]);
      var pkey :- OutcomeWinners(entrants, answers, startpts, outs[|outs| - 1]);
      Ok(Credit(t, pkey, Share(pkey), outs[|outs| - 1]))
  }

  /** The inner loop over `pkey`: credit each listed entrant with `1.0 / len(pkey)` and record the outcome. */
  method CreditWinners(pnt0: map<string, real>, big0: map<string, seq<seq<TeamId>>>, pkey: seq<string>,
                       out: seq<TeamId>) returns (pnt: map<string, real>, big: map<string, seq<seq<TeamId>>>)
    requires forall w <- pkey :: w in pnt0 && w in big0
    ensures Tally(pnt, big) == Credit(Tally(pnt0, big0), pkey, Share(pkey), out)
  {
    pnt, big := pnt0, big0;
    for k := 0 to |pkey|
      invariant Tally(pnt, big) == Credit(Tally(pnt0, big0), pkey[..k], Share(pkey), out)
    {
      assert pkey[..k + 1][..k] == pkey[..k];
      var entrant := pkey[k];
      pnt := pnt[entrant := pnt[entrant] + 1.0 / (|pkey| as real)];
      big := big[entrant := big[entrant] + [out]];
    }
    assert pkey[..|pkey|] == pkey;
  }

  /** The setup loop and the outcome loop of gen_comparisons. */
  method CreditOutcomes(entrants: seq<string>, answers: map<string, seq<string>>, startpts: map<string, nat>,
                        outs: seq<seq<TeamId>>) returns (r: Result<Tally>)
    requires forall e <- entrants :: e in answers
    ensures r == Aggregate(entrants, answers, startpts, outs)
  {
    var pnt: map<string, real> := map[];
    var big: map<string, seq<seq<TeamId>>> := map[];
    for i := 0 to |entrants|
      invariant pnt == map e | e in entrants[..i] :: 0.0
      invariant big == map e | e in entrants[..i] :: []
    {
      assert entrants[..i + 1] == entrants[..i] + [entrants[i]];
      big := big[entrants[i] := []];
      pnt := pnt[entrants[i] := 0.0];
    }
    assert entrants[..|entrants|] == entrants;
    for j := 0 to |outs|
      invariant Aggregate(entrants, answers, startpts, outs[..j]) == Ok(Tally(pnt, big))
    {
      assert outs[..j + 1][..j] == outs[..j];
      var scan := ScanOutcome(entrants, answers, startpts, outs[j]);
      if scan.Err? {
        AggregateErrSticks(entrants, answers, startpts, outs, j + 1);
        return Err(scan.error);
      }
      assert scan.value.pkey == OutcomeWinners(entrants, answers, startpts, outs[j]).value;
      pnt, big := CreditWinners(pnt, big, scan.value.pkey, outs[j]);
    }
    assert outs[..|outs|] == outs;
    return Ok(Tally(pnt, big));
  }

  /** A successful loop is the loop over all outcomes but the last, then the last outcome's credit. */
  lemma AggregateLast(entrants: seq<string>, answers: map<string, seq<string>>, startpts: map<string, nat>,
                      outs: seq<seq<TeamId>>)
    requires forall e <- entrants :: e in answers
    requires outs != [] && Aggregate(entrants, answers, startpts, outs).Ok?
    ensures Aggregate(entrants, answers, startpts, outs[..|outs| - 1]).Ok?
    ensures OutcomeWinners(entrants, answers, startpts, outs[|outs| - 1]).Ok?
    ensures var t := Aggregate(entrants, answers, startpts, outs[..|outs| - 1]).value;
            var pkey := OutcomeWinners(entrants, answers, startpts, outs[|outs| - 1]).value;
            Aggregate(entrants, answers, startpts, outs).value == Credit(t, pkey, Share(pkey), outs[|outs| - 1])
  {
  }

  /** A failing outcome fails the whole loop with its error. */
  lemma {:induction false} AggregateErrSticks(entrants: seq<string>, answers: map<string, seq<string>>,
                                              startpts: map<string, nat>, outs: seq<seq<TeamId>>, j: nat)
    requires forall e <- entrants :: e in answers
    requires j <= |outs| && Aggregate(entrants, answers, startpts, outs[..j]).Err?
    ensures Aggregate(entrants, answers, startpts, outs) == Aggregate(entrants, answers, startpts, outs[..j])
  {
    if j < |outs| {
      var init := outs[..|outs| - 1];
      assert init[..j] == outs[..j];
      AggregateErrSticks(entrants, answers, startpts, init, j);
    } else {
      assert outs[..j] == outs;
    }
  }

  // ---------------------------------------------------------------------------
  // What the credits add up to
  // ---------------------------------------------------------------------------

  lemma {:induction false} SumRealZero<T>(es: seq<T>, m: map<T, real>)
    requires forall e <- es :: e in m && m[e] == 0.0
    ensures SumReal(es, m) == 0.0
  {
    if es != [] {
      SumRealZero(es[..|es| - 1], m);
    }
  }

  /** `n` shares added one after another. */
  function Repeat(n: nat, share: real): real {
    if n == 0 then 0.0 else Repeat(n - 1, share) + share
  }

  lemma {:induction false} RepeatIsProduct(n: nat, share: real)
    ensures Repeat(n, share) == (n as real) * share
  {
    if n > 0 {
      RepeatIsProduct(n - 1, share);
      assert (n as real) * share == ((n - 1) as real) * share + share;
    }
  }

  /** Crediting a winner list adds `share` once per entry to the sum over all entrants. */
  lemma {:induction false} CreditSum(es: seq<string>, t: Tally, pkey: seq<string>, share: real, out: seq<TeamId>)
    requires Distinct(es)
    requires forall e <- es :: e in t.pnt && e in t.big
    requires forall w <- pkey :: w in es
    ensures SumReal(es, Credit(t, pkey, share, out).pnt) == SumReal(es, t.pnt) + Repeat(|pkey|, share)
  {
    if pkey != [] {
      var init := pkey[..|pkey| - 1];
      assert forall w <- init :: w in pkey;
      CreditSum(es, t, init, share, out);
      var r := Credit(t, init, share, out);
      SumRealUpdate(es, r.pnt, pkey[|pkey| - 1], share);
    }
  }

  /** With at least one entrant, each outcome hands out exactly 1.0 in all, so the credits add up to the number of outcomes. */
  lemma {:induction false} CreditsTotal(entrants: seq<string>, answers: map<string, seq<string>>,
                                        startpts: map<string, nat>, outs: seq<seq<TeamId>>)
    requires forall e <- entrants :: e in answers
    requires Distinct(entrants) && |entrants| >= 1
    requires Aggregate(entrants, answers, startpts, outs).Ok?
    ensures SumReal(entrants, Aggregate(entrants, answers, startpts, outs).value.pnt) == |outs| as real
  {
    if outs == [] {
      SumRealZero(entrants, Initial(entrants).pnt);
    } else {
      var init := outs[..|outs| - 1];
      var out := outs[|outs| - 1];
      AggregateLast(entrants, answers, startpts, outs);
      CreditsTotal(entrants, answers, startpts, init);
      var t := Aggregate(entrants, answers, startpts, init).value;
      WinnersExist(entrants, answers, startpts, out);
      OneOutcomeTotal(entrants, t, OutcomeWinners(entrants, answers, startpts, out).value, out);
    }
  }

  /** Crediting a nonempty winner list hands out exactly 1.0 in all. */
  lemma OneOutcomeTotal(entrants: seq<string>, t: Tally, pkey: seq<string>, out: seq<TeamId>)
    requires Distinct(entrants)
    requires forall e <- entrants :: e in t.pnt && e in t.big
    requires forall w <- pkey :: w in entrants
    requires |pkey| >= 1
    ensures SumReal(entrants, Credit(t, pkey, Share(pkey), out).pnt) == SumReal(entrants, t.pnt) + 1.0
  {
    CreditSum(entrants, t, pkey, Share(pkey), out);
    RepeatIsProduct(|pkey|, Share(pkey));
    SharesMakeOne(|pkey|);
  }

  /** n shares of 1/n make one. */
  lemma SharesMakeOne(n: nat)
    requires n >= 1
    ensures (n as real) * (1.0 / (n as real)) == 1.0
  {
  }

  /** With at least one entrant, every outcome has a winner. */
  lemma WinnersExist(entrants: seq<string>, answers: map<string, seq<string>>, startpts: map<string, nat>,
                     out: seq<TeamId>)
    requires forall e <- entrants :: e in answers
    requires |entrants| >= 1 && OutcomeWinners(entrants, answers, startpts, out).Ok?
    ensures |OutcomeWinners(entrants, answers, startpts, out).value| >= 1
  {
    var totals := Totals(entrants, answers, startpts, out).value;
    ScanIsWinners(entrants, totals);
    WinnersNonEmpty(entrants, totals);
  }

  /** Every credit is non-negative, and an entrant has no credit exactly when no outcome is recorded for it. */
  ghost predicate Consistent(t: Tally, entrants: seq<string>) {
    forall e <- entrants ::
      e in t.pnt && e in t.big && t.pnt[e] >= 0.0 && (t.pnt[e] == 0.0 <==> t.big[e] == [])
  }

  /** Crediting one outcome's winner list keeps the credits and the records in agreement. */
  lemma OneOutcomeConsistent(t: Tally, entrants: seq<string>, pkey: seq<string>, out: seq<TeamId>)
    requires forall w <- pkey :: w in t.pnt && w in t.big
    requires Consistent(t, entrants)
    ensures Consistent(Credit(t, pkey, Share(pkey), out), entrants)
  {
    if pkey != [] {
      CreditConsistent(t, entrants, pkey, Share(pkey), out);
    }
  }

  lemma {:induction false} CreditConsistent(t: Tally, entrants: seq<string>, pkey: seq<string>, share: real,
                                            out: seq<TeamId>)
    requires forall w <- pkey :: w in t.pnt && w in t.big
    requires Consistent(t, entrants) && share > 0.0
    ensures Consistent(Credit(t, pkey, share, out), entrants)
  {
    if pkey != [] {
      CreditConsistent(t, entrants, pkey[..|pkey| - 1], share, out);
    }
  }

  /** Credits and recorded outcomes agree: positive credit exactly for the entrants with an outcome recorded. */
  lemma {:induction false} AggregateConsistent(entrants: seq<string>, answers: map<string, seq<string>>,
                                               startpts: map<string, nat>, outs: seq<seq<TeamId>>)
    requires forall e <- entrants :: e in answers
    requires Aggregate(entrants, answers, startpts, outs).Ok?
    ensures Consistent(Aggregate(entrants, answers, startpts, outs).value, entrants)
  {
    if outs != [] {
      var init := outs[..|outs| - 1];
      var out := outs[|outs| - 1];
      AggregateLast(entrants, answers, startpts, outs);
      AggregateConsistent(entrants, answers, startpts, init);
      var t := Aggregate(entrants, answers, startpts, init).value;
      OneOutcomeConsistent(t, entrants, OutcomeWinners(entrants, answers, startpts, out).value, out);
    }
  }

  /** Crediting records only the outcome at hand. */
  lemma {:induction false} CreditRecords(t: Tally, pkey: seq<string>, share: real, out: seq<TeamId>, e: string)
    requires forall w <- pkey :: w in t.pnt && w in t.big
    requires e in t.big
    ensures forall o <- Credit(t, pkey, share, out).big[e] :: o in t.big[e] || o == out
  {
    if pkey != [] {
      CreditRecords(t, pkey[..|pkey| - 1], share, out, e);
    }
  }

  /** Every outcome recorded for an entrant is one of the enumerated outcomes. */
  lemma {:induction false} RecordedOutcomes(entrants: seq<string>, answers: map<string, seq<string>>,
                                            startpts: map<string, nat>, outs: seq<seq<TeamId>>, e: string)
    requires forall e <- entrants :: e in answers
    requires Aggregate(entrants, answers, startpts, outs).Ok?
    requires e in entrants
    ensures forall o <- Aggregate(entrants, answers, startpts, outs).value.big[e] :: o in outs
  {
    if outs != [] {
      var init := outs[..|outs| - 1];
      var out := outs[|outs| - 1];
      AggregateLast(entrants, answers, startpts, outs);
      RecordedOutcomes(entrants, answers, startpts, init, e);
      var t := Aggregate(entrants, answers, startpts, init).value;
      var pkey := OutcomeWinners(entrants, answers, startpts, out).value;
      CreditRecords(t, pkey, Share(pkey), out, e);
      assert forall o <- init :: o in outs;
    }
  }

  /** Two entrants tied on a positive total scan to `[a, a, b]`: `a` gains 2/3 and records the outcome twice, `b` gains 1/3 and records it once. */
  lemma TieCredit(t: Tally, a: string, b: string, out: seq<TeamId>)
    requires a != b && a in t.pnt && a in t.big && b in t.pnt && b in t.big
    ensures var r := Credit(t, [a, a, b], Share([a, a, b]), out);
            r.pnt[a] == t.pnt[a] + 2.0 / 3.0 && r.pnt[b] == t.pnt[b] + 1.0 / 3.0 &&
            r.big[a] == t.big[a] + [out, out] && r.big[b] == t.big[b] + [out]
  {
    var share := Share([a, a, b]);
    assert share == 1.0 / 3.0;
    assert [a, a, b][..2] == [a, a] && [a, a][..1] == [a] && [a][..0] == [];
    assert Credit(t, [a][..0], share, out) == t;
    var t1 := Credit(t, [a], share, out);
    assert t1.pnt[a] == t.pnt[a] + share && t1.big[a] == t.big[a] + [out] && t1.pnt[b] == t.pnt[b] && t1.big[b] == t.big[b];
    assert Credit(t, [a, a][..1], share, out) == t1;
    var t2 := Credit(t, [a, a], share, out);
    assert t2.pnt[a] == t1.pnt[a] + share && t2.big[a] == t1.big[a] + [out] && t2.pnt[b] == t.pnt[b] && t2.big[b] == t.big[b];
    assert Credit(t, [a, a, b][..2], share, out) == t2;
  }

  // ---------------------------------------------------------------------------
  // sorted(pnt_tot, key=pnt_tot.get, reverse=True)
  // ---------------------------------------------------------------------------

  /** Place `x` after every entrant with at least its credit: Python's stable descending sort, one key at a time. */
  function Insert(s: seq<string>, x: string, pnt: map<string, real>): (r: seq<string>)
    requires x in pnt && forall y <- s :: y in pnt
    ensures forall y <- r :: y == x || y in s
    ensures multiset(r) == multiset(s) + multiset{x}
  {
    if s == [] then [x]
    else if pnt[s[0]] >= pnt[x] then
      assert s == [s[0]] + s[1..];
      [s[0]] + Insert(s[1..], x, pnt)
    else [x] + s
  }

  /** The keys in descending order of credit, equal credits in their original order. */
  function SortDesc(keys: seq<string>, pnt: map<string, real>): (r: seq<string>)
    requires forall k <- keys :: k in pnt
    ensures forall y <- r :: y in keys
    ensures multiset(r) == multiset(keys)
  {
    if keys == [] then []
    else
      assert keys == keys[..|keys| - 1] + [keys[|keys| - 1]];
      Insert(SortDesc(keys[..|keys| - 1], pnt), keys[|keys| - 1], pnt)
  }

  ghost predicate Descending(s: seq<string>, pnt: map<string, real>)
    requires forall k <- s :: k in pnt
  {
    forall i, j :: 0 <= i < j < |s| ==> pnt[s[i]] >= pnt[s[j]]
  }

  /** The keys whose credit is `v`, in order. */
  function WithCredit(s: seq<string>, pnt: map<string, real>, v: real): seq<string>
    requires forall k <- s :: k in pnt
  {
    if s == [] then [] else (if pnt[s[0]] == v then [s[0]] else []) + WithCredit(s[1..], pnt, v)
  }

  lemma {:induction false} WithCreditAppend(a: seq<string>, b: seq<string>, pnt: map<string, real>, v: real)
    requires forall k <- a :: k in pnt
    requires forall k <- b :: k in pnt
    ensures WithCredit(a + b, pnt, v) == WithCredit(a, pnt, v) + WithCredit(b, pnt, v)
  {
    if a != [] {
      assert (a + b)[1..] == a[1..] + b;
      WithCreditAppend(a[1..], b, pnt, v);
    } else {
      assert a + b == b;
    }
  }

  lemma {:induction false} InsertDescending(s: seq<string>, x: string, pnt: map<string, real>)
    requires x in pnt && forall y <- s :: y in pnt
    requires Descending(s, pnt)
    ensures Descending(Insert(s, x, pnt), pnt)
  {
    if s != [] && pnt[s[0]] >= pnt[x] {
      InsertDescending(s[1..], x, pnt);
      var r := Insert(s, x, pnt);
      var rest := Insert(s[1..], x, pnt);
      assert r == [s[0]] + rest;
      forall k | k in rest
        ensures pnt[s[0]] >= pnt[k]
      {
        if k != x {
          assert k in s[1..];
        }
      }
    }
  }

  /** Inserting into a descending list puts `x` after every key with its credit. */
  lemma {:induction false} InsertStable(s: seq<string>, x: string, pnt: map<string, real>, v: real)
    requires x in pnt && forall y <- s :: y in pnt
    requires Descending(s, pnt)
    ensures WithCredit(Insert(s, x, pnt), pnt, v) == WithCredit(s, pnt, v) + (if pnt[x] == v then [x] else [])
  {
    if s == [] {
    } else if pnt[s[0]] >= pnt[x] {
      InsertStable(s[1..], x, pnt, v);
      assert Insert(s, x, pnt)[1..] == Insert(s[1..], x, pnt);
    } else {
      assert ([x] + s)[1..] == s;
      if pnt[x] == v {
        WithCreditNone(s, pnt, v);
      }
    }
  }

  /** A descending list headed by a credit below `v` has no key with credit `v`. */
  lemma {:induction false} WithCreditNone(s: seq<string>, pnt: map<string, real>, v: real)
    requires forall y <- s :: y in pnt
    requires Descending(s, pnt) && s != [] && pnt[s[0]] < v
    ensures WithCredit(s, pnt, v) == []
  {
    if |s| > 1 {
      assert pnt[s[1]] <= pnt[s[0]];
      WithCreditNone(s[1..], pnt, v);
    }
  }

  /** The sort is a permutation, in descending order of credit, keeping equal credits in their original order. */
  lemma SortDescCorrect(keys: seq<string>, pnt: map<string, real>)
    requires forall k <- keys :: k in pnt
    ensures multiset(SortDesc(keys, pnt)) == multiset(keys)
    ensures Descending(SortDesc(keys, pnt), pnt)
    ensures forall v :: WithCredit(SortDesc(keys, pnt), pnt, v) == WithCredit(keys, pnt, v)
  {
    SortDescDescending(keys, pnt);
    forall v
      ensures WithCredit(SortDesc(keys, pnt), pnt, v) == WithCredit(keys, pnt, v)
    {
      SortDescStable(keys, pnt, v);
    }
  }

  lemma {:induction false} SortDescDescending(keys: seq<string>, pnt: map<string, real>)
    requires forall k <- keys :: k in pnt
    ensures Descending(SortDesc(keys, pnt), pnt)
  {
    if keys != [] {
      var init := keys[..|keys| - 1];
      SortDescDescending(init, pnt);
      InsertDescending(SortDesc(init, pnt), keys[|keys| - 1], pnt);
    }
  }

  lemma {:induction false} SortDescStable(keys: seq<string>, pnt: map<string, real>, v: real)
    requires forall k <- keys :: k in pnt
    ensures WithCredit(SortDesc(keys, pnt), pnt, v) == WithCredit(keys, pnt, v)
  {
    if keys != [] {
      var init, last := keys[..|keys| - 1], keys[|keys| - 1];
      assert keys == init + [last];
      SortDescStable(init, pnt, v);
      SortDescDescending(init, pnt);
      InsertStable(SortDesc(init, pnt), last, pnt, v);
      WithCreditAppend(init, [last], pnt, v);
    }
  }

  /** A permutation of a list without repeats has no repeats. */
  lemma DistinctPermutation(a: seq<string>, b: seq<string>)
    requires Distinct(a) && multiset(a) == multiset(b)
    ensures Distinct(b)
  {
    forall i, j | 0 <= i < j < |b|
      ensures b[i] != b[j]
    {
      if b[i] == b[j] {
        assert b == b[..j] + b[j..];
        assert b[i] in multiset(b[..j]) && b[j] in multiset(b[j..]);
        assert multiset(b)[b[i]] >= 2;
        DistinctOnce(a, b[i]);
      }
    }
  }

  lemma {:induction false} DistinctOnce(a: seq<string>, x: string)
    requires Distinct(a)
    ensures multiset(a)[x] <= 1
  {
    if a != [] {
      var init := a[..|a| - 1];
      assert a == init + [a[|a| - 1]];
      DistinctPrefix(a, |a| - 1);
      DistinctOnce(init, x);
      if x == a[|a| - 1] {
        assert x !in init;
      }
    }
  }

  /** `pctwinsnum`: every entrant's credit, keyed in the sorted order. */
  function Ranking(entrants: seq<string>, pnt: map<string, real>): (rk: Dict<string, real>)
    requires forall e <- entrants :: e in pnt
    ensures multiset(rk.keys) == multiset(entrants)
    ensures forall e :: e in rk.vals <==> e in entrants
    ensures forall e <- entrants :: rk.vals[e] == pnt[e]
  {
    Dict(SortDesc(entrants, pnt), Scores(entrants, pnt))
  }

  /** The credit of each entrant of `ks`. */
  function Scores(ks: seq<string>, pnt: map<string, real>): map<string, real>
    requires forall e <- ks :: e in pnt
  {
    map e | e in ks :: pnt[e]
  }

  lemma ScoresSnoc(ks: seq<string>, k: string, pnt: map<string, real>)
    requires forall e <- ks :: e in pnt
    requires k in pnt
    ensures Scores(ks + [k], pnt) == Scores(ks, pnt)[k := pnt[k]]
  {
  }

  lemma ScoresSameMembers(a: seq<string>, b: seq<string>, pnt: map<string, real>)
    requires forall e <- a :: e in pnt
    requires forall e :: e in a <==> e in b
    ensures Scores(a, pnt) == Scores(b, pnt)
  {
  }

  /** The ranking is a well-formed dictionary over exactly the entrants, in descending order of credit. */
  lemma RankingValid(entrants: seq<string>, pnt: map<string, real>)
    requires Distinct(entrants) && forall e <- entrants :: e in pnt
    ensures Ranking(entrants, pnt).Valid()
    ensures forall e :: e in Ranking(entrants, pnt).keys <==> e in entrants
    ensures Descending(Ranking(entrants, pnt).keys, pnt)
  {
    var order := SortDesc(entrants, pnt);
    SortDescCorrect(entrants, pnt);
    DistinctPermutation(entrants, order);
    forall e | e in entrants
      ensures e in order
    {
      assert e in multiset(order);
    }
  }

  /** The ranking loop: `pctwinsnum[kindx] = pnt_tot[kindx]` for each key in sorted order. */
  method RankByCredit(entrants: seq<string>, pnt: map<string, real>) returns (ranked: Dict<string, real>)
    requires Distinct(entrants) && forall e <- entrants :: e in pnt
    ensures ranked.Valid()
    ensures ranked == Ranking(entrants, pnt)
  {
    var order := SortDesc(entrants, pnt);
    RankingValid(entrants, pnt);
    ranked := EmptyDict();
    for i := 0 to |order|
      invariant ranked.Valid()
      invariant ranked == Dict(order[..i], Scores(order[..i], pnt))
    {
      var kindx := order[i];
      assert kindx !in order[..i];
      assert order[..i + 1] == order[..i] + [kindx];
      ScoresSnoc(order[..i], kindx, pnt);
      ranked := ranked.Put(kindx, pnt[kindx]);
    }
    assert order[..|order|] == order;
    ScoresSameMembers(order, entrants, pnt);
  }
}
