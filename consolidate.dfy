/** consolidate: the leaderboard entries of the entrants that can still win, with next-round team counts. */
module Consolidate {
  import opened Seqs
  import opened Wrappers
  import opened Teams
  import opened Picks
  import opened Credits

  /** One leaderboard entry: `wins` (outcomes recorded), `pct` (credit) and `next_round` (one count table per game). */
  datatype Standing = Standing(wins: nat, pct: real, nextRound: seq<Dict<TeamId, nat>>)

  /** Position of the `break`: the first entrant whose credit is zero, or the number of entrants. */
  function FirstZero(keys: seq<string>, pct: map<string, real>): (i: nat)
    requires forall k <- keys :: k in pct
    ensures i <= |keys|
    ensures forall j :: 0 <= j < i ==> pct[keys[j]] != 0.0
    ensures i < |keys| ==> pct[keys[i]] == 0.0
  {
    if keys == [] then 0
    else if pct[keys[0]] == 0.0 then 0
    else
      var i := 1 + FirstZero(keys[1..], pct);
      assert forall j :: 1 <= j < |keys| ==> keys[j] == keys[1..][j - 1];
      i
  }

  /** `d[k] += 1` for a known team, `d[k] = 1` for a new one. */
  function Bump<T(==)>(d: Dict<T, nat>, k: T): (r: Dict<T, nat>)
    requires d.Valid()
    ensures r.Valid()
  {
    d.Put(k, if k in d.vals then d.vals[k] + 1 else 1)
  }

  /** The teams a list of outcomes has as winner of game `c`, for the outcomes that reach game `c`. */
  function Column(entries: seq<seq<TeamId>>, c: nat): (col: seq<TeamId>)
    ensures |col| <= |entries|
    ensures (forall e <- entries :: c < |e|) ==> |col| == |entries|
  {
    if entries == [] then []
    else
      var last := entries[|entries| - 1];
      assert forall e <- entries[..|entries| - 1] :: e in entries;
      Column(entries[..|entries| - 1], c) + (if c < |last| then [last[c]] else [])
  }

  /** The count table built by bumping each team of `col` in turn. */
  function Counted<T(==)>(col: seq<T>): (d: Dict<T, nat>)
    ensures d.Valid()
  {
    if col == [] then EmptyDict() else Bump(Counted(col[..|col| - 1]), col[|col| - 1])
  }

  /** `next_round` of one entrant: for each game of the next round, how often each team wins it across the outcomes. */
  function NextRound(entries: seq<seq<TeamId>>): (rounds: seq<Dict<TeamId, nat>>)
    requires entries != []
    ensures |rounds| == (|entries[0]| + 1) / 2
  {
    seq((|entries[0]| + 1) / 2, c requires 0 <= c => Counted(Column(entries, c)))
  }

  /** The entrants kept by the first loop: those before the first zero credit. */
  function Kept(pct: Dict<string, real>): (kept: seq<string>)
    requires pct.Valid()
    ensures |kept| <= |pct.keys| && kept == pct.keys[..|kept|]
    ensures forall k <- kept :: pct.vals[k] != 0.0
    ensures |kept| < |pct.keys| ==> pct.vals[pct.keys[|kept|]] == 0.0
  {
    pct.keys[..FirstZero(pct.keys, pct.vals)]
  }

  /** consolidate as a value: an IndexError when a kept entrant has no outcome recorded, else one entry per kept entrant. */
  function ConsolidateResult(pct: Dict<string, real>, big: map<string, seq<seq<TeamId>>>): (r: Result<Dict<string, Standing>>)
    requires pct.Valid() && forall k <- pct.keys :: k in big
    ensures r.Err? <==> exists k <- Kept(pct) :: big[k] == []
    ensures r.Err? ==> r.error == IndexError
    ensures r.Ok? ==> r.value.Valid() && r.value.keys == Kept(pct)
  {
    var kept := Kept(pct);
    assert forall k <- kept :: k in pct.keys;
    if exists k <- kept :: big[k] == [] then Err(IndexError)
    else Ok(Dict(kept, Standings(kept, pct.vals, big)))
  }

  /** The finished entries for `ks`: outcome count, credit and next-round tables. */
  function Standings(ks: seq<string>, pct: map<string, real>, big: map<string, seq<seq<TeamId>>>): (st: map<string, Standing>)
    requires forall k <- ks :: k in pct && k in big && big[k] != []
    ensures forall k :: k in st <==> k in ks
    ensures forall k <- ks ::
      st[k].wins == |big[k]| > 0 && st[k].pct == pct[k] && |st[k].nextRound| == (|big[k][0]| + 1) / 2
  {
    map k | k in ks :: Standing(|big[k]|, pct[k], NextRound(big[k]))
  }

  // ---------------------------------------------------------------------------
  // The loops
  // ---------------------------------------------------------------------------

  /** The `gresults` loop of one entrant: every outcome, every game of the next round. */
  method CountNextRound(entries: seq<seq<TeamId>>) returns (gresults: seq<Dict<TeamId, nat>>)
    requires entries != []
    ensures gresults == NextRound(entries)
  {
    var rsize := (|entries[0]| + 1) / 2;
    gresults := seq(rsize, _ => EmptyDict());
    for j := 0 to |entries|
      invariant |gresults| == rsize
      invariant forall c :: 0 <= c < rsize ==> gresults[c] == Counted(Column(entries[..j], c))
    {
      var entry := entries[j];
      for cnt := 0 to |entry|
        invariant |gresults| == rsize
        invariant forall c :: 0 <= c < rsize ==>
          gresults[c] == if c < cnt then Counted(Column(entries[..j + 1], c)) else Counted(Column(entries[..j], c))
      {
        if cnt >= rsize {
          continue;
        }
        ColumnSnoc(entries, j, cnt);
        gresults := gresults[cnt := Bump(gresults[cnt], entry[cnt])];
      }
      forall c | |entry| <= c < rsize
        ensures gresults[c] == Counted(Column(entries[..j + 1], c))
      {
        ColumnSnoc(entries, j, c);
      }
    }
    assert entries[..|entries|] == entries;
  }

  /** One more outcome bumps table `c` with its game-`c` winner when it reaches game `c`, and leaves it alone otherwise. */
  lemma ColumnSnoc(entries: seq<seq<TeamId>>, j: nat, c: nat)
    requires j < |entries|
    ensures c < |entries[j]| ==>
      Counted(Column(entries[..j + 1], c)) == Bump(Counted(Column(entries[..j], c)), entries[j][c])
    ensures c >= |entries[j]| ==> Column(entries[..j + 1], c) == Column(entries[..j], c)
  {
    assert entries[..j + 1][..j] == entries[..j];
    var col := Column(entries[..j], c);
    if c < |entries[j]| {
      assert (col + [entries[j][c]])[..|col|] == col;
    }
  }

  /** The entries the first loop makes for `ks`: outcome count and credit, no tables yet. */
  function Contenders(ks: seq<string>, pct: map<string, real>, big: map<string, seq<seq<TeamId>>>): map<string, Standing>
    requires forall k <- ks :: k in pct && k in big
  {
    map k | k in ks :: Standing(|big[k]|, pct[k], [])
  }

  lemma ContendersSnoc(ks: seq<string>, k: string, pct: map<string, real>, big: map<string, seq<seq<TeamId>>>)
    requires forall k <- ks :: k in pct && k in big
    requires k in pct && k in big
    ensures Contenders(ks + [k], pct, big) == Contenders(ks, pct, big)[k := Standing(|big[k]|, pct[k], [])]
  {
  }

  /** The first loop of consolidate: entrants in ranking order until the first zero credit, each with its outcome count and credit. */
  method KeepContenders(pctwinsnum: Dict<string, real>, big: map<string, seq<seq<TeamId>>>)
    returns (sbracket: Dict<string, Standing>)
    requires pctwinsnum.Valid() && forall k <- pctwinsnum.keys :: k in big
    ensures sbracket.Valid()
    ensures sbracket.keys == Kept(pctwinsnum)
    ensures sbracket.vals == Contenders(Kept(pctwinsnum), pctwinsnum.vals, big)
  {
    var keys := pctwinsnum.keys;
    sbracket := EmptyDict();
    var i := 0;
    while i < |keys|
      invariant i <= FirstZero(keys, pctwinsnum.vals)
      invariant sbracket.Valid() && sbracket.keys == keys[..i]
      invariant sbracket.vals == Contenders(keys[..i], pctwinsnum.vals, big)
    {
      var person := keys[i];
      if pctwinsnum.vals[person] == 0.0 {
        break;
      }
      assert keys[..i + 1] == keys[..i] + [person];
      ContendersSnoc(keys[..i], person, pctwinsnum.vals, big);
      sbracket := sbracket.Put(person, Standing(|big[person]|, pctwinsnum.vals[person], []));
      i := i + 1;
    }
    assert i == FirstZero(keys, pctwinsnum.vals);
  }

  /** The entries once the first `j` keys have their next-round tables. */
  function Tabled(keys: seq<string>, j: nat, s0: map<string, Standing>, big: map<string, seq<seq<TeamId>>>)
    : map<string, Standing>
    requires j <= |keys| && forall k <- keys :: k in s0 && k in big
    requires forall k <- keys[..j] :: big[k] != []
  {
    map k | k in keys :: if k in keys[..j] then s0[k].(nextRound := NextRound(big[k])) else s0[k]
  }

  lemma TabledStep(keys: seq<string>, j: nat, s0: map<string, Standing>, big: map<string, seq<seq<TeamId>>>)
    requires j < |keys| && forall k <- keys :: k in s0 && k in big
    requires forall k <- keys[..j] :: big[k] != []
    requires big[keys[j]] != [] && keys[j] !in keys[..j]
    ensures forall k <- keys[..j + 1] :: big[k] != []
    ensures Tabled(keys, j, s0, big)[keys[j]] == s0[keys[j]]
    ensures Tabled(keys, j + 1, s0, big) ==
      Tabled(keys, j, s0, big)[keys[j] := s0[keys[j]].(nextRound := NextRound(big[keys[j]]))]
  {
    assert keys[..j + 1] == keys[..j] + [keys[j]];
  }

  /** The second loop of consolidate: each kept entrant gets its next-round tables, failing on one with no outcome. */
  method AddNextRounds(sbracket0: Dict<string, Standing>, big: map<string, seq<seq<TeamId>>>)
    returns (r: Result<Dict<string, Standing>>)
    requires sbracket0.Valid() && forall k <- sbracket0.keys :: k in big
    ensures (exists k <- sbracket0.keys :: big[k] == []) ==> r == Err(IndexError)
    ensures (forall k <- sbracket0.keys :: big[k] != []) ==>
      r == Ok(Dict(sbracket0.keys, Tabled(sbracket0.keys, |sbracket0.keys|, sbracket0.vals, big)))
  {
    var keys := sbracket0.keys;
    var sbracket := sbracket0;
    assert sbracket0.vals == Tabled(keys, 0, sbracket0.vals, big);
    for j := 0 to |keys|
      invariant sbracket.keys == keys
      invariant forall k <- keys[..j] :: big[k] != []
      invariant sbracket.vals == Tabled(keys, j, sbracket0.vals, big)
    {
      var indx := keys[j];
      if big[indx] == [] {
        return Err(IndexError);
      }
      TabledStep(keys, j, sbracket0.vals, big);
      var gresults := CountNextRound(big[indx]);
      sbracket := sbracket.Put(indx, sbracket.vals[indx].(nextRound := gresults));
    }
    return Ok(sbracket);
  }

  /** consolidate: the kept entrants with outcome count and credit, then each one's next-round tables. */
  method ConsolidateStandings(pctwinsnum: Dict<string, real>, big: map<string, seq<seq<TeamId>>>)
    returns (r: Result<Dict<string, Standing>>)
    requires pctwinsnum.Valid() && forall k <- pctwinsnum.keys :: k in big
    ensures r == ConsolidateResult(pctwinsnum, big)
  {
    var sbracket := KeepContenders(pctwinsnum, big);
    assert forall k <- sbracket.keys :: k in pctwinsnum.keys;
    r := AddNextRounds(sbracket, big);
    if r.Ok? {
      TabledAll(sbracket.keys, pctwinsnum.vals, big);
    }
  }

  /** Adding the tables to every first-loop entry gives the finished entries. */
  lemma TabledAll(ks: seq<string>, pct: map<string, real>, big: map<string, seq<seq<TeamId>>>)
    requires forall k <- ks :: k in pct && k in big && big[k] != []
    ensures ks[..|ks|] == ks
    ensures Tabled(ks, |ks|, Contenders(ks, pct, big), big) == Standings(ks, pct, big)
  {
    assert ks[..|ks|] == ks;
  }

  // ---------------------------------------------------------------------------
  // What the tables count
  // ---------------------------------------------------------------------------

  /** A count table holds exactly the teams of the column, each with its number of occurrences, keyed in order of first occurrence. */
  lemma {:induction false} CountedCounts<T>(col: seq<T>)
    ensures forall k <- Counted(col).vals.Keys :: k in col && Counted(col).vals[k] == multiset(col)[k]
    ensures forall k <- col :: k in Counted(col).vals
    ensures Counted(col).keys == Dedup(col)
  {
    if col != [] {
      var init, x := col[..|col| - 1], col[|col| - 1];
      assert col == init + [x];
      CountedCounts(init);
    }
  }

  /** The counts of a count table add up to the length of its column. */
  lemma {:induction false} CountedTotal<T>(col: seq<T>)
    ensures SumNat(Counted(col).keys, Counted(col).vals) == |col|
  {
    if col != [] {
      var init, x := col[..|col| - 1], col[|col| - 1];
      CountedTotal(init);
      BumpTotal(Counted(init), x);
    }
  }

  /** Bumping a team raises the sum of the counts by one. */
  lemma BumpTotal<T>(d: Dict<T, nat>, x: T)
    requires d.Valid()
    ensures SumNat(Bump(d, x).keys, Bump(d, x).vals) == SumNat(d.keys, d.vals) + 1
  {
    if x in d.vals {
      SumNatIncrement(d.keys, d.vals, x);
    } else {
      SumNatNewKey(d.keys, d.vals, x, 1);
    }
  }

  /** Each next-round table counts, for its game, how many of the entrant's outcomes have each team winning it; when all outcomes have the same length the counts add up to the number of outcomes. */
  lemma NextRoundCounts(entries: seq<seq<TeamId>>, c: nat)
    requires entries != [] && c < |NextRound(entries)|
    requires forall e <- entries :: |e| == |entries[0]|
    ensures var d := NextRound(entries)[c];
            (forall k :: k in d.vals <==> k in Column(entries, c)) &&
            (forall k <- d.vals.Keys :: d.vals[k] == multiset(Column(entries, c))[k]) &&
            SumNat(d.keys, d.vals) == |entries|
  {
    CountedCounts(Column(entries, c));
    CountedTotal(Column(entries, c));
  }

  /** The winner of game `c` of the outcome at position `j` is counted in table `c`. */
  lemma {:induction false} ColumnHas(entries: seq<seq<TeamId>>, c: nat, j: nat)
    requires j < |entries| && c < |entries[j]|
    ensures entries[j][c] in Column(entries, c)
  {
    if j < |entries| - 1 {
      ColumnHas(entries[..|entries| - 1], c, j);
    }
  }

  /** In a descending list of non-negative credits, everything from the first zero on is zero. */
  lemma ZeroTail(pct: Dict<string, real>)
    requires pct.Valid()
    requires Descending(pct.keys, pct.vals)
    requires forall k <- pct.keys :: pct.vals[k] >= 0.0
    ensures forall j :: FirstZero(pct.keys, pct.vals) <= j < |pct.keys| ==> pct.vals[pct.keys[j]] == 0.0
  {
    var keys := pct.keys;
    var z := FirstZero(keys, pct.vals);
    forall j | z <= j < |keys|
      ensures pct.vals[keys[j]] == 0.0
    {
      assert pct.vals[keys[z]] >= pct.vals[keys[j]];
    }
  }

  /** For credits in descending order and never negative, the kept entrants are exactly those with positive credit. */
  lemma KeptPositive(pct: Dict<string, real>)
    requires pct.Valid()
    requires Descending(pct.keys, pct.vals)
    requires forall k <- pct.keys :: pct.vals[k] >= 0.0
    ensures forall k :: k in Kept(pct) <==> k in pct.keys && pct.vals[k] > 0.0
  {
    var keys := pct.keys;
    var z := FirstZero(keys, pct.vals);
    forall k | k in keys && pct.vals[k] > 0.0
      ensures k in Kept(pct)
    {
      var m :| 0 <= m < |keys| && keys[m] == k;
      ZeroTail(pct);
      assert m < z;
      assert keys[..z][m] == k;
    }
    forall k | k in Kept(pct)
      ensures k in keys && pct.vals[k] > 0.0
    {
      var m :| 0 <= m < z && keys[..z][m] == k;
      assert keys[m] == k;
    }
  }

  /** When every kept entrant has an outcome recorded, consolidate succeeds, and each entry holds that entrant's outcome count, credit and next-round tables. */
  lemma ConsolidateOk(pct: Dict<string, real>, big: map<string, seq<seq<TeamId>>>)
    requires pct.Valid() && forall k <- pct.keys :: k in big
    requires forall k <- Kept(pct) :: big[k] != []
    ensures ConsolidateResult(pct, big).Ok?
    ensures var d := ConsolidateResult(pct, big).value;
            d.Valid() && d.keys == Kept(pct) &&
            forall k <- Kept(pct) :: d.vals[k].wins == |big[k]| && d.vals[k].pct == pct.vals[k] &&
                                      |d.vals[k].nextRound| == (|big[k][0]| + 1) / 2
  {
    var kept := Kept(pct);
    assert forall k <- kept :: k in pct.keys;
    DistinctPrefix(pct.keys, FirstZero(pct.keys, pct.vals));
  }
}
