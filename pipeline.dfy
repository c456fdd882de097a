/** gen_comparisons end to end: enumerate the outcomes, read the picks, credit every outcome's winners, rank, consolidate. */
module Pipeline {
  import opened Seqs
  import opened Wrappers
  import opened Text
  import opened Teams
  import opened Picks
  import opened FutureOutcomes
  import opened Comparisons
  import opened Credits
  import opened Consolidate

  /** The leaderboard gen_comparisons returns for a team table, the picks file's text and the baseline scores. */
  function Leaderboard(table: map<TeamId, TeamInfo>, picdata: string, startpts: map<string, nat>)
    : (r: Result<Dict<string, Standing>>)
    requires Complete(table)
    ensures !IsPow2(|Alive(table)|) ==> r == Err(BracketSize)
    ensures r.Ok? ==> r.value.Valid()
  {
    var alive := Alive(table);
    if !IsPow2(|alive|) then Err(BracketSize)
    else
      var outs := Outcomes(alive);
      var panswers :- ParseTable(Split(Strip(picdata), '\n'), KeepTail(|outs[0]|));
      var t :- Aggregate(panswers.keys, panswers.vals, startpts, outs);
      Ranked(panswers.keys, t, outs)
  }

  /** The ranking and consolidation of a finished tally. */
  function Ranked(entrants: seq<string>, t: Tally, outs: seq<seq<TeamId>>): (r: Result<Dict<string, Standing>>)
    requires Distinct(entrants) && forall e <- entrants :: e in t.pnt && e in t.big
    ensures r.Err? ==> r.error == IndexError
    ensures r.Ok? ==> r.value.Valid() && forall k <- r.value.keys :: k in entrants && t.pnt[k] != 0.0
  {
    RankingValid(entrants, t.pnt);
    ConsolidateResult(Ranking(entrants, t.pnt), t.big)
  }

  /** gen_comparisons: the outcomes, the picks for the games left, the credit loop, the ranking and consolidate. */
  method GenComparisons(table: map<TeamId, TeamInfo>, picdata: string, startpts: map<string, nat>)
    returns (r: Result<Dict<string, Standing>>)
    requires Complete(table)
    ensures r == Leaderboard(table, picdata, startpts)
  {
    var outcomes := GenFutureOutcomes(table);
    if outcomes.Err? {
      return Err(outcomes.error);
    }
    var allResults := outcomes.value;
    var parsed := GenPanswers(picdata, |allResults[0]|);
    if parsed.Err? {
      return Err(parsed.error);
    }
    var panswers := parsed.value;
    var credited := CreditOutcomes(panswers.keys, panswers.vals, startpts, allResults);
    if credited.Err? {
      return Err(credited.error);
    }
    var tally := credited.value;
    var pctwinsnum := RankByCredit(panswers.keys, tally.pnt);
    RankingValid(panswers.keys, tally.pnt);
    r := ConsolidateStandings(pctwinsnum, tally.big);
  }

  // ---------------------------------------------------------------------------
  // What the leaderboard holds
  // ---------------------------------------------------------------------------

  /** Once every outcome is credited, consolidate cannot fail: the leaderboard lists exactly the entrants with positive credit, best first, each with its outcome count and credit. */
  lemma RankedLeaderboard(entrants: seq<string>, answers: map<string, seq<string>>, startpts: map<string, nat>,
                          outs: seq<seq<TeamId>>)
    requires Distinct(entrants) && forall e <- entrants :: e in answers
    requires Aggregate(entrants, answers, startpts, outs).Ok?
    ensures var t := Aggregate(entrants, answers, startpts, outs).value;
            var r := Ranked(entrants, t, outs);
            r.Ok? &&
            (forall k :: k in r.value.keys <==> k in entrants && t.pnt[k] > 0.0) &&
            Descending(r.value.keys, t.pnt) &&
            forall k <- r.value.keys :: r.value.vals[k].wins == |t.big[k]| > 0 && r.value.vals[k].pct == t.pnt[k]
  {
    var t := Aggregate(entrants, answers, startpts, outs).value;
    AggregateConsistent(entrants, answers, startpts, outs);
    RankingValid(entrants, t.pnt);
    var ranked := Ranking(entrants, t.pnt);
    RankedFacts(entrants, t);
    ConsolidateOk(ranked, t.big);
  }

  /** The ranking of a consistent tally keeps exactly the entrants with positive credit, as a prefix of the descending order. */
  lemma RankedFacts(entrants: seq<string>, t: Tally)
    requires Distinct(entrants) && Consistent(t, entrants)
    ensures forall e <- entrants :: e in t.pnt
    ensures Ranking(entrants, t.pnt).Valid()
    ensures forall k :: k in Kept(Ranking(entrants, t.pnt)) <==> k in entrants && t.pnt[k] > 0.0
    ensures forall k <- Kept(Ranking(entrants, t.pnt)) :: k in t.big && t.big[k] != []
    ensures Descending(Kept(Ranking(entrants, t.pnt)), t.pnt)
  {
    RankingValid(entrants, t.pnt);
    var ranked := Ranking(entrants, t.pnt);
    var order := ranked.keys;
    assert Descending(order, ranked.vals) by {
      forall i, j | 0 <= i < j < |order|
        ensures ranked.vals[order[i]] >= ranked.vals[order[j]]
      {
      }
    }
    KeptPositive(ranked);
    var kept := Kept(ranked);
    forall i, j | 0 <= i < j < |kept|
      ensures t.pnt[kept[i]] >= t.pnt[kept[j]]
    {
      assert kept[i] == order[i] && kept[j] == order[j];
    }
  }

  /** With at least one entrant, the credits of all entrants add up to the number of outcomes. */
  lemma LeaderboardCredits(entrants: seq<string>, answers: map<string, seq<string>>, startpts: map<string, nat>,
                           outs: seq<seq<TeamId>>)
    requires Distinct(entrants) && |entrants| >= 1 && forall e <- entrants :: e in answers
    requires Aggregate(entrants, answers, startpts, outs).Ok?
    ensures SumReal(entrants, Aggregate(entrants, answers, startpts, outs).value.pnt) == |outs| as real
  {
    CreditsTotal(entrants, answers, startpts, outs);
  }

  /** A decided tournament has one outcome, with no games in it. */
  lemma OneTeamLeft(alive: seq<TeamId>)
    requires |alive| == 1
    ensures IsPow2(|alive|) && Outcomes(alive) == [[]]
  {
    assert Pow2(0) == 1;
    assert Outcomes(alive)[0] == Play(alive, Bits(0, 0)) == [];
  }

  /** On the single empty outcome, the first entrant's pick list cannot be compared: the credit loop fails with an IndexError. */
  lemma OneTeamLeftFails(entrants: seq<string>, answers: map<string, seq<string>>, startpts: map<string, nat>)
    requires forall e <- entrants :: e in answers
    requires |entrants| >= 1 && entrants[0] in startpts && |answers[entrants[0]]| >= 1
    ensures Aggregate(entrants, answers, startpts, [[]]) == Err(IndexError)
  {
    CompScoreEmptyOutcome(answers[entrants[0]]);
    TotalsFirst(entrants, answers, startpts, []);
    var outs: seq<seq<TeamId>> := [[]];
    assert outs[..0] == [] && outs[0] == [];
  }

  /** Every pick list read from the picks file has at least one entry. */
  lemma {:induction false} PanswersNonEmpty(lines: seq<string>, k: nat)
    requires ParseTable(lines, KeepTail(k)).Ok?
    ensures forall e <- ParseTable(lines, KeepTail(k)).value.keys ::
      |ParseTable(lines, KeepTail(k)).value.vals[e]| >= 1
  {
    if lines != [] {
      var init := lines[..|lines| - 1];
      PanswersNonEmpty(init, k);
      var entry := ParseLine(lines[|lines| - 1]).value;
      assert |KeepTail(k)(entry.1).value| >= 1;
    }
  }

  /** When only the champion is left, gen_comparisons fails with an IndexError, provided some entrant has a baseline and the first has one. */
  lemma ChampionDecided(table: map<TeamId, TeamInfo>, picdata: string, startpts: map<string, nat>)
    requires Complete(table) && |Alive(table)| == 1
    requires ParseTable(Split(Strip(picdata), '\n'), KeepTail(0)).Ok?
    requires var keys := ParseTable(Split(Strip(picdata), '\n'), KeepTail(0)).value.keys;
             |keys| >= 1 && keys[0] in startpts
    ensures Leaderboard(table, picdata, startpts) == Err(IndexError)
  {
    var lines := Split(Strip(picdata), '\n');
    OneTeamLeft(Alive(table));
    var panswers := ParseTable(lines, KeepTail(0)).value;
    PanswersNonEmpty(lines, 0);
    OneTeamLeftFails(panswers.keys, panswers.vals, startpts);
  }
}
