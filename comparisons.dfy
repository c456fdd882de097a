/** Scoring the entrants against one possible outcome, and picking that outcome's winners. */
module Comparisons {
  import opened Seqs
  import opened Wrappers
  import opened Text
  import opened Teams
  import opened Picks

  // ---------------------------------------------------------------------------
  // gen_panswers: the picks for the games still to be played
  // ---------------------------------------------------------------------------

  /** The value stored for an entrant: the last `k` picks (`[-k:]`). */
  function KeepTail(k: nat): (keep: seq<string> -> Result<seq<string>>)
    ensures forall teams: seq<string> :: keep.requires(teams) && keep(teams) == Ok(Tail(teams, k))
  {
    teams => Ok(Tail(teams, k))
  }

  /** gen_panswers: every line `name:t1|…` maps name to its last `gmsLeft` picks. */
  method GenPanswers(picdata: string, gmsLeft: nat) returns (r: Result<Dict<string, seq<string>>>)
    ensures r == ParseTable(Split(Strip(picdata), '\n'), KeepTail(gmsLeft))
  {
    r := PanswerLines(Split(Strip(picdata), '\n'), gmsLeft);
  }

  /** The loop of gen_panswers over the lines of the picks file. */
  method PanswerLines(lines: seq<string>, gmsLeft: nat) returns (r: Result<Dict<string, seq<string>>>)
    ensures r == ParseTable(lines, KeepTail(gmsLeft))
  {
    var panswers: Dict<string, seq<string>> := EmptyDict();
    for i := 0 to |lines|
      invariant ParseTable(lines[..i], KeepTail(gmsLeft)) == Ok(panswers)
    {
      var pandp := ParseLine(lines[i]);
      if pandp.Err? {
        ParseTableStop(lines, KeepTail(gmsLeft), i);
        return Err(pandp.error);
      }
      ParseTableStep(lines, KeepTail(gmsLeft), i, panswers);
      panswers := panswers.Put(pandp.value.0, Tail(pandp.value.1, gmsLeft));
    }
    assert lines[..|lines|] == lines;
    return Ok(panswers);
  }

  /** With every line holding a ':', an entrant's value is the last `gmsLeft` picks of its last line. */
  lemma PanswersEntry(lines: seq<string>, gmsLeft: nat, i: nat)
    requires forall j :: 0 <= j < |lines| ==> ':' in lines[j]
    requires i < |lines|
    requires forall j :: i < j < |lines| ==> Name(lines[j]) != Name(lines[i])
    ensures ParseTable(lines, KeepTail(gmsLeft)).Ok?
    ensures Name(lines[i]) in ParseTable(lines, KeepTail(gmsLeft)).value.vals
    ensures var picks := ParseLine(lines[i]).value.1;
            var kept := ParseTable(lines, KeepTail(gmsLeft)).value.vals[Name(lines[i])];
            kept == Tail(picks, gmsLeft) && (1 <= gmsLeft <= |picks| ==> |kept| == gmsLeft) &&
            |kept| >= 1
  {
    PanswersOk(lines, gmsLeft);
    ParseTableLastLine(lines, KeepTail(gmsLeft), i);
  }

  /** A picks file whose every line has a ':' is read without error. */
  lemma PanswersOk(lines: seq<string>, gmsLeft: nat)
    requires forall j :: 0 <= j < |lines| ==> ':' in lines[j]
    ensures ParseTable(lines, KeepTail(gmsLeft)).Ok?
  {
    ParseTableOutcome(lines, KeepTail(gmsLeft));
  }

  // ---------------------------------------------------------------------------
  // comp_score
  // ---------------------------------------------------------------------------

  /** Points per game for the last 15 games: eight second-round games, four, two, and the final. */
  const SPattern: seq<nat> := [40, 40, 40, 40, 40, 40, 40, 40, 80, 80, 80, 80, 160, 160, 320]

  /** Value of game i of the last 15: 40 for the first eight, then 80, 160 and 320 per round. */
  function GameValue(i: int): nat {
    if i < 8 then 40 else if i < 12 then 80 else if i < 14 then 160 else 320
  }

  /** The table is `8 * [40] + 4 * [80] + 2 * [160] + [320]`: game i is worth GameValue(i). */
  lemma SPatternValues()
    ensures |SPattern| == 15
    ensures forall i :: 0 <= i < 15 ==> SPattern[i] == GameValue(i)
  {
  }

  /** `spattern[-len(list1):]`: the values of the games a pick list covers, the last `len(list1)` games, or all 15. */
  function Pattern(list1: seq<string>): (ap: seq<nat>)
    ensures |ap| <= 15
    ensures 1 <= |list1| <= 15 ==> |ap| == |list1|
    ensures forall i :: 0 <= i < |ap| ==> ap[i] == GameValue(15 - |ap| + i)
  {
    var k := if 1 <= |list1| <= 15 then |list1| else 15;
    seq<nat>(k, (i: nat) requires i < k => GameValue(15 - k + i))
  }

  /** The covered values are exactly the slice `spattern[-len(list1):]` of the table. */
  lemma PatternIsTail(list1: seq<string>)
    ensures Pattern(list1) == Tail(SPattern, |list1|)
  {
    SPatternValues();
    var ap := Pattern(list1);
    var t := Tail(SPattern, |list1|);
    assert |ap| == |t|;
    forall i | 0 <= i < |ap|
      ensures ap[i] == t[i]
    {
      assert t[i] == SPattern[15 - |t| + i];
    }
  }

  /** Points of the first n games on which the pick list agrees with the outcome. */
  function MatchPoints(list1: seq<string>, list2: seq<string>, ap: seq<nat>, n: nat): (pts: nat)
    requires n <= |ap| && n <= |list1| && n <= |list2|
    ensures (forall i :: 0 <= i < n ==> list1[i] != list2[i]) ==> pts == 0
  {
    if n == 0 then 0
    else
      MatchPoints(list1, list2, ap, n - 1) + (if list1[n - 1] == list2[n - 1] then ap[n - 1] else 0)
  }

  /** comp_score as a value: the points of the agreeing games, or an IndexError when a list is too short. */
  function CompScoreResult(list1: seq<string>, list2: seq<string>): (r: Result<nat>)
    ensures r.Ok? <==> 1 <= |list1| && Min(|list1|, 15) <= |list2|
    ensures r.Err? ==> r.error == IndexError
  {
    var ap := Pattern(list1);
    if |ap| <= |list1| && |ap| <= |list2| then Ok(MatchPoints(list1, list2, ap, |ap|)) else Err(IndexError)
  }

  /** comp_score: add the value of every game where the pick matches the outcome. */
  method CompScore(list1: seq<string>, list2: seq<string>) returns (r: Result<nat>)
    ensures r == CompScoreResult(list1, list2)
  {
    var apattern := Pattern(list1);
    var total := 0;
    for cnt := 0 to |apattern|
      invariant cnt <= |list1| && cnt <= |list2|
      invariant total == MatchPoints(list1, list2, apattern, cnt)
    {
      if cnt >= |list1| || cnt >= |list2| {
        return Err(IndexError);
      }
      if list1[cnt] == list2[cnt] {
        total := total + apattern[cnt];
      }
    }
    return Ok(total);
  }

  /** The score lies between 0 and the value of all covered games, reaching that value exactly when every pick matches. */
  lemma {:induction false} MatchPointsBounds(list1: seq<string>, list2: seq<string>, ap: seq<nat>, n: nat)
    requires n <= |ap| && n <= |list1| && n <= |list2|
    requires forall i :: 0 <= i < |ap| ==> ap[i] > 0
    ensures MatchPoints(list1, list2, ap, n) <= Sum(ap[..n])
    ensures MatchPoints(list1, list2, ap, n) == Sum(ap[..n]) <==> forall i :: 0 <= i < n ==> list1[i] == list2[i]
  {
    if n > 0 {
      MatchPointsBounds(list1, list2, ap, n - 1);
      assert ap[..n][..n - 1] == ap[..n - 1];
    }
  }

  /** Matching every game of a pick list against itself scores the full value of the covered games. */
  lemma CompScoreSelf(x: seq<string>)
    requires 1 <= |x|
    ensures CompScoreResult(x, x) == Ok(Sum(Pattern(x)))
  {
    var ap := Pattern(x);
    MatchPointsBounds(x, x, ap, |ap|);
    assert ap[..|ap|] == ap;
  }

  /** A successful score is at most the value of the covered games, and equal to it exactly when all picks match. */
  lemma CompScoreBounds(list1: seq<string>, list2: seq<string>)
    requires CompScoreResult(list1, list2).Ok?
    ensures CompScoreResult(list1, list2).value <= Sum(Pattern(list1))
    ensures CompScoreResult(list1, list2).value == Sum(Pattern(list1)) <==>
      forall i :: 0 <= i < |Pattern(list1)| ==> list1[i] == list2[i]
  {
    var ap := Pattern(list1);
    MatchPointsBounds(list1, list2, ap, |ap|);
    assert ap[..|ap|] == ap;
  }

  /** An empty outcome fails every nonempty pick list: the first comparison is out of range. */
  lemma CompScoreEmptyOutcome(list1: seq<string>)
    requires 1 <= |list1|
    ensures CompScoreResult(list1, []) == Err(IndexError)
  {
  }

  lemma {:induction false} SumAppend(a: seq<nat>, b: seq<nat>)
    ensures Sum(a + b) == Sum(a) + Sum(b)
  {
    if b != [] {
      SumAppend(a, b[..|b| - 1]);
      assert (a + b)[..|a + b| - 1] == a + b[..|b| - 1];
    } else {
      assert a + b == a;
    }
  }

  /** Σ of the game values from game k to the last. */
  function ValuesFrom(k: nat): nat
    decreases 15 - k
  {
    if k >= 15 then 0 else GameValue(k) + ValuesFrom(k + 1)
  }

  lemma {:induction false} SuffixSum(k: nat)
    requires k <= 15
    ensures Sum(SPattern[k..]) == ValuesFrom(k)
    decreases 15 - k
  {
    if k < 15 {
      SuffixSum(k + 1);
      SPatternValues();
      assert SPattern[k..] == [SPattern[k]] + SPattern[k + 1..];
      SumAppend([SPattern[k]], SPattern[k + 1..]);
      assert [SPattern[k]][..0] == [];
    }
  }

  /** Each remaining round is worth 320 points: the last 2^r - 1 games, the last r rounds, total 320·r. */
  lemma RoundsValue(r: nat)
    requires 1 <= r <= 4
    ensures Sum(Tail(SPattern, Pow2(r) - 1)) == 320 * r
  {
    assert Pow2(1) == 2 && Pow2(2) == 4 && Pow2(3) == 8 && Pow2(4) == 16;
    SuffixSum(16 - Pow2(r));
    assert ValuesFrom(14) == 320 && ValuesFrom(12) == 640;
    assert ValuesFrom(8) == 960 && ValuesFrom(0) == 1280;
  }

  /** With r rounds left, a pick list that gets every remaining game right earns 320·r more; no outcome earns it more. */
  lemma PerfectPicks(picks: seq<string>, out: seq<string>, r: nat)
    requires 1 <= r <= 4 && |picks| == Pow2(r) - 1
    ensures CompScoreResult(picks, picks) == Ok(320 * r)
    ensures CompScoreResult(picks, out).Ok? ==> CompScoreResult(picks, out).value <= 320 * r
  {
    CompScoreSelf(picks);
    PatternIsTail(picks);
    RoundsValue(r);
    if CompScoreResult(picks, out).Ok? {
      CompScoreBounds(picks, out);
    }
  }

  // ---------------------------------------------------------------------------
  // The totals of one outcome, and its winners
  // ---------------------------------------------------------------------------

  /** Each entrant's total for one outcome, in entrant order: baseline plus comp_score; the first failure aborts. */
  function Totals(entrants: seq<string>, panswers: map<string, seq<string>>, startpts: map<string, nat>,
                  out: seq<TeamId>): (r: Result<seq<nat>>)
    requires forall e <- entrants :: e in panswers
    ensures r.Ok? ==> |r.value| == |entrants|
  {
    if entrants == [] then Ok([])
    else
      var init :- Totals(entrants[..|entrants| - 1], panswers, startpts, out);
      var e := entrants[|entrants| - 1];
      if e !in startpts then Err(KeyError(e))
      else
        var s :- CompScoreResult(panswers[e], out);
        Ok(init + [startpts[e] + s])
  }

  /** The running maximum and winner list of the scan over one outcome. */
  datatype Scan = Scan(maxv: nat, pkey: seq<string>)

  /** The scan as written: a new strict maximum resets the list to that entrant, and an entrant equal to the maximum is appended. */
  function ScanTotals(names: seq<string>, totals: seq<nat>): Scan
    requires |names| == |totals|
  {
    if names == [] then Scan(0, [])
    else ScanStep(ScanTotals(names[..|names| - 1], totals[..|totals| - 1]), names[|names| - 1], totals[|totals| - 1])
  }

  /** One entrant of the scan: `if pts > maxv: maxv, pkey = pts, [e]` then `if pts == maxv: pkey.append(e)`. */
  function ScanStep(s: Scan, e: string, pts: nat): (r: Scan)
    ensures r.maxv == if pts > s.maxv then pts else s.maxv
    ensures pts > s.maxv ==> r.pkey == [e, e]
    ensures pts == s.maxv ==> r.pkey == s.pkey + [e]
    ensures pts < s.maxv ==> r.pkey == s.pkey
  {
    var s' := if pts > s.maxv then Scan(pts, [e]) else s;
    if pts == s'.maxv then s'.(pkey := s'.pkey + [e]) else s'
  }

  lemma ScanTotalsSnoc(names: seq<string>, totals: seq<nat>, e: string, pts: nat)
    requires |names| == |totals|
    ensures ScanTotals(names + [e], totals + [pts]) == ScanStep(ScanTotals(names, totals), e, pts)
  {
    assert (names + [e])[..|names|] == names;
    assert (totals + [pts])[..|totals|] == totals;
  }

  /** One more entrant with a baseline and a score extends the totals by its total. */
  lemma TotalsSnocOk(entrants: seq<string>, panswers: map<string, seq<string>>, startpts: map<string, nat>,
                     out: seq<TeamId>, i: nat, prev: seq<nat>, pts: nat)
    requires forall e <- entrants :: e in panswers
    requires i < |entrants| && Totals(entrants[..i], panswers, startpts, out) == Ok(prev)
    requires entrants[i] in startpts && CompScoreResult(panswers[entrants[i]], out).Ok?
    requires pts == startpts[entrants[i]] + CompScoreResult(panswers[entrants[i]], out).value
    ensures Totals(entrants[..i + 1], panswers, startpts, out) == Ok(prev + [pts])
  {
    assert entrants[..i + 1][..i] == entrants[..i];
  }

  /** One more entrant without a baseline, or whose score fails, fails the totals with its error. */
  lemma TotalsSnocErr(entrants: seq<string>, panswers: map<string, seq<string>>, startpts: map<string, nat>,
                      out: seq<TeamId>, i: nat)
    requires forall e <- entrants :: e in panswers
    requires i < |entrants| && Totals(entrants[..i], panswers, startpts, out).Ok?
    ensures entrants[i] !in startpts ==>
      Totals(entrants[..i + 1], panswers, startpts, out) == Err(KeyError(entrants[i]))
    ensures entrants[i] in startpts && CompScoreResult(panswers[entrants[i]], out).Err? ==>
      Totals(entrants[..i + 1], panswers, startpts, out) == Err(CompScoreResult(panswers[entrants[i]], out).error)
  {
    assert entrants[..i + 1][..i] == entrants[..i];
  }

  /** The winner scan for one outcome: the loop over the entrants with its running maximum. */
  method ScanOutcome(entrants: seq<string>, panswers: map<string, seq<string>>, startpts: map<string, nat>,
                     out: seq<TeamId>) returns (r: Result<Scan>)
    requires forall e <- entrants :: e in panswers
    ensures Totals(entrants, panswers, startpts, out).Err? ==>
      r == Err(Totals(entrants, panswers, startpts, out).error)
    ensures Totals(entrants, panswers, startpts, out).Ok? ==>
      r == Ok(ScanTotals(entrants, Totals(entrants, panswers, startpts, out).value))
  {
    var maxv := 0;
    var pkey := [];
    ghost var totals := [];
    for i := 0 to |entrants|
      invariant Totals(entrants[..i], panswers, startpts, out) == Ok(totals)
      invariant ScanTotals(entrants[..i], totals) == Scan(maxv, pkey)
    {
      var indx := entrants[i];
      if indx !in startpts {
        TotalsSnocErr(entrants, panswers, startpts, out, i);
        TotalsStop(entrants, panswers, startpts, out, i);
        return Err(KeyError(indx));
      }
      var score := CompScore(panswers[indx], out);
      if score.Err? {
        TotalsSnocErr(entrants, panswers, startpts, out, i);
        TotalsStop(entrants, panswers, startpts, out, i);
        return Err(score.error);
      }
      var pts := startpts[indx] + score.value;
      TotalsSnocOk(entrants, panswers, startpts, out, i, totals, pts);
      ScanTotalsSnoc(entrants[..i], totals, indx, pts);
      assert entrants[..i + 1] == entrants[..i] + [indx];
      totals := totals + [pts];
      ghost var before := Scan(maxv, pkey);
      if pts > maxv {
        maxv := pts;
        pkey := [indx];
      }
      if pts == maxv {
        pkey := pkey + [indx];
      }
      assert Scan(maxv, pkey) == ScanStep(before, indx, pts);
    }
    assert entrants[..|entrants|] == entrants;
    return Ok(Scan(maxv, pkey));
  }

  lemma TotalsStop(entrants: seq<string>, panswers: map<string, seq<string>>, startpts: map<string, nat>,
                   out: seq<TeamId>, i: nat)
    requires forall e <- entrants :: e in panswers
    requires i < |entrants| && Totals(entrants[..i], panswers, startpts, out).Ok?
    requires Totals(entrants[..i + 1], panswers, startpts, out).Err?
    ensures Totals(entrants, panswers, startpts, out) == Totals(entrants[..i + 1], panswers, startpts, out)
  {
    TotalsErrSticks(entrants, panswers, startpts, out, i + 1);
  }

  lemma {:induction false} TotalsErrSticks(entrants: seq<string>, panswers: map<string, seq<string>>,
                                           startpts: map<string, nat>, out: seq<TeamId>, i: nat)
    requires forall e <- entrants :: e in panswers
    requires i <= |entrants| && Totals(entrants[..i], panswers, startpts, out).Err?
    ensures Totals(entrants, panswers, startpts, out) == Totals(entrants[..i], panswers, startpts, out)
  {
    if i < |entrants| {
      var init := entrants[..|entrants| - 1];
      assert init[..i] == entrants[..i];
      TotalsErrSticks(init, panswers, startpts, out, i);
    } else {
      assert entrants[..i] == entrants;
    }
  }

  /** The first entrant's failure is the whole outcome's failure: a missing baseline is a KeyError, a short list an IndexError. */
  lemma TotalsFirst(entrants: seq<string>, panswers: map<string, seq<string>>, startpts: map<string, nat>,
                    out: seq<TeamId>)
    requires forall e <- entrants :: e in panswers
    requires |entrants| >= 1
    ensures entrants[0] !in startpts ==>
      Totals(entrants, panswers, startpts, out) == Err(KeyError(entrants[0]))
    ensures entrants[0] in startpts && CompScoreResult(panswers[entrants[0]], out).Err? ==>
      Totals(entrants, panswers, startpts, out) == Err(IndexError)
  {
    assert entrants[..1][..0] == [];
    if entrants[0] !in startpts || CompScoreResult(panswers[entrants[0]], out).Err? {
      TotalsErrSticks(entrants, panswers, startpts, out, 1);
    }
  }

  // ---------------------------------------------------------------------------
  // What the scan computes
  // ---------------------------------------------------------------------------

  /** The largest total, or 0 when there is none (`maxv` starts at 0). */
  function MaxOf(totals: seq<nat>): (m: nat)
    ensures forall i :: 0 <= i < |totals| ==> totals[i] <= m
    ensures m == 0 || m in totals
  {
    if totals == [] then 0
    else
      var m := MaxOf(totals[..|totals| - 1]);
      var last := totals[|totals| - 1];
      assert totals == totals[..|totals| - 1] + [last];
      if last > m then last else m
  }

  /** The entrants whose total is `v`, in entrant order. */
  function WithTotal(names: seq<string>, totals: seq<nat>, v: nat): (ws: seq<string>)
    requires |names| == |totals|
    ensures forall w <- ws :: w in names
  {
    if names == [] then []
    else
      var init := WithTotal(names[..|names| - 1], totals[..|totals| - 1], v);
      if totals[|totals| - 1] == v then init + [names[|names| - 1]] else init
  }

  /** Index of the first total equal to `v`. */
  function FirstWith(totals: seq<nat>, v: nat): (i: nat)
    requires v in totals
    ensures i < |totals| && totals[i] == v
    ensures forall j :: 0 <= j < i ==> totals[j] != v
  {
    assert totals == [totals[0]] + totals[1..];
    if totals[0] == v then 0 else 1 + FirstWith(totals[1..], v)
  }

  /** The winner list the scan should produce: when the maximum is positive, the first entrant to reach it, then every entrant with it. */
  function Winners(names: seq<string>, totals: seq<nat>): (ws: seq<string>)
    requires |names| == |totals|
    ensures forall w <- ws :: w in names
  {
    var m := MaxOf(totals);
    (if m > 0 then [names[FirstWith(totals, m)]] else []) + WithTotal(names, totals, m)
  }

  /** Totals all below `v` select nobody. */
  lemma {:induction false} WithTotalNone(names: seq<string>, totals: seq<nat>, v: nat)
    requires |names| == |totals|
    requires forall i :: 0 <= i < |totals| ==> totals[i] < v
    ensures WithTotal(names, totals, v) == []
  {
    if names != [] {
      WithTotalNone(names[..|names| - 1], totals[..|totals| - 1], v);
    }
  }

  /** The scan's maximum is the largest total and its list is the winner list. */
  lemma {:induction false} ScanIsWinners(names: seq<string>, totals: seq<nat>)
    requires |names| == |totals|
    ensures ScanTotals(names, totals).maxv == MaxOf(totals)
    ensures ScanTotals(names, totals).pkey == Winners(names, totals)
  {
    if names != [] {
      var n, t := names[..|names| - 1], totals[..|totals| - 1];
      ScanIsWinners(n, t);
      WinnersSnoc(n, t, names[|names| - 1], totals[|totals| - 1]);
      assert names == n + [names[|names| - 1]] && totals == t + [totals[|totals| - 1]];
    }
  }

  /** The maximum after one more total: the new total when it exceeds the old maximum. */
  lemma MaxOfSnoc(t: seq<nat>, pts: nat)
    ensures MaxOf(t + [pts]) == if pts > MaxOf(t) then pts else MaxOf(t)
  {
    assert (t + [pts])[..|t|] == t;
  }

  /** The entrants with total `v` after one more entrant: the new one is added when its total is `v`. */
  lemma WithTotalSnoc(n: seq<string>, t: seq<nat>, e: string, pts: nat, v: nat)
    requires |n| == |t|
    ensures WithTotal(n + [e], t + [pts], v) == WithTotal(n, t, v) + (if pts == v then [e] else [])
  {
    assert (n + [e])[..|n|] == n && (t + [pts])[..|t|] == t;
  }

  /** The winner list after one more entrant is the scan step applied to the winner list before it. */
  lemma WinnersSnoc(n: seq<string>, t: seq<nat>, e: string, pts: nat)
    requires |n| == |t|
    ensures MaxOf(t + [pts]) == ScanStep(Scan(MaxOf(t), Winners(n, t)), e, pts).maxv
    ensures Winners(n + [e], t + [pts]) == ScanStep(Scan(MaxOf(t), Winners(n, t)), e, pts).pkey
  {
    MaxOfSnoc(t, pts);
    if pts > MaxOf(t) {
      WinnersSnocNewMax(n, t, e, pts);
    } else {
      WinnersSnocSameMax(n, t, e, pts);
    }
  }

  /** A new strict maximum: the winner list becomes the new entrant, twice. */
  lemma WinnersSnocNewMax(n: seq<string>, t: seq<nat>, e: string, pts: nat)
    requires |n| == |t| && pts > MaxOf(t)
    ensures Winners(n + [e], t + [pts]) == [e, e]
  {
    var totals := t + [pts];
    MaxOfSnoc(t, pts);
    WithTotalSnoc(n, t, e, pts, pts);
    WithTotalNone(n, t, pts);
    assert FirstWith(totals, pts) == |t|;
  }

  /** No new maximum: the new entrant is appended when it ties the maximum. */
  lemma WinnersSnocSameMax(n: seq<string>, t: seq<nat>, e: string, pts: nat)
    requires |n| == |t| && pts <= MaxOf(t)
    ensures Winners(n + [e], t + [pts]) == Winners(n, t) + (if pts == MaxOf(t) then [e] else [])
  {
    var totals := t + [pts];
    var m := MaxOf(t);
    MaxOfSnoc(t, pts);
    WithTotalSnoc(n, t, e, pts, m);
    if m > 0 {
      assert totals[..|t|] == t;
      FirstWithPrefix(totals, m, |t|);
    }
  }

  /** The first total equal to `v` is found in any prefix that contains one. */
  lemma {:induction false} FirstWithPrefix(totals: seq<nat>, v: nat, k: nat)
    requires k <= |totals| && v in totals[..k]
    ensures v in totals
    ensures FirstWith(totals, v) == FirstWith(totals[..k], v)
  {
    assert totals == totals[..k] + totals[k..];
    if totals[0] != v {
      assert totals[..k] == [totals[0]] + totals[1..][..k - 1];
      FirstWithPrefix(totals[1..], v, k - 1);
    }
  }

  /** Occurrences of `x` in a sequence. */
  function Count(s: seq<string>, x: string): nat {
    multiset(s)[x]
  }

  /** With distinct entrants: an entrant is in the winner list exactly when its total is the maximum. */
  lemma {:induction false} WithTotalCount(names: seq<string>, totals: seq<nat>, v: nat, i: nat)
    requires |names| == |totals| && Distinct(names) && i < |names|
    ensures Count(WithTotal(names, totals, v), names[i]) == if totals[i] == v then 1 else 0
  {
    var n, t := names[..|names| - 1], totals[..|totals| - 1];
    var last := names[|names| - 1];
    if i < |names| - 1 {
      WithTotalCount(n, t, v, i);
      assert n[i] == names[i] && t[i] == totals[i];
      assert last != names[i];
    } else {
      assert last !in n;
      WithTotalAbsent(n, t, v, last);
    }
  }

  lemma WithTotalAbsent(names: seq<string>, totals: seq<nat>, v: nat, x: string)
    requires |names| == |totals| && x !in names
    ensures Count(WithTotal(names, totals, v), x) == 0
  {
    if x in WithTotal(names, totals, v) {
      assert false;
    }
  }

  /** Each entrant appears in the winner list once per way it is credited: once if it has the maximum, once more if it was first to reach a positive maximum. */
  lemma WinnersCount(names: seq<string>, totals: seq<nat>, i: nat)
    requires |names| == |totals| && Distinct(names) && i < |names|
    ensures var m := MaxOf(totals);
            Count(Winners(names, totals), names[i]) ==
              (if totals[i] == m then 1 else 0) + (if m > 0 && i == FirstWith(totals, m) then 1 else 0)
  {
    var m := MaxOf(totals);
    WithTotalCount(names, totals, m, i);
    if m > 0 {
      var f := FirstWith(totals, m);
      assert multiset([names[f]] + WithTotal(names, totals, m)) ==
        multiset([names[f]]) + multiset(WithTotal(names, totals, m));
      assert names[f] == names[i] <==> f == i;
    }
  }

  /** When every total is 0, every entrant is a winner, once each, in entrant order. */
  lemma {:induction false} WinnersAllZero(names: seq<string>, totals: seq<nat>)
    requires |names| == |totals|
    requires forall i :: 0 <= i < |totals| ==> totals[i] == 0
    ensures MaxOf(totals) == 0
    ensures Winners(names, totals) == names
  {
    if names != [] {
      WinnersAllZero(names[..|names| - 1], totals[..|totals| - 1]);
    }
  }

  /** Some entrant means some winner: the list is never empty when there are entrants. */
  lemma WinnersNonEmpty(names: seq<string>, totals: seq<nat>)
    requires |names| == |totals| && |names| >= 1
    ensures |Winners(names, totals)| >= 1
  {
    var m := MaxOf(totals);
    if m == 0 {
      WithTotalAll(names, totals);
    }
  }

  lemma {:induction false} WithTotalAll(names: seq<string>, totals: seq<nat>)
    requires |names| == |totals| && MaxOf(totals) == 0
    ensures WithTotal(names, totals, 0) == names
  {
    if names != [] {
      var t := totals[..|totals| - 1];
      assert forall i :: 0 <= i < |t| ==> t[i] == totals[i];
      WithTotalAll(names[..|names| - 1], t);
    }
  }

  /** Two entrants tied on a positive maximum: the first is listed twice, the second once. */
  lemma TieExample(a: string, b: string, v: nat)
    requires v > 0
    ensures ScanTotals([a, b], [v, v]) == Scan(v, [a, a, b])
  {
    ScanTotalsSnoc([], [], a, v);
    assert ScanTotals([a], [v]) == Scan(v, [a, a]);
    ScanTotalsSnoc([a], [v], b, v);
    assert [a] + [b] == [a, b] && [v] + [v] == [v, v];
  }
}
