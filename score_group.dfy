/** The baseline scorer: points each entrant has already earned from decided games. */
module ScoreGroup {
  import opened Seqs
  import opened Wrappers
  import opened Text
  import opened Teams
  import opened Picks

  /** Times each bracket position was picked to win a game. */
  type Histogram = map<TeamId, nat>

  /** The histogram `count_wins` builds: every position, with its number of occurrences. */
  function Counts(teams: seq<string>): (h: Histogram)
    ensures forall k <- h.Keys :: h[k] == multiset(teams)[k]
  {
    map n | 1 <= n <= NumTeams :: TeamKey(n) := multiset(teams)[TeamKey(n)]
  }

  /** The histogram has exactly the keys "01".."64", each holding its number of occurrences. */
  lemma CountsKeys(teams: seq<string>, k: string)
    ensures k in Counts(teams) <==> IsKey(k)
    ensures k in Counts(teams) ==> Counts(teams)[k] == multiset(teams)[k]
  {
    if IsKey(k) {
      KeyRoundTrip(KeyNumber(k), k);
    }
    if k in Counts(teams) {
      var n :| 1 <= n <= NumTeams && TeamKey(n) == k;
      KeyRoundTrip(n, k);
    }
  }

  /** `h` has the keys "01".."64" and counts the occurrences of each in `teams`. */
  ghost predicate HistogramOf(h: Histogram, teams: seq<string>) {
    (forall k :: k in h <==> IsKey(k)) &&
    (forall k <- h.Keys :: h[k] == multiset(teams)[k])
  }

  lemma HistogramIsCounts(h: Histogram, teams: seq<string>)
    requires HistogramOf(h, teams)
    ensures h == Counts(teams)
  {
    forall k
      ensures k in h <==> k in Counts(teams)
      ensures k in h ==> h[k] == Counts(teams)[k]
    {
      CountsKeys(teams, k);
    }
  }

  /** Index of the first team that is not a bracket position, or |teams| when all are. */
  function FirstStray(teams: seq<string>): (b: nat)
    ensures b <= |teams|
    ensures forall j :: 0 <= j < b ==> IsKey(teams[j])
    ensures b < |teams| ==> !IsKey(teams[b])
  {
    if teams == [] then 0
    else
      var b := FirstStray(teams[..|teams| - 1]);
      if b < |teams| - 1 then b
      else if IsKey(teams[|teams| - 1]) then |teams|
      else |teams| - 1
  }

  /** `count_wins` as a value: the histogram, or the KeyError of the first stray team. */
  function CountsResult(teams: seq<string>): (r: Result<Histogram>)
    ensures r.Err? <==> exists t <- teams :: !IsKey(t)
    ensures r.Err? ==> r.error.KeyError? && r.error.key in teams && !IsKey(r.error.key)
  {
    var b := FirstStray(teams);
    if b < |teams| then Err(KeyError(teams[b])) else Ok(Counts(teams))
  }

  /** The first stray team decides the KeyError; with none, the histogram is returned. */
  lemma CountsResultAt(teams: seq<string>, i: nat)
    requires i <= |teams|
    requires forall j :: 0 <= j < i ==> IsKey(teams[j])
    requires i < |teams| ==> !IsKey(teams[i])
    ensures i < |teams| ==> CountsResult(teams) == Err(KeyError(teams[i]))
    ensures i == |teams| ==> CountsResult(teams) == Ok(Counts(teams))
  {
    assert FirstStray(teams) == i;
  }

  /** The first loop of count_wins: every position "01".."64" set to zero. */
  method ZeroHistogram() returns (wins: Histogram)
    ensures HistogramOf(wins, [])
  {
    wins := map[];
    for numb := 0 to NumTeams
      invariant forall k :: k in wins <==> IsKey(k) && KeyNumber(k) <= numb
      invariant forall k <- wins.Keys :: wins[k] == 0
    {
      KeyRoundTrip(numb + 1, TeamKey(numb + 1));
      wins := wins[TeamKey(numb + 1) := 0];
      forall k | IsKey(k) && KeyNumber(k) == numb + 1
        ensures k == TeamKey(numb + 1)
      {
        KeyRoundTrip(numb + 1, k);
      }
    }
  }

  /** count_wins: zero every position, then add one per occurrence; a stray team is a KeyError. */
  method CountWins(teams: seq<string>) returns (r: Result<Histogram>)
    ensures r == CountsResult(teams)
  {
    var wins := ZeroHistogram();
    for i := 0 to |teams|
      invariant HistogramOf(wins, teams[..i])
      invariant forall j :: 0 <= j < i ==> IsKey(teams[j])
    {
      var entry := teams[i];
      if entry !in wins {
        CountsResultAt(teams, i);
        return Err(KeyError(entry));
      }
      assert teams[..i + 1] == teams[..i] + [entry];
      wins := wins[entry := wins[entry] + 1];
    }
    assert teams[..|teams|] == teams;
    CountsResultAt(teams, |teams|);
    HistogramIsCounts(wins, teams);
    return Ok(wins);
  }

  /** Sum of a histogram over the positions 1..n. */
  function TotalUpTo(h: Histogram, n: nat): nat
    requires n <= NumTeams
    requires forall m :: 1 <= m <= n ==> TeamKey(m) in h
  {
    if n == 0 then 0 else TotalUpTo(h, n - 1) + h[TeamKey(n)]
  }

  /** Every position is a key of the histogram, holding its number of occurrences. */
  lemma CountsPositions(teams: seq<string>)
    ensures forall m :: 1 <= m <= NumTeams ==>
      TeamKey(m) in Counts(teams) && Counts(teams)[TeamKey(m)] == multiset(teams)[TeamKey(m)]
  {
    forall m | 1 <= m <= NumTeams
      ensures TeamKey(m) in Counts(teams)
    {
      KeyRoundTrip(m, TeamKey(m));
      CountsKeys(teams, TeamKey(m));
    }
  }

  lemma {:induction false} TotalIsSumCounts(teams: seq<string>, n: nat)
    requires n <= NumTeams
    requires forall m :: 1 <= m <= NumTeams ==>
      TeamKey(m) in Counts(teams) && Counts(teams)[TeamKey(m)] == multiset(teams)[TeamKey(m)]
    ensures TotalUpTo(Counts(teams), n) == SumCounts(KeysUpTo(n), multiset(teams))
  {
    if n > 0 {
      TotalIsSumCounts(teams, n - 1);
      assert KeysUpTo(n)[..n - 1] == KeysUpTo(n - 1);
    }
  }

  /** With only valid positions, the histogram counts every pick once: its total is |teams|. */
  lemma CountsTotal(teams: seq<string>)
    requires forall j :: 0 <= j < |teams| ==> IsKey(teams[j])
    ensures forall m :: 1 <= m <= NumTeams ==> TeamKey(m) in Counts(teams)
    ensures TotalUpTo(Counts(teams), NumTeams) == |teams|
  {
    AllKeysOrdered();
    forall t <- teams
      ensures t in AllKeys()
    {
      AllKeysAreKeys(t);
    }
    SumCountsCovers(AllKeys(), teams);
    CountsPositions(teams);
    TotalIsSumCounts(teams, NumTeams);
  }

  /** score_group: every line `name:t1|…` maps name to count_wins of its teams. */
  method ScoreGroup(picdata: string) returns (r: Result<Dict<string, Histogram>>)
    ensures r == ParseTable(Split(Strip(picdata), '\n'), CountsResult)
  {
    r := ScoreLines(Split(Strip(picdata), '\n'));
  }

  /** The loop of score_group over the lines of the picks file. */
  method ScoreLines(lines: seq<string>) returns (r: Result<Dict<string, Histogram>>)
    ensures r == ParseTable(lines, CountsResult)
  {
    var retv: Dict<string, Histogram> := EmptyDict();
    for i := 0 to |lines|
      invariant ParseTable(lines[..i], CountsResult) == Ok(retv)
    {
      var parts := ParseLine(lines[i]);
      if parts.Err? {
        ParseTableStop(lines, CountsResult, i);
        return Err(parts.error);
      }
      var teams := CountWins(parts.value.1);
      if teams.Err? {
        ParseTableStop(lines, CountsResult, i);
        return Err(teams.error);
      }
      ParseTableStep(lines, CountsResult, i, retv);
      retv := retv.Put(parts.value.0, teams.value);
    }
    assert lines[..|lines|] == lines;
    return Ok(retv);
  }

  /** Cumulative points for a team picked to win `w` games: 10, 20, 40, 80, 160, 320 per round. */
  const ScoreTable: seq<nat> := [0, 10, 30, 70, 150, 310, 630]

  /** Each entry of the table is 10·(2^w − 1), the sum of the per-round values up to round w. */
  lemma ScoreTableClosedForm()
    ensures |ScoreTable| == 7
    ensures forall w :: 0 <= w < 7 ==> ScoreTable[w] == 10 * (Pow2(w) - 1)
    ensures forall w :: 0 <= w < 6 ==> ScoreTable[w + 1] == ScoreTable[w] + 10 * Pow2(w)
  {
    assert Pow2(0) == 1 && Pow2(1) == 2 && Pow2(2) == 4 && Pow2(3) == 8;
    assert Pow2(4) == 16 && Pow2(5) == 32 && Pow2(6) == 64;
  }

  /** The games of team `k` that count for an entrant: its actual wins, capped by the picks. */
  function Credited(h: Histogram, actual: map<TeamId, TeamInfo>, k: TeamId): nat
    requires k in h && k in actual
  {
    Min(h[k], actual[k].wins)
  }

  /** Positions 1..n are in both tables and their credited games index the score table. */
  predicate InTableUpTo(h: Histogram, actual: map<TeamId, TeamInfo>, n: nat)
    requires n <= NumTeams
  {
    forall m :: 1 <= m <= n ==>
      TeamKey(m) in h && TeamKey(m) in actual && Credited(h, actual, TeamKey(m)) < |ScoreTable|
  }

  predicate InTable(h: Histogram, actual: map<TeamId, TeamInfo>) {
    InTableUpTo(h, actual, NumTeams)
  }

  /** Σ over the positions 1..n of score_table[min(picked, won)]. */
  function Points(h: Histogram, actual: map<TeamId, TeamInfo>, n: nat): (pts: nat)
    requires n <= NumTeams && InTableUpTo(h, actual, n)
    ensures pts <= 630 * n
  {
    if n == 0 then 0
    else
      ScoreTableMonotone(Credited(h, actual, TeamKey(n)), 6);
      Points(h, actual, n - 1) + ScoreTable[Credited(h, actual, TeamKey(n))]
  }

  /** The baseline score of one entrant. */
  function Baseline(h: Histogram, actual: map<TeamId, TeamInfo>): (pts: nat)
    requires InTable(h, actual)
  {
    Points(h, actual, NumTeams)
  }

  /** The inner loop of calc_scores: one entrant's Σ score_table[min(picked, won)]. */
  method UserScore(h: Histogram, actual: map<TeamId, TeamInfo>) returns (r: Result<nat>)
    requires Complete(actual)
    requires forall n :: 1 <= n <= NumTeams ==> TeamKey(n) in h
    ensures r.Ok? <==> InTable(h, actual)
    ensures r.Ok? ==> r.value == Baseline(h, actual)
    ensures r.Err? ==> r.error == IndexError
  {
    var score := 0;
    for numb := 0 to NumTeams
      invariant InTableUpTo(h, actual, numb)
      invariant score == Points(h, actual, numb)
    {
      var windx := TeamKey(numb + 1);
      var wins := actual[windx].wins;
      if h[windx] < wins {
        wins := h[windx];
      }
      if wins >= |ScoreTable| {
        return Err(IndexError);
      }
      score := score + ScoreTable[wins];
    }
    return Ok(score);
  }

  /** calc_scores: for each entrant in order, Σ score_table[min(picked, won)] over the 64 positions. */
  method CalcScores(users: Dict<string, Histogram>, actual: map<TeamId, TeamInfo>) returns (r: Result<Dict<string, nat>>)
    requires users.Valid()
    requires Complete(actual)
    requires forall u <- users.keys :: forall n :: 1 <= n <= NumTeams ==> TeamKey(n) in users.vals[u]
    ensures r.Ok? <==> forall u <- users.keys :: InTable(users.vals[u], actual)
    ensures r.Ok? ==> r.value.Valid() && r.value.keys == users.keys
    ensures r.Ok? ==> forall u <- users.keys :: r.value.vals[u] == Baseline(users.vals[u], actual)
    ensures r.Err? ==> r.error == IndexError
  {
    var udata: Dict<string, nat> := EmptyDict();
    for ui := 0 to |users.keys|
      invariant udata.Valid() && udata.keys == users.keys[..ui]
      invariant forall j :: 0 <= j < ui ==> InTable(users.vals[users.keys[j]], actual)
      invariant forall j :: 0 <= j < ui ==> udata.vals[users.keys[j]] == Baseline(users.vals[users.keys[j]], actual)
    {
      var user := users.keys[ui];
      assert user in users.keys;
      var score := UserScore(users.vals[user], actual);
      if score.Err? {
        return Err(IndexError);
      }
      assert user !in users.keys[..ui] by {
        assert forall j :: 0 <= j < ui ==> users.keys[j] != users.keys[ui];
      }
      assert users.keys[..ui + 1] == users.keys[..ui] + [user];
      udata := udata.Put(user, score.value);
    }
    assert users.keys[..|users.keys|] == users.keys;
    assert forall u <- users.keys :: exists j :: 0 <= j < |users.keys| && users.keys[j] == u;
    return Ok(udata);
  }

  /** The score table never decreases along its index. */
  lemma ScoreTableMonotone(a: nat, b: nat)
    requires a <= b < |ScoreTable|
    ensures ScoreTable[a] <= ScoreTable[b]
  {
  }

  lemma ScoreTableTens(w: nat)
    requires w < |ScoreTable|
    ensures ScoreTable[w] % 10 == 0
  {
  }

  /** A baseline is a multiple of 10. */
  lemma {:induction false} PointsMultipleOfTen(h: Histogram, actual: map<TeamId, TeamInfo>, n: nat)
    requires n <= NumTeams && InTableUpTo(h, actual, n)
    ensures Points(h, actual, n) % 10 == 0
  {
    if n > 0 {
      PointsMultipleOfTen(h, actual, n - 1);
      ScoreTableTens(Credited(h, actual, TeamKey(n)));
    }
  }

  /** More actual wins, or more picks of a team, never lower the baseline. */
  lemma {:induction false} PointsMonotone(h: Histogram, actual: map<TeamId, TeamInfo>,
                                          h': Histogram, actual': map<TeamId, TeamInfo>, n: nat)
    requires n <= NumTeams && InTableUpTo(h, actual, n) && InTableUpTo(h', actual', n)
    requires forall m :: 1 <= m <= n ==>
      h[TeamKey(m)] <= h'[TeamKey(m)] && actual[TeamKey(m)].wins <= actual'[TeamKey(m)].wins
    ensures Points(h, actual, n) <= Points(h', actual', n)
  {
    if n > 0 {
      PointsMonotone(h, actual, h', actual', n - 1);
      ScoreTableMonotone(Credited(h, actual, TeamKey(n)), Credited(h', actual', TeamKey(n)));
    }
  }

  /** The baseline is a multiple of 10 and never decreases when wins or picks rise. */
  lemma BaselineProperties(h: Histogram, actual: map<TeamId, TeamInfo>, h': Histogram, actual': map<TeamId, TeamInfo>)
    requires InTable(h, actual) && InTable(h', actual')
    requires forall m :: 1 <= m <= NumTeams ==>
      h[TeamKey(m)] <= h'[TeamKey(m)] && actual[TeamKey(m)].wins <= actual'[TeamKey(m)].wins
    ensures Baseline(h, actual) % 10 == 0
    ensures Baseline(h, actual) <= Baseline(h', actual')
  {
    PointsMultipleOfTen(h, actual, NumTeams);
    PointsMonotone(h, actual, h', actual', NumTeams);
  }
}
