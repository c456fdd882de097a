# mad_as_a_march_aardvark: the outcome engine, modelled in Dafny

This project models the part of an NCAA pick-pool tool that answers one question: with
the tournament part-way through, who can still win the pool, and how often? The engine works in five steps:

1. It takes the teams still alive in the bracket.
2. It enumerates every way the remaining games can go (2^(n-1) outcomes for n teams).
3. It scores every entrant's remaining picks against each outcome, on top of the points that
   entrant has already earned.
4. For each outcome it credits the top scorers.
5. It ranks the entrants by credit and builds a leaderboard with next-round team counts.

The baseline scorer (`score_group.py`) and the team table kept up to date from the bracket page
(`real_world.py`) are modelled too.

The model follows the source's own form:

- The loops of `find_future_outcomes.py` and `score_group.py` are Dafny methods with loop
  invariants. Each is proved equal to a recursive specification function.
- The properties are lemmas about those functions.
- The `RealWorld` object is a class whose methods update its fields.
- Python dictionaries keep insertion order. They are modelled as `Dict(keys, vals)`: a key
  sequence plus a map, where assigning an existing key keeps its position.
- Exceptions the code can raise are values of a `Result` type: `KeyError(key)`,
  `IndexError` and `BracketSize`.

Modules:

| file | module | models |
|---|---|---|
| seqs.dfy | Seqs | shared sequence helpers: distinctness, sums, powers of two |
| wrappers.dfy | Wrappers | `Result`, `Option`, and the insertion-ordered `Dict` |
| text.dfy | Text | `str.split`, `str.strip`, `str.join`, and `lst[-k:]` |
| teams.dfy | Teams | team rows and the two-digit bracket keys `"01"`..`"64"` |
| picks.dfy | Picks | the picks file: one line per entrant, its name, a colon, then its picks separated by bars |
| score_group.dfy | ScoreGroup | `count_wins`, `score_group`, `calc_scores` |
| future_outcomes.dfy | FutureOutcomes | the alive filter and the outcome enumeration |
| comparisons.dfy | Comparisons | `gen_panswers`, `comp_score`, and the winner scan of one outcome |
| credits.dfy | Credits | the outcome loop's credits and recorded outcomes, and the descending sort |
| consolidate.dfy | Consolidate | `consolidate` |
| pipeline.dfy | Pipeline | `gen_comparisons` end to end |
| real_world.dfy | RealWorld | `add_gm_info`'s update, `flatten`, `normalize` |

## Behaviour as the code has it

The model follows the code where it differs from the documented intent of the pool:

- The winner scan starts from `maxv = 0`, and a new strict maximum sets `pkey = [indx]`.
  The following `pts == maxv` test then appends the same entrant again. So:
  - The first entrant to reach a positive maximum is listed twice. Two entrants tied on a
    positive maximum are listed `[a, a, b]`: `a` gains 2/3 and records the outcome twice, and
    `b` gains 1/3 and records it once. The documented intent is half each. See
    `Comparisons.TieExample`, `Credits.TieCredit` and `Comparisons.WinnersCount`.
  - When every total is 0, every entrant is credited, with 1/n each. The documented intent
    is that a zero maximum credits nobody. See `Comparisons.WinnersAllZero`.
  - Every outcome still hands out exactly 1.0 in credit (`Credits.CreditsTotal`).
- `wins` in a leaderboard entry is `len(big_comp[person])`. It counts the doubled records
  too.
- With one team left, the enumeration yields the single empty outcome `[[]]`. It does not
  yield an empty set. Every pick list is then compared against `[]`, and `comp_score` raises
  `IndexError` (`Pipeline.ChampionDecided`).
- A number of alive teams that is not a power of two is reported as `BracketSize`.
  - In the code, zero alive teams makes `itertools.product` raise `ValueError`.
  - For any other count that is not a power of two, a round with an odd number of teams spends a
    bit on its unpaired last team. The first (all-zero) tuple is then read past its end at
    `rcomb[rcind]`, an `IndexError`. With three teams, the first round reads bits 0 and 1, and the
    second round asks for bit 2 of a two-bit tuple.

## Model

| member | source | states |
|---|---|---|
| Text.Split | score_group.py:44-45 | the pieces contain no separator; a line without the separator is one piece, a line with it at least two |
| Text.SplitJoin | score_group.py:44-45 | joining separator-free pieces and splitting again gives the pieces back |
| Text.JoinSplit | score_group.py:44-45 | splitting a line and joining the pieces gives the line back |
| Text.Strip | score_group.py:41 | the result starts and ends with a non-whitespace character, or is empty |
| Text.StripParts | score_group.py:41 | the text is whitespace, then the stripped text, then whitespace |
| Text.StripClean | find_future_outcomes.py:58 | text with no whitespace at either end is unchanged |
| Text.Tail | find_future_outcomes.py:62 | `lst[-k:]`: a suffix of the list; k items when 1 <= k <= len; the whole list when k is 0 or too large |
| Teams.TeamKey | score_group.py:22-24 | `f"{n:02d}"` is a two-character key |
| Teams.KeyRoundTrip | score_group.py:22-24 | the key of a position is a valid key and reads back as that position; a valid key is the key of its position |
| Teams.AllKeysOrdered | find_future_outcomes.py:26-28 | the 64 keys are distinct and in increasing position order |
| Teams.AllKeysAreKeys | score_group.py:22-24 | a string is one of the 64 keys exactly when it is a two-digit position 01..64 |
| Picks.ParseLine | score_group.py:44-45 | a line parses exactly when it has a ':'; otherwise `parts[1]` is an IndexError |
| Picks.ParseLineFormat | find_future_outcomes.py:61-62 | a line written as the name, a colon and the teams joined by bars parses back to that name and those teams |
| Picks.ParseTable | score_group.py:42-47 | the table built over the lines is a well-formed insertion-ordered dictionary |
| Picks.ParseTableOutcome | score_group.py:43-46 | the table is built exactly when every line is accepted; otherwise it fails with the first bad line's error |
| Picks.ParseTableKeys | score_group.py:42-47 | the keys are the entrant names in order of first appearance |
| Picks.ParseTableLastLine | score_group.py:46 | a name maps to the value of the last line that carries it |
| ScoreGroup.CountsKeys | score_group.py:21-27 | the histogram has exactly the keys 01..64, each holding its number of occurrences in the pick list |
| ScoreGroup.HistogramIsCounts | score_group.py:21-27 | any map with those keys and counts is the histogram |
| ScoreGroup.Counts | score_group.py:21-27 | the histogram `count_wins` returns: each of its keys holds the number of times that team occurs in the pick list |
| ScoreGroup.CountsResultAt | score_group.py:25-26 | the first pick that is not a position raises KeyError with that pick; with none, the histogram is returned |
| ScoreGroup.CountsResult | score_group.py:21-27 | `count_wins` as a value: it fails exactly when some pick is not a position 01..64, and the failure is a KeyError naming such a pick |
| ScoreGroup.ZeroHistogram | score_group.py:21-24 | the first loop sets every position 01..64 to 0 |
| ScoreGroup.CountWins | score_group.py:21-27 | `count_wins` returns the histogram of the picks, or the KeyError of the first stray pick |
| ScoreGroup.CountsTotal | score_group.py:25-26 | with only valid positions, the counts add up to the number of picks |
| ScoreGroup.ScoreGroup | score_group.py:41-47 | `score_group` equals the table of `count_wins` over the stripped, split lines, with its errors |
| ScoreGroup.ScoreLines | score_group.py:43-46 | the loop over the lines builds that table, stopping at the first error |
| ScoreGroup.ScoreTableClosedForm | score_group.py:58 | entry w of the score table is 10·(2^w − 1); each round adds 10·2^w |
| ScoreGroup.ScoreTableMonotone | score_group.py:58 | the score table never decreases |
| ScoreGroup.UserScore | score_group.py:61-68 | one entrant's score is Σ score_table[min(picked, won)] over the 64 positions; IndexError when an index passes the table |
| ScoreGroup.Credited | score_group.py:65-67 | the games of a team that count: `min(picked, won)`; its bounds are used through `Points` (no contract of its own) |
| ScoreGroup.Points | score_group.py:62-68 | Σ `score_table[min(picked, won)]` over positions 1..n; it is at most 630 per position |
| ScoreGroup.Baseline | score_group.py:61-69 | one entrant's baseline, the sum over all 64 positions; its properties are stated by `ScoreGroup.BaselineProperties` (no contract of its own) |
| ScoreGroup.CalcScores | score_group.py:56-70 | every entrant, in order, gets its baseline; the call fails with IndexError exactly when some entrant's index passes the table |
| ScoreGroup.PointsMultipleOfTen | score_group.py:62-68 | a running baseline is a multiple of 10 |
| ScoreGroup.PointsMonotone | score_group.py:62-68 | more picks of a team, or more actual wins, never lower the running score |
| ScoreGroup.BaselineProperties | score_group.py:61-69 | a baseline is a multiple of 10 and never decreases as picks or wins rise |
| FutureOutcomes.AliveTeams | find_future_outcomes.py:26-30 | the loop returns the alive list: positions 01..64 in order whose team is not out |
| FutureOutcomes.Alive | find_future_outcomes.py:26-30 | the alive list: at most 64 teams, each a row of the table that is not out |
| FutureOutcomes.AliveUpToMembers | find_future_outcomes.py:26-30 | after n positions, the list holds exactly the alive teams among them, in strictly increasing position |
| FutureOutcomes.AliveMembers | find_future_outcomes.py:26-30 | a team is in the alive list iff it is a position whose team is not out; the list has no repeats |
| FutureOutcomes.Bits | find_future_outcomes.py:31 | the c-th tuple of `product([0, 1], repeat=m)` has m bits |
| FutureOutcomes.BitsValue | find_future_outcomes.py:31 | the c-th tuple reads back as c |
| FutureOutcomes.ValueBits | find_future_outcomes.py:31 | every m-bit tuple is enumerated, at the index it spells |
| FutureOutcomes.BitsLexOrder | find_future_outcomes.py:31 | the tuples come in lexicographic order |
| FutureOutcomes.Round | find_future_outcomes.py:37-41 | a round halves the field; the winner of game i is team 2i or team 2i + 1 |
| FutureOutcomes.Play | find_future_outcomes.py:35-42 | the outcome of one bit tuple: the round winners, then the bracket they form, round-major; `PlayLength`, `PlayMembers` and `FirstRound` state its shape (no contract of its own) |
| FutureOutcomes.Outcomes | find_future_outcomes.py:31-44 | there are 2^(n-1) outcomes |
| FutureOutcomes.PlayRound | find_future_outcomes.py:36-41 | the inner `for` picks `teams_left[indx2 + rcomb[rcind]]` for each pair; this is the round function |
| FutureOutcomes.PlayOut | find_future_outcomes.py:32-43 | the `while` over the rounds produces the outcome of the bit tuple |
| FutureOutcomes.GenFutureOutcomes | find_future_outcomes.py:23-44 | the alive list, then one outcome per tuple in product order; BracketSize when the count is not a power of two |
| FutureOutcomes.PlayLength | find_future_outcomes.py:35-42 | an outcome has one entry per game, n − 1 for n teams |
| FutureOutcomes.PlayMembers | find_future_outcomes.py:38-40 | every recorded winner is one of the alive teams |
| FutureOutcomes.FirstRound | find_future_outcomes.py:37-41 | the first n/2 entries are the first-round winners chosen by the first n/2 bits |
| FutureOutcomes.PlayInjective | find_future_outcomes.py:31-43 | with distinct teams, different bit tuples give different outcomes |
| FutureOutcomes.OutcomesShape | find_future_outcomes.py:31-44 | 2^(n-1) outcomes of n − 1 alive teams each, pairwise distinct when the teams are |
| FutureOutcomes.TwoTeams | find_future_outcomes.py:31-44 | two teams give `[[a], [b]]` |
| FutureOutcomes.FourTeams | find_future_outcomes.py:31-44 | four teams give the eight outcomes, in order, semifinal winners first and then the champion |
| Comparisons.GenPanswers | find_future_outcomes.py:58-63 | `gen_panswers` equals the table of each line's last `gms_left` picks, with its errors |
| Comparisons.KeepTail | find_future_outcomes.py:62 | the value stored for an entrant never fails and is `lst[-k:]` of its picks (`Text.Tail`) |
| Comparisons.PanswerLines | find_future_outcomes.py:59-62 | the loop over the lines builds that table, stopping at the first error |
| Comparisons.PanswersEntry | find_future_outcomes.py:60-62 | an entrant's stored picks are the last `gms_left` of its last line, exactly `gms_left` of them when the line has enough |
| Comparisons.PanswersOk | find_future_outcomes.py:61-62 | a file whose every line has a ':' is read without error |
| Comparisons.SPatternValues | find_future_outcomes.py:109 | the table is 8×40, 4×80, 2×160 and 320 |
| Comparisons.Pattern | find_future_outcomes.py:110 | the covered values: one per pick, from the end of the table, at most 15 |
| Comparisons.PatternIsTail | find_future_outcomes.py:109-110 | these values are exactly `spattern[-len(list1):]` |
| Comparisons.MatchPoints | find_future_outcomes.py:111-115 | the running `total` after n games; it is 0 when no pick so far matches |
| Comparisons.CompScoreResult | find_future_outcomes.py:109-115 | `comp_score` as a value: it succeeds exactly when the pick list is nonempty and the outcome is at least as long as the covered games (`min(len(list1), 15)`); otherwise IndexError |
| Comparisons.CompScore | find_future_outcomes.py:109-115 | the loop totals the value of every game where pick and outcome agree; IndexError when a list is too short |
| Comparisons.MatchPointsBounds | find_future_outcomes.py:111-115 | a partial score is at most the covered value, and equal to it iff every pick so far matches |
| Comparisons.CompScoreSelf | find_future_outcomes.py:109-115 | a pick list scored against itself earns the full covered value |
| Comparisons.CompScoreBounds | find_future_outcomes.py:109-115 | a score is at most the covered value, and equal to it iff every covered pick matches |
| Comparisons.CompScoreEmptyOutcome | find_future_outcomes.py:113 | a nonempty pick list against an empty outcome raises IndexError |
| Comparisons.RoundsValue | find_future_outcomes.py:109-110 | each remaining round is worth 320 points in all |
| Comparisons.PerfectPicks | find_future_outcomes.py:109-115 | with r rounds left, a pick list scored against itself earns 320·r, and no outcome earns it more |
| Comparisons.Totals | find_future_outcomes.py:84-85 | one total per entrant, in entrant order, or the first KeyError or IndexError |
| Comparisons.TotalsFirst | find_future_outcomes.py:84-85 | the first entrant's missing baseline is a KeyError, and its short pick list an IndexError |
| Comparisons.ScanOutcome | find_future_outcomes.py:82-90 | the entrant loop yields the scan of the totals, or the totals' error |
| Comparisons.ScanStep | find_future_outcomes.py:86-90 | one entrant of the scan: the maximum becomes the larger of the two; a new strict maximum makes the list that entrant twice, an equal total appends it once, a lower one leaves the list alone |
| Comparisons.ScanTotals | find_future_outcomes.py:82-90 | the scan over all entrants, starting from `maxv = 0`, `pkey = []`; `Comparisons.ScanIsWinners` proves it equal to `Winners` (no contract of its own) |
| Comparisons.MaxOf | find_future_outcomes.py:82-88 | the running maximum bounds every total and is 0 or one of them |
| Comparisons.ScanIsWinners | find_future_outcomes.py:82-90 | the scan ends with the largest total (or 0) and the winner list defined independently of the loop |
| Comparisons.Winners | find_future_outcomes.py:82-90 | the reference winner list, defined without the loop: every listed winner is an entrant |
| Comparisons.WinnersSnoc | find_future_outcomes.py:86-90 | the independent winner list follows the scan step, entrant by entrant |
| Comparisons.WinnersSnocNewMax | find_future_outcomes.py:86-90 | a new strict maximum makes the list that entrant twice |
| Comparisons.WinnersSnocSameMax | find_future_outcomes.py:89-90 | otherwise an entrant equal to the maximum is appended once |
| Comparisons.WinnersCount | find_future_outcomes.py:82-90 | with distinct entrants, an entrant appears once if it has the maximum, plus once if it first reached a positive maximum |
| Comparisons.WinnersAllZero | find_future_outcomes.py:82-90 | when every total is 0, every entrant is a winner, once each, in order |
| Comparisons.WinnersNonEmpty | find_future_outcomes.py:82-90 | with at least one entrant the winner list is never empty |
| Comparisons.TieExample | find_future_outcomes.py:86-90 | two entrants tied on a positive total scan to `[a, a, b]` |
| Credits.Initial | find_future_outcomes.py:77-79 | every entrant starts at 0.0 with no outcome recorded |
| Credits.Credit | find_future_outcomes.py:91-93 | crediting keeps the entrant set |
| Credits.OutcomeWinners | find_future_outcomes.py:82-90 | an outcome's winners are entrants |
| Credits.Aggregate | find_future_outcomes.py:81-93 | after the outcome loop every entrant has a credit and a record list |
| Credits.CreditWinners | find_future_outcomes.py:91-93 | the `pkey` loop adds `1.0 / len(pkey)` per entry and appends the outcome per entry |
| Credits.Share | find_future_outcomes.py:92 | the credit per list entry, `1.0 / len(pkey)`: non-negative, and times the list length it is exactly 1 |
| Credits.CreditOutcomes | find_future_outcomes.py:77-93 | the setup loop and the outcome loop compute the aggregate, or the first outcome's error |
| Credits.AggregateErrSticks | find_future_outcomes.py:81-85 | an outcome that fails fails the whole loop with its error |
| Credits.CreditSum | find_future_outcomes.py:91-92 | crediting a list adds its share once per entry to the sum over the entrants |
| Credits.OneOutcomeTotal | find_future_outcomes.py:91-92 | one outcome hands out exactly 1.0 in all |
| Credits.CreditsTotal | find_future_outcomes.py:81-93 | with at least one entrant the credits add up to the number of outcomes |
| Credits.WinnersExist | find_future_outcomes.py:82-90 | with at least one entrant every outcome has a winner |
| Credits.OneOutcomeConsistent | find_future_outcomes.py:91-93 | crediting keeps credits non-negative, and keeps zero credit matching an empty record list |
| Credits.AggregateConsistent | find_future_outcomes.py:81-93 | after the loop, an entrant has positive credit exactly when some outcome is recorded for it |
| Credits.CreditRecords | find_future_outcomes.py:93 | crediting records only the outcome at hand |
| Credits.RecordedOutcomes | find_future_outcomes.py:81-93 | every outcome recorded for an entrant is one of the enumerated outcomes |
| Credits.TieCredit | find_future_outcomes.py:91-93 | a `[a, a, b]` list gives a +2/3 and two records, and b +1/3 and one record |
| Credits.Insert | find_future_outcomes.py:95 | inserting adds exactly that key to the multiset |
| Credits.SortDesc | find_future_outcomes.py:95 | the sort is a permutation of the keys |
| Credits.SortDescCorrect | find_future_outcomes.py:95 | the sort is a permutation, in descending credit, stable among equal credits |
| Credits.RankingValid | find_future_outcomes.py:94-96 | the ranking is a dictionary over exactly the entrants, in descending credit |
| Credits.Ranking | find_future_outcomes.py:94-96 | `pctwinsnum` as a value: its keys are a permutation of the entrants, and each entrant keeps its credit |
| Credits.RankByCredit | find_future_outcomes.py:94-96 | the loop builds `pctwinsnum`, which is the ranking |
| Consolidate.FirstZero | find_future_outcomes.py:134-136 | the `break` position: every earlier credit is nonzero, and the credit there is zero |
| Consolidate.Kept | find_future_outcomes.py:134-136 | the entrants the first loop keeps: a prefix of the ranking, every kept credit nonzero, and the next entrant's credit zero |
| Consolidate.Bump | find_future_outcomes.py:147-150 | `gresults[cnt][gmres] += 1`, or `= 1` for a new team: the count table stays a well-formed dictionary |
| Consolidate.Counted | find_future_outcomes.py:143-150 | the count table of a column, one `Bump` per entry: a well-formed dictionary; `Consolidate.CountedCounts` and `Consolidate.CountedTotal` state its counts |
| Consolidate.Column | find_future_outcomes.py:143-146 | one winner per outcome long enough to reach game c |
| Consolidate.NextRound | find_future_outcomes.py:141-142 | one table per game of the next round, `(len + 1) // 2` tables |
| Consolidate.CountNextRound | find_future_outcomes.py:141-151 | the `gresults` loop computes the next-round tables |
| Consolidate.KeepContenders | find_future_outcomes.py:133-139 | the first loop keeps the entrants before the first zero credit, with outcome count and credit |
| Consolidate.AddNextRounds | find_future_outcomes.py:140-151 | the second loop adds each entry's tables, raising IndexError for an entrant with no outcome |
| Consolidate.ConsolidateStandings | find_future_outcomes.py:133-152 | `consolidate` computes the leaderboard value |
| Consolidate.ConsolidateResult | find_future_outcomes.py:133-152 | `consolidate` as a value: it fails exactly when a kept entrant has no outcome recorded, with IndexError; otherwise a well-formed table keyed by the kept entrants in ranking order |
| Consolidate.Standings | find_future_outcomes.py:138-151 | each kept entrant's entry: `wins` is its positive record count, `pct` its credit, and `next_round` has `(len + 1) // 2` tables |
| Consolidate.CountedCounts | find_future_outcomes.py:147-150 | a count table holds each team of the column with its occurrences, keyed in order of first occurrence |
| Consolidate.CountedTotal | find_future_outcomes.py:147-150 | a table's counts add up to the length of its column |
| Consolidate.NextRoundCounts | find_future_outcomes.py:141-151 | table c counts the game-c winners over the outcomes; with equal lengths the counts add up to the number of outcomes |
| Consolidate.KeptPositive | find_future_outcomes.py:134-136 | for descending non-negative credits, kept exactly when the credit is positive |
| Consolidate.ConsolidateOk | find_future_outcomes.py:133-152 | when every kept entrant has a record, the entries are the kept entrants with count, credit and `(len + 1) // 2` tables |
| RealWorld.Cap | real_world.py:74-76 | a row with at least g wins drops to g and is revived; others are unchanged |
| RealWorld.Flattened | real_world.py:73-76 | flattening keeps the set of positions |
| RealWorld.Played | real_world.py:63-64 | a game keeps the set of positions |
| RealWorld.PlayedAll | real_world.py:59-64 | a list of games keeps the set of positions |
| RealWorld.MinAlive | real_world.py:83-87 | `minp` is at most 6 |
| RealWorld.TeamTable.constructor | real_world.py:23-36 | the table holds the rows read, in their order |
| RealWorld.TeamTable.ApplyGame | real_world.py:63-64 | the winner gains a win, then the loser is out; the key order is unchanged |
| RealWorld.TeamTable.AddGames | real_world.py:59-64 | the games are applied in order |
| RealWorld.TeamTable.Flatten | real_world.py:73-76 | every row is capped at g; the key order is unchanged |
| RealWorld.TeamTable.Normalize | real_world.py:83-88 | flattens to the least win count of a surviving team; afterwards every team is alive with `minp` wins or out with fewer |
| RealWorld.TeamTable.Refresh | real_world.py:37-46 | the games, then `normalize`, then `flatten(level)` when a level is set |
| RealWorld.PlayedChanges | real_world.py:63-64 | only the winner's wins and the loser's flag change |
| RealWorld.FlattenedRows | real_world.py:73-76 | rows with at least g wins end with g and alive; the others are untouched |
| RealWorld.FlattenedIdempotent | real_world.py:73-76 | flattening twice to one level is flattening once |
| RealWorld.MinAliveIsMinimum | real_world.py:83-87 | `minp` is at most every surviving team's wins, and is 6 or one of them |
| RealWorld.NormalizedRows | real_world.py:83-88 | after `normalize`, each team is alive with `minp` wins, or out with fewer |
| Pipeline.GenComparisons | find_future_outcomes.py:73-97 | `gen_comparisons` computes the leaderboard value, with every error it can raise |
| Pipeline.Leaderboard | find_future_outcomes.py:73-97 | `gen_comparisons` as a value: BracketSize when the alive count is not a power of two; a success is a well-formed table |
| Pipeline.Ranked | find_future_outcomes.py:94-97 | ranking then consolidate: its only failure is IndexError, and every listed entrant is an entrant with nonzero credit |
| Pipeline.RankedLeaderboard | find_future_outcomes.py:94-97 | after a successful loop, consolidate succeeds: the leaderboard lists exactly the entrants with positive credit, best first, each with its record count and credit |
| Pipeline.RankedFacts | find_future_outcomes.py:133-136 | for a consistent tally, the kept entrants are those with positive credit, each with a record, in descending order |
| Pipeline.LeaderboardCredits | find_future_outcomes.py:81-93 | the credits of all entrants add up to the number of outcomes |
| Pipeline.OneTeamLeft | find_future_outcomes.py:31-44 | one team left gives the single empty outcome |
| Pipeline.OneTeamLeftFails | find_future_outcomes.py:84-85 | on the empty outcome the first entrant's comparison raises IndexError |
| Pipeline.PanswersNonEmpty | find_future_outcomes.py:62 | every stored pick list is nonempty |
| Pipeline.ChampionDecided | find_future_outcomes.py:73-85 | with one team left, `gen_comparisons` raises IndexError |

## Left out

- HTTP and scraping, in `get_scores.py`, `get_espn_driver.py`, `collect_entries.py` and the `RealWorld` constructor's
  page parsing. The team table, the picks text and the list of decided games are parameters.
- `add_gm_info`'s CSS selection and its abbreviation lookup `rev_indx` are not modelled.
  `RealWorld.TeamTable.AddGames` takes the decided games as (winner, loser) positions.
- File and configuration I/O. Reading `picks.txt`, writing `leaders.json` and reading
  `march_madness.ini` are not modelled. The file text, and the level as an `Option`, are parameters.
- `Pipeline.GenComparisons` takes the baseline scores `startpts` as a parameter. It does not
  call `calc_scores`, which reads the file and the site again. `ScoreGroup.CalcScores`
  models that call separately.
- `print` in `consolidate` and in the `__main__` blocks is not modelled.
- `madness.py` and `generate_display.py`, the rendering, are not part of this model.
- Credits are modelled as exact reals, not floats. `1.0 / len(pkey)` and the running sums
  carry no rounding, so `Credits.CreditsTotal` holds exactly. A float sum may differ in the
  last bit.
- `Text.Strip` removes the characters up to U+00FF that Python's `str.isspace` accepts: space,
  tab, line feed, vertical tab, form feed, carriage return, the separators U+001C..U+001F, U+0085
  and U+00A0. It keeps the spaces above U+00FF (U+1680, U+2000..U+200A, U+2028, U+2029, U+202F,
  U+205F, U+3000), which `str.strip` also removes.
- `FutureOutcomes.GenFutureOutcomes` collapses the `ValueError` for zero alive teams and the
  `IndexError` for other counts that are not a power of two into one `BracketSize` error.
- The team table is required to hold a row for all 64 positions (`Complete`). This applies to
  `AliveTeams`, `UserScore`, `CalcScores` and `GenComparisons`. A missing position would be a
  `KeyError` in the code, and the scraper always builds all 64 rows.
- `TeamInfo.wins` is a natural number: the model assumes the scraper never yields a negative
  count. The scraper's `find_wins` returns −1 for a team whose title it does not find. In the
  code a −1 would make `calc_scores` read `score_table[-1]` and score 630.
- `Comparisons.Pattern` computes the covered game values in closed form.
  `Comparisons.PatternIsTail` proves them equal to the slice `spattern[-len(list1):]`.
