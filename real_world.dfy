/** The actual tournament state: one row per bracket position, updated as games are decided. */
module RealWorld {
  import opened Seqs
  import opened Wrappers
  import opened Teams

  /** One decided game, as the bracket positions of its winner and its loser. */
  datatype Game = Game(winner: TeamId, loser: TeamId)

  /** `flatten` applied to one row: a team with at least `g` wins is set back to `g` wins and revived. */
  function Cap(t: TeamInfo, g: nat): (t': TeamInfo)
    ensures t.wins >= g ==> t'.wins == g && !t'.out
    ensures t.wins < g ==> t' == t
    ensures t'.team == t.team && t'.abbrev == t.abbrev && t'.wins <= t.wins
  {
    if t.wins >= g then t.(wins := g, out := false) else t
  }

  /** The table after `flatten(g)`: every row capped, no row added or removed. */
  function Flattened(info: map<TeamId, TeamInfo>, g: nat): (m: map<TeamId, TeamInfo>)
    ensures m.Keys == info.Keys
  {
    map k | k in info :: Cap(info[k], g)
  }

  /** The table with only the rows in `done` flattened: the state part-way through `flatten`. */
  ghost function FlattenedOn(info: map<TeamId, TeamInfo>, g: nat, done: set<TeamId>): map<TeamId, TeamInfo> {
    map k | k in info :: if k in done then Cap(info[k], g) else info[k]
  }

  lemma FlattenedOnStep(info: map<TeamId, TeamInfo>, g: nat, done: set<TeamId>, k: TeamId)
    requires k in info
    ensures var m := FlattenedOn(info, g, done);
            m[k := Cap(m[k], g)] == FlattenedOn(info, g, done + {k})
  {
  }

  lemma FlattenedOnAll(info: map<TeamId, TeamInfo>, g: nat, done: set<TeamId>)
    requires info.Keys <= done
    ensures FlattenedOn(info, g, done) == Flattened(info, g)
  {
  }

  /** The table after one game: the winner gains a win, then the loser is marked out. */
  function Played(info: map<TeamId, TeamInfo>, game: Game): (m: map<TeamId, TeamInfo>)
    requires game.winner in info && game.loser in info
    ensures m.Keys == info.Keys
  {
    var won := info[game.winner := info[game.winner].(wins := info[game.winner].wins + 1)];
    won[game.loser := won[game.loser].(out := true)]
  }

  /** The table after a list of games, applied in order. */
  function PlayedAll(info: map<TeamId, TeamInfo>, games: seq<Game>): (m: map<TeamId, TeamInfo>)
    requires forall i :: 0 <= i < |games| ==> games[i].winner in info && games[i].loser in info
    ensures m.Keys == info.Keys
  {
    if games == [] then info
    else
      var before := PlayedAll(info, games[..|games| - 1]);
      Played(before, games[|games| - 1])
  }

  /** `minp` of `normalize`: the least win count among teams still alive, visited in table order, starting from 6. */
  function MinAlive(ks: seq<TeamId>, info: map<TeamId, TeamInfo>): (minp: nat)
    requires forall k <- ks :: k in info
    ensures minp <= 6
  {
    if ks == [] then 6
    else
      var minp := MinAlive(ks[..|ks| - 1], info);
      var t := info[ks[|ks| - 1]];
      if t.wins < minp && !t.out then t.wins else minp
  }

  /** The team table of the real tournament, keyed by bracket position in insertion order. */
  class TeamTable {
    var order: seq<TeamId>
    var info: map<TeamId, TeamInfo>

    /** The keys are listed once each, in insertion order, and every listed key has a row. */
    ghost predicate Valid()
      reads this
    {
      Distinct(order) && (forall k <- order :: k in info) && (forall k <- info.Keys :: k in order)
    }

    /** A table built from rows already read, in their order. */
    constructor(rows: Dict<TeamId, TeamInfo>)
      requires rows.Valid()
      ensures Valid()
      ensures order == rows.keys && info == rows.vals
    {
      order := rows.keys;
      info := rows.vals;
    }

    /** The update step of `add_gm_info`: the winner gains a win and the loser is out. */
    method ApplyGame(game: Game)
      requires Valid()
      requires game.winner in info && game.loser in info
      modifies this
      ensures Valid()
      ensures order == old(order)
      ensures info == Played(old(info), game)
    {
      var w := info[game.winner];
      info := info[game.winner := w.(wins := w.wins + 1)];
      var l := info[game.loser];
      info := info[game.loser := l.(out := true)];
    }

    /** Every game found on the bracket page, applied in order. */
    method AddGames(games: seq<Game>)
      requires Valid()
      requires forall i :: 0 <= i < |games| ==> games[i].winner in info && games[i].loser in info
      modifies this
      ensures Valid()
      ensures order == old(order)
      ensures info == PlayedAll(old(info), games)
    {
      for i := 0 to |games|
        invariant Valid()
        invariant order == old(order)
        invariant info.Keys == old(info).Keys
        invariant info == PlayedAll(old(info), games[..i])
      {
        assert games[..i + 1][..i] == games[..i];
        ApplyGame(games[i]);
      }
      assert games[..|games|] == games;
    }

    /** `flatten(g)`: every team with at least `g` wins is set back to `g` wins and revived. */
    method Flatten(g: nat)
      requires Valid()
      modifies this
      ensures Valid()
      ensures order == old(order)
      ensures info == Flattened(old(info), g)
    {
      var ks := order;
      ghost var done: set<TeamId> := {};
      for i := 0 to |ks|
        invariant order == ks && Valid()
        invariant done <= old(info).Keys
        invariant forall j :: 0 <= j < i ==> ks[j] in done
        invariant info == FlattenedOn(old(info), g, done)
      {
        FlattenedOnStep(old(info), g, done, ks[i]);
        var team := info[ks[i]];
        if team.wins >= g {
          info := info[ks[i] := team.(wins := g, out := false)];
        }
        done := done + {ks[i]};
      }
      FlattenedOnAll(old(info), g, done);
    }

    /** `normalize`: flatten to the least win count among surviving teams (at most 6). */
    method Normalize() returns (minp: nat)
      requires Valid()
      modifies this
      ensures Valid()
      ensures order == old(order)
      ensures minp == MinAlive(old(order), old(info))
      ensures info == Flattened(old(info), minp)
      ensures forall k <- order :: (!info[k].out && info[k].wins == minp) || (info[k].out && info[k].wins < minp)
    {
      minp := 6;
      for i := 0 to |order|
        invariant minp == MinAlive(order[..i], info)
      {
        assert order[..i + 1][..i] == order[..i];
        var team := info[order[i]];
        if team.wins < minp {
          if !team.out {
            minp := team.wins;
          }
        }
      }
      assert order[..|order|] == order;
      forall k <- order {
        NormalizedRows(order, info, k);
      }
      Flatten(minp);
    }

    /** The refresh done when the table is read: all games, then `normalize`, then `flatten(level)` if a level is set. */
    method Refresh(games: seq<Game>, level: Option<nat>)
      requires Valid()
      requires forall i :: 0 <= i < |games| ==> games[i].winner in info && games[i].loser in info
      modifies this
      ensures Valid()
      ensures order == old(order)
      ensures var played := PlayedAll(old(info), games);
              var normal := Flattened(played, MinAlive(order, played));
              info == if level.Some? then Flattened(normal, level.value) else normal
    {
      AddGames(games);
      var _ := Normalize();
      if level.Some? {
        Flatten(level.value);
      }
    }
  }

  /** Only the winner's wins and the loser's out flag change; every other row and field stays. */
  lemma PlayedChanges(info: map<TeamId, TeamInfo>, game: Game, k: TeamId)
    requires game.winner in info && game.loser in info && k in info
    ensures Played(info, game)[k].team == info[k].team
    ensures Played(info, game)[k].abbrev == info[k].abbrev
    ensures Played(info, game)[k].wins == info[k].wins + (if k == game.winner then 1 else 0)
    ensures Played(info, game)[k].out == (info[k].out || k == game.loser)
    ensures k != game.winner && k != game.loser ==> Played(info, game)[k] == info[k]
  {
  }

  /** Teams with at least `g` wins end with exactly `g` and alive; the others are untouched. */
  lemma FlattenedRows(info: map<TeamId, TeamInfo>, g: nat, k: TeamId)
    requires k in info
    ensures info[k].wins >= g ==> Flattened(info, g)[k].wins == g && !Flattened(info, g)[k].out
    ensures info[k].wins < g ==> Flattened(info, g)[k] == info[k]
    ensures Flattened(info, g)[k].team == info[k].team && Flattened(info, g)[k].abbrev == info[k].abbrev
    ensures Flattened(info, g)[k].wins <= info[k].wins
  {
  }

  /** Flattening twice to the same level is flattening once. */
  lemma FlattenedIdempotent(info: map<TeamId, TeamInfo>, g: nat)
    ensures Flattened(Flattened(info, g), g) == Flattened(info, g)
  {
    var once := Flattened(info, g);
    forall k | k in once
      ensures Cap(once[k], g) == once[k]
    {
    }
  }

  /** `minp` is at most 6, at most every surviving team's wins, and is 6 or some surviving team's wins. */
  lemma {:induction false} MinAliveIsMinimum(ks: seq<TeamId>, info: map<TeamId, TeamInfo>)
    requires forall k <- ks :: k in info
    ensures forall k <- ks :: !info[k].out ==> MinAlive(ks, info) <= info[k].wins
    ensures MinAlive(ks, info) == 6 || exists k <- ks :: !info[k].out && info[k].wins == MinAlive(ks, info)
  {
    if ks != [] {
      var init := ks[..|ks| - 1];
      MinAliveIsMinimum(init, info);
      assert ks == init + [ks[|ks| - 1]];
      if MinAlive(ks, info) != 6 && MinAlive(ks, info) == MinAlive(init, info) {
        var k :| k in init && !info[k].out && info[k].wins == MinAlive(init, info);
        assert k in ks;
      }
    }
  }

  /** After `normalize` every team is alive with `minp` wins, or out with fewer. */
  lemma NormalizedRows(ks: seq<TeamId>, info: map<TeamId, TeamInfo>, k: TeamId)
    requires forall k <- ks :: k in info
    requires k in ks
    ensures var minp := MinAlive(ks, info);
            var row := Flattened(info, minp)[k];
            (!row.out && row.wins == minp) || (row.out && row.wins < minp)
  {
    MinAliveIsMinimum(ks, info);
  }
}
