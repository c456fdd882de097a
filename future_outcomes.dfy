/** Every way the rest of the tournament can go, given the teams still alive. */
module FutureOutcomes {
  import opened Seqs
  import opened Wrappers
  import opened Teams

  type Bit = b: int | 0 <= b <= 1

  // ---------------------------------------------------------------------------
  // The alive list
  // ---------------------------------------------------------------------------

  /** The positions 1..n whose team is not out, in bracket order. */
  function AliveUpTo(table: map<TeamId, TeamInfo>, n: nat): (alive: seq<TeamId>)
    requires n <= NumTeams && Complete(table)
    ensures |alive| <= n
  {
    if n == 0 then []
    else AliveUpTo(table, n - 1) + (if !table[TeamKey(n)].out then [TeamKey(n)] else [])
  }

  /** The teams still alive, in bracket order. */
  function Alive(table: map<TeamId, TeamInfo>): (alive: seq<TeamId>)
    requires Complete(table)
    ensures |alive| <= NumTeams
    ensures forall k <- alive :: k in table && !table[k].out
  {
    AliveUpToMembers(table, NumTeams);
    AliveUpTo(table, NumTeams)
  }

  /** The alive filter: positions "01".."64" in order, keeping those whose team is not out. */
  method AliveTeams(table: map<TeamId, TeamInfo>) returns (anslst: seq<TeamId>)
    requires Complete(table)
    ensures anslst == Alive(table)
  {
    anslst := [];
    for numb := 0 to NumTeams
      invariant anslst == AliveUpTo(table, numb)
    {
      var indx := TeamKey(numb + 1);
      if !table[indx].out {
        anslst := anslst + [indx];
      }
    }
  }

  /** The alive list holds exactly the positions 1..n whose team is not out, in increasing order. */
  lemma {:induction false} AliveUpToMembers(table: map<TeamId, TeamInfo>, n: nat)
    requires n <= NumTeams && Complete(table)
    ensures forall i :: 0 <= i < |AliveUpTo(table, n)| ==>
      IsKey(AliveUpTo(table, n)[i]) && KeyNumber(AliveUpTo(table, n)[i]) <= n &&
      AliveUpTo(table, n)[i] in table && !table[AliveUpTo(table, n)[i]].out
    ensures forall i, j :: 0 <= i < j < |AliveUpTo(table, n)| ==>
      IsKey(AliveUpTo(table, n)[i]) && IsKey(AliveUpTo(table, n)[j]) &&
      KeyNumber(AliveUpTo(table, n)[i]) < KeyNumber(AliveUpTo(table, n)[j])
    ensures forall m :: 1 <= m <= n && !table[TeamKey(m)].out ==> TeamKey(m) in AliveUpTo(table, n)
  {
    if n > 0 {
      AliveUpToMembers(table, n - 1);
      KeyRoundTrip(n, TeamKey(n));
    }
  }

  /** A team is alive exactly when it is a bracket position whose team is not out; the list has no repeats. */
  lemma AliveMembers(table: map<TeamId, TeamInfo>, k: TeamId)
    requires Complete(table)
    ensures IsKey(k) ==> k in table
    ensures k in Alive(table) <==> IsKey(k) && k in table && !table[k].out
    ensures Distinct(Alive(table))
  {
    AliveUpToMembers(table, NumTeams);
    if IsKey(k) {
      KeyRoundTrip(KeyNumber(k), k);
    }
  }

  // ---------------------------------------------------------------------------
  // Bit tuples in the order of itertools.product([0, 1], repeat=m)
  // ---------------------------------------------------------------------------

  /** The number a bit tuple spells, most significant bit first. */
  function Value(bits: seq<Bit>): nat {
    if bits == [] then 0 else 2 * Value(bits[..|bits| - 1]) + bits[|bits| - 1]
  }

  /** The c-th tuple of `product([0, 1], repeat=m)`: c written in m binary digits, most significant first. */
  function Bits(c: nat, m: nat): (bits: seq<Bit>)
    ensures |bits| == m
  {
    if m == 0 then [] else Bits(c / 2, m - 1) + [c % 2]
  }

  /** Reading the c-th tuple back gives c. */
  lemma {:induction false} BitsValue(c: nat, m: nat)
    requires c < Pow2(m)
    ensures Value(Bits(c, m)) == c
  {
    if m > 0 {
      BitsValue(c / 2, m - 1);
      assert Bits(c, m)[..m - 1] == Bits(c / 2, m - 1);
    }
  }

  /** Every tuple of m bits is enumerated, at the position its value names. */
  lemma {:induction false} ValueBits(bits: seq<Bit>)
    ensures Value(bits) < Pow2(|bits|)
    ensures Bits(Value(bits), |bits|) == bits
  {
    if bits != [] {
      var init := bits[..|bits| - 1];
      ValueBits(init);
      assert bits == init + [bits[|bits| - 1]];
    }
  }

  /** `a` comes strictly before `b` in lexicographic order. */
  predicate LexLess(a: seq<Bit>, b: seq<Bit>) {
    exists i :: 0 <= i < |a| && i < |b| && a[..i] == b[..i] && a[i] < b[i]
  }

  /** A smaller index gives a lexicographically smaller tuple: the enumeration is in lexicographic order. */
  lemma {:induction false} BitsLexOrder(c: nat, d: nat, m: nat)
    requires c < d < Pow2(m)
    ensures LexLess(Bits(c, m), Bits(d, m))
  {
    var bc, bd := Bits(c, m), Bits(d, m);
    assert bc[..m - 1] == Bits(c / 2, m - 1);
    assert bd[..m - 1] == Bits(d / 2, m - 1);
    if c / 2 == d / 2 {
      assert bc[m - 1] < bd[m - 1];
    } else {
      BitsLexOrder(c / 2, d / 2, m - 1);
      var i :| 0 <= i < m - 1 && Bits(c / 2, m - 1)[..i] == Bits(d / 2, m - 1)[..i] &&
        Bits(c / 2, m - 1)[i] < Bits(d / 2, m - 1)[i];
      assert bc[..i] == bc[..m - 1][..i];
      assert bd[..i] == bd[..m - 1][..i];
    }
  }

  // ---------------------------------------------------------------------------
  // Playing out the bracket
  // ---------------------------------------------------------------------------

  /** A bracket size the pairing can reduce to one team. */
  predicate IsPow2(n: nat) {
    n >= 1 && (n == 1 || (n % 2 == 0 && IsPow2(n / 2)))
  }

  /** One round: game i is played between teams 2i and 2i + 1, and bit i picks its winner. */
  function Round(teams: seq<TeamId>, bits: seq<Bit>): (winners: seq<TeamId>)
    requires |teams| % 2 == 0 && |bits| >= |teams| / 2
    ensures |winners| == |teams| / 2
    ensures forall i :: 0 <= i < |winners| ==> winners[i] == teams[2 * i] || winners[i] == teams[2 * i + 1]
  {
    seq(|teams| / 2, i requires 0 <= i < |teams| / 2 => teams[2 * i + bits[i]])
  }

  /** The game winners of a whole bracket, round after round, consuming one bit per game. */
  function Play(teams: seq<TeamId>, bits: seq<Bit>): (outcome: seq<TeamId>)
    requires IsPow2(|teams|) && |bits| == |teams| - 1
    decreases |teams|
  {
    if |teams| == 1 then []
    else
      var winners := Round(teams, bits);
      winners + Play(winners, bits[|teams| / 2..])
  }

  /** A bracket of more than one team: the first round's winners, then the bracket they form. */
  lemma PlayUnfold(teams: seq<TeamId>, bits: seq<Bit>)
    requires IsPow2(|teams|) && |teams| > 1 && |bits| == |teams| - 1
    ensures IsPow2(|teams| / 2) && |Round(teams, bits)| == |teams| / 2
    ensures Play(teams, bits) == Round(teams, bits) + Play(Round(teams, bits), bits[|teams| / 2..])
  {
  }

  /** The running pattern after one more round still extends to the whole outcome. */
  lemma PlayRoundStep(before: seq<TeamId>, teams: seq<TeamId>, bits: seq<Bit>, winners: seq<TeamId>)
    requires IsPow2(|teams|) && |teams| > 1 && |bits| == |teams| - 1
    requires winners == Round(teams, bits)
    ensures IsPow2(|winners|) && |winners| == |teams| / 2
    ensures before + Play(teams, bits) == (before + winners) + Play(winners, bits[|teams| / 2..])
  {
    PlayUnfold(teams, bits);
  }

  /** All outcomes, in enumeration order. */
  function Outcomes(alive: seq<TeamId>): (outs: seq<seq<TeamId>>)
    requires IsPow2(|alive|)
    ensures |outs| == Pow2(|alive| - 1)
  {
    seq(Pow2(|alive| - 1), c requires 0 <= c => Play(alive, Bits(c, |alive| - 1)))
  }

  /** The rounds of one outcome: the inner `while` of the enumeration, for one bit tuple. */
  method PlayOut(alive: seq<TeamId>, rcomb: seq<Bit>) returns (newPattern: seq<TeamId>)
    requires IsPow2(|alive|) && |rcomb| == |alive| - 1
    ensures newPattern == Play(alive, rcomb)
  {
    var teamsLeft := alive;
    newPattern := [];
    var rcind := 0;
    while |teamsLeft| > 1
      invariant IsPow2(|teamsLeft|) && rcind + |teamsLeft| - 1 == |rcomb|
      invariant newPattern + Play(teamsLeft, rcomb[rcind..]) == Play(alive, rcomb)
      decreases |teamsLeft|
    {
      var nextt := PlayRound(teamsLeft, rcomb, rcind);
      PlayOutStep(alive, rcomb, newPattern, teamsLeft, rcind, nextt);
      newPattern := newPattern + nextt;
      rcind := rcind + |teamsLeft| / 2;
      teamsLeft := nextt;
    }
    PlayOutDone(alive, rcomb, newPattern, teamsLeft, rcind);
  }

  /** One pass of the outer loop keeps the running pattern a prefix of the outcome. */
  lemma PlayOutStep(alive: seq<TeamId>, rcomb: seq<Bit>, newPattern: seq<TeamId>, teamsLeft: seq<TeamId>,
                    rcind: nat, nextt: seq<TeamId>)
    requires IsPow2(|alive|) && |rcomb| == |alive| - 1
    requires IsPow2(|teamsLeft|) && |teamsLeft| > 1 && rcind + |teamsLeft| - 1 == |rcomb|
    requires newPattern + Play(teamsLeft, rcomb[rcind..]) == Play(alive, rcomb)
    requires nextt == Round(teamsLeft, rcomb[rcind..])
    ensures IsPow2(|nextt|) && rcind + |teamsLeft| / 2 + |nextt| - 1 == |rcomb|
    ensures (newPattern + nextt) + Play(nextt, rcomb[rcind + |teamsLeft| / 2..]) == Play(alive, rcomb)
  {
    var bits := rcomb[rcind..];
    PlayRoundStep(newPattern, teamsLeft, bits, nextt);
    assert bits[|teamsLeft| / 2..] == rcomb[rcind + |teamsLeft| / 2..];
  }

  /** When one team is left the running pattern is the whole outcome. */
  lemma PlayOutDone(alive: seq<TeamId>, rcomb: seq<Bit>, newPattern: seq<TeamId>, teamsLeft: seq<TeamId>, rcind: nat)
    requires IsPow2(|alive|) && |rcomb| == |alive| - 1
    requires IsPow2(|teamsLeft|) && |teamsLeft| <= 1 && rcind + |teamsLeft| - 1 == |rcomb|
    requires newPattern + Play(teamsLeft, rcomb[rcind..]) == Play(alive, rcomb)
    ensures newPattern == Play(alive, rcomb)
  {
    assert newPattern + [] == newPattern;
  }

  /** One round: `teams_left[indx2 + rcomb[rcind]]` for each pair, one bit per game from position `rcind` on. */
  method PlayRound(teamsLeft: seq<TeamId>, rcomb: seq<Bit>, rcind: nat) returns (nextt: seq<TeamId>)
    requires |teamsLeft| % 2 == 0 && rcind + |teamsLeft| / 2 <= |rcomb|
    ensures nextt == Round(teamsLeft, rcomb[rcind..])
  {
    ghost var bits := rcomb[rcind..];
    ghost var winners := Round(teamsLeft, bits);
    nextt := [];
    var indx2 := 0;
    while indx2 < |teamsLeft|
      invariant indx2 % 2 == 0 && indx2 <= |teamsLeft|
      invariant nextt == winners[..indx2 / 2]
    {
      assert rcomb[rcind + indx2 / 2] == bits[indx2 / 2];
      var tempTm := teamsLeft[indx2 + rcomb[rcind + indx2 / 2]];
      assert winners[..indx2 / 2 + 1] == nextt + [tempTm];
      nextt := nextt + [tempTm];
      indx2 := indx2 + 2;
    }
    assert winners[..|winners|] == winners;
  }

  /** The whole enumeration: the alive list, then one outcome per bit tuple in product order. */
  method GenFutureOutcomes(table: map<TeamId, TeamInfo>) returns (r: Result<seq<seq<TeamId>>>)
    requires Complete(table)
    ensures IsPow2(|Alive(table)|) ==> r == Ok(Outcomes(Alive(table)))
    ensures !IsPow2(|Alive(table)|) ==> r == Err(BracketSize)
  {
    var anslst := AliveTeams(table);
    if !IsPow2(|anslst|) {
      return Err(BracketSize);
    }
    var retList := [];
    var total := Pow2(|anslst| - 1);
    for c := 0 to total
      invariant |retList| == c
      invariant forall j :: 0 <= j < c ==> retList[j] == Outcomes(anslst)[j]
    {
      var pattern := PlayOut(anslst, Bits(c, |anslst| - 1));
      retList := retList + [pattern];
    }
    assert retList == Outcomes(anslst);
    return Ok(retList);
  }

  // ---------------------------------------------------------------------------
  // Properties of the outcomes
  // ---------------------------------------------------------------------------

  /** An outcome has one entry per game: n - 1 for n teams. */
  lemma {:induction false} PlayLength(teams: seq<TeamId>, bits: seq<Bit>)
    requires IsPow2(|teams|) && |bits| == |teams| - 1
    ensures |Play(teams, bits)| == |teams| - 1
    decreases |teams|
  {
    if |teams| > 1 {
      PlayLength(Round(teams, bits), bits[|teams| / 2..]);
    }
  }

  /** Every recorded winner is one of the teams that started. */
  lemma {:induction false} PlayMembers(teams: seq<TeamId>, bits: seq<Bit>)
    requires IsPow2(|teams|) && |bits| == |teams| - 1
    ensures forall t <- Play(teams, bits) :: t in teams
    decreases |teams|
  {
    if |teams| > 1 {
      var winners := Round(teams, bits);
      PlayMembers(winners, bits[|teams| / 2..]);
      forall t <- winners
        ensures t in teams
      {
        var i :| 0 <= i < |winners| && winners[i] == t;
      }
    }
  }

  /** The first n/2 entries are the first round: entry i is team 2i or team 2i + 1, as bit i says. */
  lemma FirstRound(teams: seq<TeamId>, bits: seq<Bit>)
    requires IsPow2(|teams|) && |teams| >= 2 && |bits| == |teams| - 1
    ensures |Play(teams, bits)| >= |teams| / 2
    ensures forall i :: 0 <= i < |teams| / 2 ==> Play(teams, bits)[i] == teams[2 * i + bits[i]]
  {
    PlayUnfold(teams, bits);
    var w := Round(teams, bits);
    assert forall i :: 0 <= i < |w| ==> Play(teams, bits)[i] == w[i];
  }

  lemma RoundDistinct(teams: seq<TeamId>, bits: seq<Bit>)
    requires |teams| % 2 == 0 && |bits| >= |teams| / 2 && Distinct(teams)
    ensures Distinct(Round(teams, bits))
  {
    var w := Round(teams, bits);
    forall i, j | 0 <= i < j < |w|
      ensures w[i] != w[j]
    {
      assert 2 * i + bits[i] < 2 * j + bits[j];
    }
  }

  /** With distinct teams, equal round winners mean equal bits. */
  lemma RoundInjective(teams: seq<TeamId>, b1: seq<Bit>, b2: seq<Bit>)
    requires |teams| % 2 == 0 && |b1| >= |teams| / 2 && |b2| >= |teams| / 2 && Distinct(teams)
    requires Round(teams, b1) == Round(teams, b2)
    ensures b1[..|teams| / 2] == b2[..|teams| / 2]
  {
    forall i | 0 <= i < |teams| / 2
      ensures b1[i] == b2[i]
    {
      assert Round(teams, b1)[i] == Round(teams, b2)[i];
    }
  }

  /** With distinct teams, different bit tuples give different outcomes. */
  lemma {:induction false} PlayInjective(teams: seq<TeamId>, b1: seq<Bit>, b2: seq<Bit>)
    requires IsPow2(|teams|) && |b1| == |teams| - 1 && |b2| == |teams| - 1 && Distinct(teams)
    requires Play(teams, b1) == Play(teams, b2)
    ensures b1 == b2
    decreases |teams|
  {
    if |teams| > 1 {
      var h := |teams| / 2;
      PlayUnfold(teams, b1);
      PlayUnfold(teams, b2);
      var w1, w2 := Round(teams, b1), Round(teams, b2);
      var p1, p2 := Play(w1, b1[h..]), Play(w2, b2[h..]);
      assert w1 == (w1 + p1)[..h] && w2 == (w2 + p2)[..h];
      assert w1 == w2;
      assert p1 == (w1 + p1)[h..] && p2 == (w2 + p2)[h..];
      RoundInjective(teams, b1, b2);
      RoundDistinct(teams, b1);
      PlayInjective(w1, b1[h..], b2[h..]);
      assert b1 == b1[..h] + b1[h..];
      assert b2 == b2[..h] + b2[h..];
    }
  }

  /** The outcomes number 2^(n-1), each has n - 1 entries drawn from the alive list, and with distinct teams they are pairwise distinct. */
  lemma OutcomesShape(alive: seq<TeamId>)
    requires IsPow2(|alive|)
    ensures |Outcomes(alive)| == Pow2(|alive| - 1)
    ensures forall c :: 0 <= c < |Outcomes(alive)| ==>
      |Outcomes(alive)[c]| == |alive| - 1 && forall t <- Outcomes(alive)[c] :: t in alive
    ensures Distinct(alive) ==> Distinct(Outcomes(alive))
  {
    var m := |alive| - 1;
    forall c | 0 <= c < Pow2(m)
      ensures |Outcomes(alive)[c]| == m && forall t <- Outcomes(alive)[c] :: t in alive
    {
      PlayLength(alive, Bits(c, m));
      PlayMembers(alive, Bits(c, m));
    }
    if Distinct(alive) {
      forall c, d | 0 <= c < d < Pow2(m)
        ensures Outcomes(alive)[c] != Outcomes(alive)[d]
      {
        if Outcomes(alive)[c] == Outcomes(alive)[d] {
          PlayInjective(alive, Bits(c, m), Bits(d, m));
          BitsValue(c, m);
          BitsValue(d, m);
        }
      }
    }
  }

  /** Two teams left: the outcomes are the first team winning, then the second. */
  lemma TwoTeams(a: TeamId, b: TeamId)
    ensures IsPow2(2) && Outcomes([a, b]) == [[a], [b]]
  {
    assert IsPow2(1) && Pow2(1) == 2;
    assert Bits(0, 1) == [0] && Bits(1, 1) == [1];
    PlayUnfold([a, b], [0]);
    PlayUnfold([a, b], [1]);
    assert Round([a, b], [0]) == [a] && Round([a, b], [1]) == [b];
    assert Play([a], []) == [] && Play([b], []) == [];
    var outs := Outcomes([a, b]);
    assert |outs| == 2;
    assert outs[0] == Play([a, b], [0]) == [a];
    assert outs[1] == Play([a, b], [1]) == [b];
  }

  /** A four-team bracket: the two semifinal winners, then whichever of them the last bit picks. */
  lemma PlayFour(t: seq<TeamId>, bits: seq<Bit>)
    requires |t| == 4 && |bits| == 3
    ensures IsPow2(4)
    ensures Play(t, bits) == [t[bits[0]], t[2 + bits[1]], [t[bits[0]], t[2 + bits[1]]][bits[2]]]
  {
    assert IsPow2(1) && IsPow2(2) && IsPow2(4);
    PlayUnfold(t, bits);
    var w := Round(t, bits);
    assert w == [t[bits[0]], t[2 + bits[1]]];
    PlayUnfold(w, bits[2..]);
    assert Round(w, bits[2..]) == [w[bits[2]]];
  }

  /** Four teams left give eight outcomes: semifinal winners, then the champion. */
  lemma FourTeams(a: TeamId, b: TeamId, c: TeamId, d: TeamId)
    ensures IsPow2(4)
    ensures Outcomes([a, b, c, d]) ==
      [[a, c, a], [a, c, c], [a, d, a], [a, d, d], [b, c, b], [b, c, c], [b, d, b], [b, d, d]]
  {
    var t := [a, b, c, d];
    assert Pow2(3) == 8;
    var outs := Outcomes(t);
    PlayFour(t, Bits(0, 3));
    PlayFour(t, Bits(1, 3));
    PlayFour(t, Bits(2, 3));
    PlayFour(t, Bits(3, 3));
    PlayFour(t, Bits(4, 3));
    PlayFour(t, Bits(5, 3));
    PlayFour(t, Bits(6, 3));
    PlayFour(t, Bits(7, 3));
    assert Bits(0, 3) == [0, 0, 0] && Bits(1, 3) == [0, 0, 1];
    assert Bits(2, 3) == [0, 1, 0] && Bits(3, 3) == [0, 1, 1];
    assert Bits(4, 3) == [1, 0, 0] && Bits(5, 3) == [1, 0, 1];
    assert Bits(6, 3) == [1, 1, 0] && Bits(7, 3) == [1, 1, 1];
  }
}
