/** Teams of a 64-team bracket, keyed by their two-digit bracket position "01".."64". */
module Teams {
  import opened Seqs

  type TeamId = string

  /** One row of the team table: display name, short code, eliminated flag and games won. */
  datatype TeamInfo = TeamInfo(team: string, abbrev: string, out: bool, wins: nat)

  const NumTeams: nat := 64

  function Digit(d: nat): char
    requires d < 10
  {
    ('0' as int + d) as char
  }

  /** `f"{n:02d}"` for a bracket position. */
  function TeamKey(n: nat): (k: TeamId)
    requires 1 <= n <= NumTeams
    ensures |k| == 2
  {
    [Digit(n / 10), Digit(n % 10)]
  }

  /** Reads a two-digit key back as a bracket position. */
  function KeyNumber(k: TeamId): int
    requires |k| == 2
  {
    10 * (k[0] as int - '0' as int) + (k[1] as int - '0' as int)
  }

  lemma KeyNumberOfKey(n: nat)
    requires 1 <= n <= NumTeams
    ensures KeyNumber(TeamKey(n)) == n
  {
  }

  function IsDigit(c: char): bool { '0' <= c <= '9' }

  /** A two-digit bracket position between "01" and "64". */
  predicate IsKey(s: string) {
    |s| == 2 && IsDigit(s[0]) && IsDigit(s[1]) && 1 <= KeyNumber(s) <= NumTeams
  }

  /** The two-digit form of a position is a key, and a key is the two-digit form of its position. */
  lemma KeyRoundTrip(n: nat, s: string)
    requires 1 <= n <= NumTeams
    ensures IsKey(TeamKey(n)) && KeyNumber(TeamKey(n)) == n
    ensures IsKey(s) ==> TeamKey(KeyNumber(s)) == s
  {
  }

  /** The keys "01".."n" in bracket order. */
  function KeysUpTo(n: nat): (ks: seq<TeamId>)
    requires n <= NumTeams
    ensures |ks| == n
  {
    if n == 0 then [] else KeysUpTo(n - 1) + [TeamKey(n)]
  }

  /** The keys "01".."64" in bracket order. */
  function AllKeys(): (ks: seq<TeamId>)
    ensures |ks| == NumTeams
  {
    KeysUpTo(NumTeams)
  }

  lemma {:induction false} KeysUpToAt(n: nat, i: nat)
    requires i < n <= NumTeams
    ensures KeysUpTo(n)[i] == TeamKey(i + 1)
  {
    if i < n - 1 {
      KeysUpToAt(n - 1, i);
    }
  }

  /** The i-th key is position i + 1. */
  lemma AllKeysAt(i: nat)
    requires i < NumTeams
    ensures AllKeys()[i] == TeamKey(i + 1)
  {
    KeysUpToAt(NumTeams, i);
  }

  /** Every key is its own bracket position, so the keys are distinct and in increasing order. */
  lemma AllKeysOrdered()
    ensures forall i :: 0 <= i < NumTeams ==> AllKeys()[i] == TeamKey(i + 1)
    ensures forall i :: 0 <= i < NumTeams ==> |AllKeys()[i]| == 2 && KeyNumber(AllKeys()[i]) == i + 1
    ensures Distinct(AllKeys())
  {
    forall i | 0 <= i < NumTeams
      ensures AllKeys()[i] == TeamKey(i + 1) && KeyNumber(AllKeys()[i]) == i + 1
    {
      AllKeysAt(i);
      KeyNumberOfKey(i + 1);
    }
  }

  /** Membership in the key list is the arithmetic test IsKey. */
  lemma AllKeysAreKeys(s: string)
    ensures s in AllKeys() <==> IsKey(s)
  {
    if IsKey(s) {
      var n := KeyNumber(s);
      KeyRoundTrip(n, s);
      AllKeysAt(n - 1);
    }
    if s in AllKeys() {
      var i :| 0 <= i < NumTeams && AllKeys()[i] == s;
      AllKeysAt(i);
      KeyRoundTrip(i + 1, s);
    }
  }

  /** The table holds a row for every bracket position. */
  predicate Complete(table: map<TeamId, TeamInfo>) {
    forall n :: 1 <= n <= NumTeams ==> TeamKey(n) in table
  }
}
