/** Building a bracket (src/lib/tournament.ts:59-66, 156-232): shuffle the
    players, pad the draw with empty slots up to a power of two, pair
    neighbouring slots in round 0, add empty later rounds, and carry the
    byes forward. */
module Builder {
  import opened Wrappers
  import opened Types
  import opened Helpers
  import opened Propagation

  const TooFewPlayers: string := "Mindestens 2 Spieler benötigt."
  const BadBestOf: string := "Best-of muss ungerade und >= 1 sein (z.B. 1,3,5,7)."

  /** The result of `Math.floor(Math.random() * (i + 1))` at every step
      `i` of the shuffle: an index in `[0, i]`. */
  predicate ValidDraws(draws: seq<int>, n: int) {
    |draws| == n && forall i :: 0 <= i < n ==> 0 <= draws[i] <= i
  }

  function Swap<T>(a: seq<T>, i: int, j: int): (r: seq<T>)
    requires 0 <= i < |a| && 0 <= j < |a|
    ensures |r| == |a| && r[i] == a[j] && r[j] == a[i]
    ensures forall k :: 0 <= k < |a| && k != i && k != j ==> r[k] == a[k]
  {
    a[i := a[j]][j := a[i]]
  }

  lemma SwapPermutes<T>(a: seq<T>, i: int, j: int)
    requires 0 <= i < |a| && 0 <= j < |a|
    ensures multiset(Swap(a, i, j)) == multiset(a)
  {
  }

  lemma SwapSelf<T>(a: seq<T>, i: int)
    requires 0 <= i < |a|
    ensures Swap(a, i, i) == a
  {
    assert forall k :: 0 <= k < |a| ==> Swap(a, i, i)[k] == a[k];
  }

  /** The Fisher–Yates loop from step `i` down to step 1. */
  function ShuffleFrom<T>(a: seq<T>, draws: seq<int>, i: int): (r: seq<T>)
    requires ValidDraws(draws, |a|)
    requires i < |a|
    ensures |r| == |a|
    decreases i
  {
    if i <= 0 then a else ShuffleFrom(Swap(a, i, draws[i]), draws, i - 1)
  }

  /** Each step only swaps, so the loop permutes its input. */
  lemma {:induction false} ShuffleFromPermutes<T>(a: seq<T>, draws: seq<int>, i: int)
    requires ValidDraws(draws, |a|)
    requires i < |a|
    ensures multiset(ShuffleFrom(a, draws, i)) == multiset(a)
    decreases i
  {
    if i > 0 {
      SwapPermutes(a, i, draws[i]);
      ShuffleFromPermutes(Swap(a, i, draws[i]), draws, i - 1);
    }
  }

  /** `shuffle`: a permutation of `a` chosen by the draws. */
  function Shuffle<T>(a: seq<T>, draws: seq<int>): (r: seq<T>)
    requires ValidDraws(draws, |a|)
    ensures |r| == |a|
    ensures multiset(r) == multiset(a)
  {
    ShuffleFromPermutes(a, draws, |a| - 1);
    ShuffleFrom(a, draws, |a| - 1)
  }

  /** Draws that always pick the current position leave the order alone. */
  lemma {:induction false} ShuffleFromStay<T>(a: seq<T>, draws: seq<int>, i: int)
    requires ValidDraws(draws, |a|)
    requires i < |a|
    requires forall k :: 0 <= k < |a| ==> draws[k] == k
    ensures ShuffleFrom(a, draws, i) == a
    decreases i
  {
    if i > 0 {
      assert draws[i] == i;
      SwapSelf(a, i);
      assert ShuffleFrom(a, draws, i) == ShuffleFrom(a, draws, i - 1);
      ShuffleFromStay(a, draws, i - 1);
    }
  }

  lemma ShuffleStay<T>(a: seq<T>, draws: seq<int>)
    requires ValidDraws(draws, |a|)
    requires forall k :: 0 <= k < |a| ==> draws[k] == k
    ensures Shuffle(a, draws) == a
  {
    ShuffleFromStay(a, draws, |a| - 1);
  }

  /** The slots of the draw: the shuffled players in order, then `byes`
      empty slots. */
  function Slots(shuffled: seq<Player>, byes: nat): (slots: seq<Option<Slot>>)
    ensures |slots| == |shuffled| + byes
  {
    seq(|shuffled|, i requires 0 <= i < |shuffled| => Some(Slot(shuffled[i].id, shuffled[i].name)))
    + seq(byes, _ => None)
  }

  /** The draw of `generateTournament`: the shuffled players padded with
      empty slots up to the bracket size. */
  function Draw(players: seq<Player>, draws: seq<int>): (slots: seq<Option<Slot>>)
    requires ValidDraws(draws, |players|)
    ensures |slots| == NextPowerOfTwo(|players|)
  {
    Slots(Shuffle(players, draws), NextPowerOfTwo(|players|) - |players|)
  }

  /** A round-0 match between two slots: a bye when exactly one is
      occupied, and then won by that player. */
  function FirstRoundMatch(id: string, i: nat, a: Option<Slot>, b: Option<Slot>, bestOf: int): (m: Match)
    ensures m.a == a && m.b == b && m.roundIndex == 0 && m.matchIndex == i
    ensures m.isBye <==> a.Some? != b.Some?
    ensures m.winnerId.Some? <==> m.isBye
    ensures m.isBye ==> m.winnerId == if a.Some? then Some(a.value.playerId) else Some(b.value.playerId)
    ensures m.legsA == 0 && m.legsB == 0 && m.bestOf == bestOf
  {
    var isBye := a.Some? != b.Some?;
    var winner := if !isBye then None else if a.Some? then Some(a.value.playerId) else Some(b.value.playerId);
    Match(id, 0, i, a, b, bestOf, 0, 0, Some(A), winner, isBye)
  }

  /** An empty match of round `r`. */
  function LaterMatch(id: string, r: nat, i: nat, bestOf: int): Match {
    Match(id, r, i, None, None, bestOf, 0, 0, Some(A), None, false)
  }

  function FirstRound(slots: seq<Option<Slot>>, bestOf: int, matchId: (nat, nat) -> string): (r: seq<Match>)
    ensures |r| == |slots| / 2
  {
    seq(|slots| / 2, i requires 0 <= i < |slots| / 2 =>
      FirstRoundMatch(matchId(0, i), i, slots[2 * i], slots[2 * i + 1], bestOf))
  }

  /** Round `r >= 1` of a bracket of `bracketSize` slots has
      `bracketSize / 2^(r + 1)` empty matches. */
  function LaterRound(r: nat, bracketSize: nat, bestOf: int, matchId: (nat, nat) -> string): seq<Match> {
    seq(Quotient(bracketSize, Pow2(r + 1)), i requires 0 <= i < Quotient(bracketSize, Pow2(r + 1)) =>
      LaterMatch(matchId(r, i), r, i, bestOf))
  }

  function Quotient(n: nat, d: nat): nat
    requires d >= 1
  {
    n / d
  }

  /** All `roundsCount` rounds before the byes are carried forward. */
  function InitialRounds(slots: seq<Option<Slot>>, roundsCount: nat, bestOf: int, matchId: (nat, nat) -> string): seq<seq<Match>>
    requires roundsCount >= 1
  {
    [FirstRound(slots, bestOf, matchId)] +
    seq(roundsCount - 1, j requires 0 <= j < roundsCount - 1 => LaterRound(j + 1, |slots|, bestOf, matchId))
  }

  /** The labels of the rounds, from the first to the final. */
  function RoundLabels(bracketSize: nat, roundsCount: nat): seq<string> {
    seq(roundsCount, r requires 0 <= r < roundsCount => RoundLabel(Quotient(bracketSize, Pow2(r))))
  }

  /** Round sizes halve from `2^(e-1)` matches in round 0 down to one final. */
  lemma InitialRoundsShape(slots: seq<Option<Slot>>, e: nat, bestOf: int, matchId: (nat, nat) -> string)
    requires e >= 1 && |slots| == Pow2(e)
    ensures var rounds := InitialRounds(slots, e, bestOf, matchId);
            && |rounds| == e
            && (forall k :: 0 <= k < e ==> |rounds[k]| == Pow2(e - k - 1))
            && BracketShape(rounds)
  {
    var rounds := InitialRounds(slots, e, bestOf, matchId);
    forall k | 0 <= k < e ensures |rounds[k]| == Pow2(e - k - 1) {
      Pow2Div(e, k + 1);
    }
    forall k | 0 <= k < e - 1 ensures Halves(rounds, k) {
      assert |rounds[k]| == Pow2(e - k - 1);
      assert |rounds[k + 1]| == Pow2(e - (k + 1) - 1);
    }
    forall k, i | 0 <= k < e && 0 <= i < |rounds[k]|
      ensures rounds[k][i].roundIndex == k && rounds[k][i].matchIndex == i
    {
      if k == 0 {
        assert rounds[0] == FirstRound(slots, bestOf, matchId);
        assert rounds[0][i] == FirstRoundMatch(matchId(0, i), i, slots[2 * i], slots[2 * i + 1], bestOf);
      } else {
        assert rounds[k] == LaterRound(k, |slots|, bestOf, matchId);
        assert rounds[k][i] == LaterMatch(matchId(k, i), k, i, bestOf);
      }
    }
  }

  /** `generateTournament`: reject fewer than two players or an even or
      non-positive best-of; otherwise build the bracket and carry the
      byes forward. The clock, the id generator and the random source are
      parameters. */
  function GenerateTournament(players: seq<Player>, bestOf: int, draws: seq<int>,
                              id: string, createdAt: int, matchId: (nat, nat) -> string): (r: Result<Tournament, string>)
    requires ValidDraws(draws, |players|)
    ensures r.Failure? <==> |players| < 2 || bestOf < 1 || bestOf % 2 == 0
    ensures |players| < 2 ==> r == Failure(TooFewPlayers)
    ensures |players| >= 2 && (bestOf < 1 || bestOf % 2 == 0) ==> r == Failure(BadBestOf)
  {
    if |players| < 2 then Failure(TooFewPlayers)
    else if bestOf < 1 || bestOf % 2 == 0 then Failure(BadBestOf)
    else
      var bracketSize := NextPowerOfTwo(|players|);
      var byes := bracketSize - |players|;
      var roundsCount := CeilLog2(|players|);
      var slots := Draw(players, draws);
      InitialRoundsShape(slots, roundsCount, bestOf, matchId);
      var rounds := InitialRounds(slots, roundsCount, bestOf, matchId);
      var meta := Meta(bracketSize, byes, RoundLabels(bracketSize, roundsCount));
      Success(Tournament(id, createdAt, bestOf, players, Rebuild(rounds, 0), meta))
  }
}
