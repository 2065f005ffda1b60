/** The data model of the knockout bracket (src/lib/tournament.ts:1-46).
    Every collection is a value: a mutator returns a new tournament. */
module Types {
  import opened Wrappers

  /** Player ids are generated tokens and never empty, so the source's
      truthiness tests on ids coincide with "the id is present". */
  type PlayerId = s: string | |s| > 0 witness "p"

  datatype Side = A | B

  datatype Player = Player(id: PlayerId, name: string)

  /** A copy of a player occupying one side of a match. */
  datatype Slot = Slot(playerId: PlayerId, name: string)

  datatype Match = Match(
    id: string,
    roundIndex: int,
    matchIndex: int,
    a: Option<Slot>,
    b: Option<Slot>,
    bestOf: int,
    legsA: int,
    legsB: int,
    startPlayer: Option<Side>,
    winnerId: Option<PlayerId>,
    isBye: bool)

  datatype Meta = Meta(bracketSize: nat, byes: nat, roundLabels: seq<string>)

  datatype Tournament = Tournament(
    id: string,
    createdAt: int,
    bestOf: int,
    players: seq<Player>,
    rounds: seq<seq<Match>>,
    meta: Meta)

  /** Does `id` name the player on side `a` or side `b` of `m`? */
  predicate Occupies(m: Match, id: PlayerId) {
    (m.a.Some? && m.a.value.playerId == id) || (m.b.Some? && m.b.value.playerId == id)
  }

  /** A recorded winner, if any, names one of the two occupants. */
  predicate WinnerValid(m: Match) {
    m.winnerId.None? || Occupies(m, m.winnerId.value)
  }

  /** Both sides hold a player: the only state in which legs can decide a match. */
  predicate Ready(m: Match) {
    m.a.Some? && m.b.Some?
  }

  predicate AllWinnersValid(rounds: seq<seq<Match>>) {
    forall k, i :: 0 <= k < |rounds| && 0 <= i < |rounds[k]| ==> WinnerValid(rounds[k][i])
  }

  /** The part of a match that neither propagation nor validation touches:
      everything except the two sides and the winner. */
  function Frame(m: Match): Match {
    m.(a := None, b := None, winnerId := None)
  }

  /** Two trees of the same layout whose matches agree outside sides and winners. */
  predicate SameFrame(x: seq<seq<Match>>, y: seq<seq<Match>>) {
    && |x| == |y|
    && (forall k :: 0 <= k < |x| ==> |x[k]| == |y[k]|)
    && (forall k, i :: 0 <= k < |x| && 0 <= i < |x[k]| ==> Frame(x[k][i]) == Frame(y[k][i]))
  }

  /** Every match below the final names, through its `matchIndex`, a match
      of the next round: the condition under which the source's write
      `next[floor(matchIndex / 2)]` hits an existing match. */
  predicate Wired(rounds: seq<seq<Match>>) {
    forall k, i :: 0 <= k < |rounds| - 1 && 0 <= i < |rounds[k]| ==>
      0 <= rounds[k][i].matchIndex && rounds[k][i].matchIndex / 2 < |rounds[k + 1]|
  }

  /** Round `k + 1` has half as many matches as round `k`. */
  predicate Halves(rounds: seq<seq<Match>>, k: int) {
    0 <= k < |rounds| - 1 && |rounds[k]| == 2 * |rounds[k + 1]|
  }

  /** The layout the builder produces: each round half the size of the
      previous one, a single final, and every match knowing its position. */
  predicate BracketShape(rounds: seq<seq<Match>>) {
    && |rounds| >= 1
    && |rounds[|rounds| - 1]| == 1
    && (forall k :: 0 <= k < |rounds| - 1 ==> Halves(rounds, k))
    && (forall k, i :: 0 <= k < |rounds| && 0 <= i < |rounds[k]| ==>
          rounds[k][i].roundIndex == k && rounds[k][i].matchIndex == i)
    && Wired(rounds)
  }

  lemma SameFrameKeepsWiring(x: seq<seq<Match>>, y: seq<seq<Match>>)
    requires SameFrame(x, y)
    ensures Wired(x) ==> Wired(y)
    ensures BracketShape(x) ==> BracketShape(y)
  {
    forall k | 0 <= k < |x| - 1 ensures Halves(x, k) == Halves(y, k) {
    }
    forall k, i | 0 <= k < |x| && 0 <= i < |x[k]|
      ensures x[k][i].matchIndex == y[k][i].matchIndex && x[k][i].roundIndex == y[k][i].roundIndex
    {
      assert Frame(x[k][i]).matchIndex == Frame(y[k][i]).matchIndex;
      assert Frame(x[k][i]).roundIndex == Frame(y[k][i]).roundIndex;
    }
    if Wired(x) {
      forall k, i | 0 <= k < |y| - 1 && 0 <= i < |y[k]|
        ensures 0 <= y[k][i].matchIndex && y[k][i].matchIndex / 2 < |y[k + 1]|
      {
        assert Frame(x[k][i]).matchIndex == Frame(y[k][i]).matchIndex;
      }
    }
  }
}
