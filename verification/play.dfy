/** Any sequence of the public mutators (src/lib/tournament.ts:234-316)
    applied to a generated tournament: the invariant and round 0 survive
    every step, and with two or more empty slots the final is never
    decided. */
module Playing {
  import opened Wrappers
  import opened Types
  import opened Helpers
  import opened Propagation
  import opened RebuildFacts
  import opened Scoring
  import opened BracketInvariant
  import opened ScoringFacts
  import opened ResetFacts
  import opened Builder
  import opened BuilderFacts
  import opened Starvation

  /** One call of a public mutator, with its arguments. `up` chooses the
      `delta` of `incrementLeg`: +1 when set, -1 otherwise. */
  datatype Action =
    | Score(ri: int, mi: int, legsA: int, legsB: int)
    | Increment(ri: int, mi: int, side: Side, up: bool)
    | QuickWin(ri: int, mi: int, winner: Side)
    | ResetAll

  function Apply(t: Tournament, act: Action): (r: Tournament)
    requires Inv(t)
    ensures Inv(r)
    ensures r.(rounds := t.rounds) == t
  {
    match act
    case Score(ri, mi, legsA, legsB) =>
      UpdateLegsKeepsInv(t, ri, mi, legsA, legsB);
      UpdateLegs(t, ri, mi, legsA, legsB)
    case Increment(ri, mi, side, up) =>
      IncrementLegKeepsInv(t, ri, mi, side, if up then 1 else -1);
      IncrementLeg(t, ri, mi, side, if up then 1 else -1)
    case QuickWin(ri, mi, winner) =>
      QuickSetWinnerKeepsInv(t, ri, mi, winner);
      QuickSetWinner(t, ri, mi, winner)
    case ResetAll =>
      ResetKeepsInv(t);
      ResetTournamentWinners(t)
  }

  /** The actions applied one after the other. */
  function Play(t: Tournament, acts: seq<Action>): (r: Tournament)
    requires Inv(t)
    ensures Inv(r)
    ensures r.(rounds := t.rounds) == t
    decreases |acts|
  {
    if |acts| == 0 then t else Play(Apply(t, acts[0]), acts[1..])
  }

  /** Resetting after any one mutator call gives what resetting before it
      gives. */
  lemma ApplyForgotten(t: Tournament, act: Action)
    requires Inv(t)
    ensures ResetTournamentWinners(Apply(t, act)) == ResetTournamentWinners(t)
  {
    match act
    case Score(ri, mi, legsA, legsB) =>
      ResetForgetsPlay(t, ri, mi, legsA, legsB);
    case Increment(ri, mi, side, up) =>
      IncrementForgotten(t, ri, mi, side, if up then 1 else -1);
    case QuickWin(ri, mi, winner) =>
      QuickWinForgotten(t, ri, mi, winner);
    case ResetAll =>
      ResetIdempotent(t);
  }

  /** A reset forgets an `incrementLeg`. */
  lemma IncrementForgotten(t: Tournament, ri: int, mi: int, side: Side, delta: int)
    requires Inv(t)
    requires delta == 1 || delta == -1
    ensures ResetTournamentWinners(IncrementLeg(t, ri, mi, side, delta)) == ResetTournamentWinners(t)
  {
    if MatchAt(t.rounds, ri, mi).Some? {
      var m := t.rounds[ri][mi];
      var legsA := Bumped(m.legsA, side == A, delta);
      var legsB := Bumped(m.legsB, side == B, delta);
      assert IncrementLeg(t, ri, mi, side, delta) == UpdateLegs(t, ri, mi, legsA, legsB);
      ResetForgetsPlay(t, ri, mi, legsA, legsB);
    }
  }

  /** A reset forgets a `quickSetWinner`. */
  lemma QuickWinForgotten(t: Tournament, ri: int, mi: int, winner: Side)
    requires Inv(t)
    ensures ResetTournamentWinners(QuickSetWinner(t, ri, mi, winner)) == ResetTournamentWinners(t)
  {
    if MatchAt(t.rounds, ri, mi).Some? && Ready(t.rounds[ri][mi]) {
      var m := t.rounds[ri][mi];
      var target := LegsToWin(m.bestOf);
      var legsA := QuickLegs(m.legsA, winner == A, target);
      var legsB := QuickLegs(m.legsB, winner == B, target);
      assert QuickSetWinner(t, ri, mi, winner) == UpdateLegs(t, ri, mi, legsA, legsB);
      ResetForgetsPlay(t, ri, mi, legsA, legsB);
    }
  }

  /** A reset forgets every sequence of mutator calls: resetting after any
      play gives what resetting before it gives. */
  lemma {:induction false} PlayForgotten(t: Tournament, acts: seq<Action>)
    requires Inv(t)
    ensures ResetTournamentWinners(Play(t, acts)) == ResetTournamentWinners(t)
    decreases |acts|
  {
    if |acts| > 0 {
      var u := Apply(t, acts[0]);
      ApplyForgotten(t, acts[0]);
      PlayForgotten(u, acts[1..]);
    }
  }

  /** After any play, a reset returns the freshly generated tournament. */
  lemma GeneratedResetAfterPlay(players: seq<Player>, bestOf: int, draws: seq<int>,
                                id: string, createdAt: int, matchId: (nat, nat) -> string,
                                acts: seq<Action>)
    requires ValidDraws(draws, |players|)
    ensures var r := GenerateTournament(players, bestOf, draws, id, createdAt, matchId);
            r.Success? ==> Inv(r.value) && ResetTournamentWinners(Play(r.value, acts)) == r.value
  {
    var r := GenerateTournament(players, bestOf, draws, id, createdAt, matchId);
    if r.Success? {
      GenerateEstablishesInv(players, bestOf, draws, id, createdAt, matchId);
      GeneratedIsReset(players, bestOf, draws, id, createdAt, matchId);
      PlayForgotten(r.value, acts);
    }
  }

  /** Every mutator keeps the sides of round 0 and keeps starved matches
      silent. */
  lemma ApplyKeepsSilent(t: Tournament, act: Action)
    requires Inv(t) && StarvedSilent(t.rounds)
    ensures SameSides(Apply(t, act).rounds[0], t.rounds[0])
    ensures StarvedSilent(Apply(t, act).rounds)
  {
    match act
    case Score(ri, mi, legsA, legsB) =>
      UpdateLegsKeepsSilent(t, ri, mi, legsA, legsB);
    case Increment(ri, mi, side, up) =>
      var delta := if up then 1 else -1;
      if MatchAt(t.rounds, ri, mi).Some? {
        var m := t.rounds[ri][mi];
        UpdateLegsKeepsSilent(t, ri, mi, Bumped(m.legsA, side == A, delta), Bumped(m.legsB, side == B, delta));
      }
    case QuickWin(ri, mi, winner) =>
      if MatchAt(t.rounds, ri, mi).Some? && Ready(t.rounds[ri][mi]) {
        var m := t.rounds[ri][mi];
        var target := LegsToWin(m.bestOf);
        UpdateLegsKeepsSilent(t, ri, mi, QuickLegs(m.legsA, winner == A, target), QuickLegs(m.legsB, winner == B, target));
      }
    case ResetAll =>
      ResetSilences(t);
  }

  lemma {:induction false} PlayKeepsSilent(t: Tournament, acts: seq<Action>)
    requires Inv(t) && StarvedSilent(t.rounds)
    ensures SameSides(Play(t, acts).rounds[0], t.rounds[0])
    ensures StarvedSilent(Play(t, acts).rounds)
    decreases |acts|
  {
    if |acts| > 0 {
      var u := Apply(t, acts[0]);
      ApplyKeepsSilent(t, acts[0]);
      PlayKeepsSilent(u, acts[1..]);
    }
  }

  /** When the last round-0 match is empty, the last match of every round
      is starved. */
  lemma {:induction false} LastStarved(rounds: seq<seq<Match>>, k: nat)
    requires BracketShape(rounds) && k < |rounds|
    requires |rounds[0]| >= 1
    requires rounds[0][|rounds[0]| - 1].a.None? && rounds[0][|rounds[0]| - 1].b.None?
    ensures |rounds[k]| >= 1 && Starved(rounds[0], k, |rounds[k]| - 1)
    decreases k
  {
    if k > 0 {
      LastStarved(rounds, k - 1);
      assert Halves(rounds, k - 1);
      assert 2 * (|rounds[k]| - 1) + 1 == |rounds[k - 1]| - 1;
    }
  }

  /** Round 0 ends with a match whose sides are both empty. */
  predicate LastEmpty(first: seq<Match>) {
    |first| >= 1 && first[|first| - 1].a.None? && first[|first| - 1].b.None?
  }

  /** The invariant holds, starved matches are silent, and the last
      round-0 match is empty. */
  predicate Unfinishable(t: Tournament) {
    Inv(t) && StarvedSilent(t.rounds) && LastEmpty(t.rounds[0])
  }

  /** From an unfinishable tournament, no sequence of mutators gives the
      final a winner. */
  lemma FinalNeverDecided(t: Tournament, acts: seq<Action>)
    requires Unfinishable(t)
    ensures Final(Play(t, acts)).winnerId.None?
  {
    PlayKeepsSilent(t, acts);
    FinalSilent(Play(t, acts), t.rounds[0]);
  }

  /** In a tree whose starved matches are silent and whose round 0 has the
      sides of `first`, an empty last match of `first` leaves the final
      without a winner. */
  lemma FinalSilent(u: Tournament, first: seq<Match>)
    requires BracketShape(u.rounds) && StarvedSilent(u.rounds)
    requires SameSides(u.rounds[0], first) && LastEmpty(first)
    ensures Final(u).winnerId.None?
  {
    LastStarved(u.rounds, |u.rounds| - 1);
  }

  /** A generated tournament has its starved matches silent, and with two
      or more empty slots its last round-0 match is empty. */
  lemma GeneratedStarvation(players: seq<Player>, bestOf: int, draws: seq<int>,
                            id: string, createdAt: int, matchId: (nat, nat) -> string)
    requires ValidDraws(draws, |players|)
    ensures var r := GenerateTournament(players, bestOf, draws, id, createdAt, matchId);
            r.Success? ==>
              var first := r.value.rounds[0];
              && Inv(r.value)
              && StarvedSilent(r.value.rounds)
              && |first| >= 1
              && (r.value.meta.byes >= 2 <==> LastEmpty(first))
  {
    var r := GenerateTournament(players, bestOf, draws, id, createdAt, matchId);
    if r.Success? {
      GenerateEstablishesInv(players, bestOf, draws, id, createdAt, matchId);
      GeneratedIsReset(players, bestOf, draws, id, createdAt, matchId);
      ResetSilences(r.value);
      GenerateMeta(players, bestOf, draws, id, createdAt, matchId);
      ByesAsWritten(players, bestOf, draws, id, createdAt, matchId);
    }
  }

  /** A generated tournament with two or more empty slots is
      unfinishable, so by `FinalNeverDecided` no play ever decides its
      final. */
  lemma GeneratedUnfinishable(players: seq<Player>, bestOf: int, draws: seq<int>,
                                   id: string, createdAt: int, matchId: (nat, nat) -> string)
    requires ValidDraws(draws, |players|)
    ensures var r := GenerateTournament(players, bestOf, draws, id, createdAt, matchId);
            r.Success? && r.value.meta.byes >= 2 ==> Unfinishable(r.value)
  {
    GeneratedStarvation(players, bestOf, draws, id, createdAt, matchId);
  }

  /** The final of a well-formed tournament. */
  function Final(t: Tournament): Match
    requires BracketShape(t.rounds)
  {
    t.rounds[|t.rounds| - 1][0]
  }
}
