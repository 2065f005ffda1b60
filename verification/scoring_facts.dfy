/** What entering a score does to the bracket
    (src/lib/tournament.ts:234-297): the addressed match takes the clamped
    legs and the winner they decide, the matches before it are untouched,
    the next round is re-fed, and everything later loses its winner. */
module ScoringFacts {
  import opened Wrappers
  import opened Types
  import opened Helpers
  import opened Propagation
  import opened PropagationFacts
  import opened RebuildFacts
  import opened Scoring
  import opened BracketInvariant

  /** The tree `updateLegs` hands to the rebuild. */
  function Edited(t: Tournament, ri: int, mi: int, legsA: int, legsB: int): (x: seq<seq<Match>>)
    requires MatchAt(t.rounds, ri, mi).Some?
    ensures |x| == |t.rounds| && |x[ri]| == |t.rounds[ri]|
    ensures x[ri][mi] == ScoreMatch(t.rounds[ri][mi], legsA, legsB)
  {
    SetMatch(t.rounds, ri, mi, ScoreMatch(t.rounds[ri][mi], legsA, legsB))
  }

  /** Replacing a match by one that knows the same position keeps the
      layout. */
  lemma SetMatchKeepsShape(rounds: seq<seq<Match>>, ri: int, mi: int, m: Match)
    requires BracketShape(rounds)
    requires 0 <= ri < |rounds| && 0 <= mi < |rounds[ri]|
    requires m.roundIndex == ri && m.matchIndex == mi
    ensures BracketShape(SetMatch(rounds, ri, mi, m))
  {
    var x := SetMatch(rounds, ri, mi, m);
    forall k | 0 <= k < |x| - 1 ensures Halves(x, k) {
      assert Halves(rounds, k);
    }
  }

  lemma EditedKeepsScores(t: Tournament, ri: int, mi: int, legsA: int, legsB: int)
    requires Inv(t)
    requires MatchAt(t.rounds, ri, mi).Some?
    ensures ScoresInRange(Edited(t, ri, mi, legsA, legsB), t.bestOf)
  {
  }

  lemma EditedKeepsValid(t: Tournament, ri: int, mi: int, legsA: int, legsB: int)
    requires Inv(t)
    requires MatchAt(t.rounds, ri, mi).Some?
    ensures AllWinnersValid(Edited(t, ri, mi, legsA, legsB))
    ensures ByeRule(Edited(t, ri, mi, legsA, legsB))
  {
    var m := t.rounds[ri][mi];
    RecomputeKeepsValid(m.(legsA := ClampLegs(legsA, m.bestOf), legsB := ClampLegs(legsB, m.bestOf)));
  }

  lemma EditedKeepsFed(t: Tournament, ri: int, mi: int, legsA: int, legsB: int)
    requires Inv(t)
    requires MatchAt(t.rounds, ri, mi).Some?
    ensures var x := Edited(t, ri, mi, legsA, legsB);
            forall k :: 0 <= k < ri && k < |x| - 1 ==> RoundFed(x, k)
  {
    var x := Edited(t, ri, mi, legsA, legsB);
    forall k | 0 <= k < ri && k < |x| - 1
      ensures RoundFed(x, k)
    {
      RoundFedTransfer(t.rounds, x, k);
    }
  }

  /** The edited tree still satisfies everything but the feeding of the
      rounds after the edited one. */
  lemma EditedIsReady(t: Tournament, ri: int, mi: int, legsA: int, legsB: int)
    requires Inv(t)
    requires MatchAt(t.rounds, ri, mi).Some?
    ensures ReadyToRebuild(Edited(t, ri, mi, legsA, legsB), t.bestOf, ri)
  {
    SetMatchKeepsShape(t.rounds, ri, mi, ScoreMatch(t.rounds[ri][mi], legsA, legsB));
    EditedKeepsScores(t, ri, mi, legsA, legsB);
    EditedKeepsValid(t, ri, mi, legsA, legsB);
    EditedKeepsFed(t, ri, mi, legsA, legsB);
  }

  /** `updateLegs` keeps the invariant. */
  lemma UpdateLegsKeepsInv(t: Tournament, ri: int, mi: int, legsA: int, legsB: int)
    requires Inv(t)
    ensures Inv(UpdateLegs(t, ri, mi, legsA, legsB))
  {
    if MatchAt(t.rounds, ri, mi).Some? {
      EditedIsReady(t, ri, mi, legsA, legsB);
      RebuildRestoresInv(t, Edited(t, ri, mi, legsA, legsB), ri);
    }
  }

  /** `incrementLeg` keeps the invariant. */
  lemma IncrementLegKeepsInv(t: Tournament, ri: int, mi: int, side: Side, delta: int)
    requires Inv(t)
    requires delta == 1 || delta == -1
    ensures Inv(IncrementLeg(t, ri, mi, side, delta))
  {
    if MatchAt(t.rounds, ri, mi).Some? {
      var m := t.rounds[ri][mi];
      UpdateLegsKeepsInv(t, ri, mi, Bumped(m.legsA, side == A, delta), Bumped(m.legsB, side == B, delta));
    }
  }

  /** `quickSetWinner` keeps the invariant. */
  lemma QuickSetWinnerKeepsInv(t: Tournament, ri: int, mi: int, winner: Side)
    requires Inv(t)
    ensures Inv(QuickSetWinner(t, ri, mi, winner))
  {
    if MatchAt(t.rounds, ri, mi).Some? && Ready(t.rounds[ri][mi]) {
      var m := t.rounds[ri][mi];
      var target := LegsToWin(m.bestOf);
      UpdateLegsKeepsInv(t, ri, mi, QuickLegs(m.legsA, winner == A, target), QuickLegs(m.legsB, winner == B, target));
    }
  }

  /** The addressed match and every other match of its round and of the
      rounds before it: the addressed one holds the clamped score and the
      winner it decides, the others are unchanged. */
  lemma UpdateLegsUpToRound(t: Tournament, ri: int, mi: int, legsA: int, legsB: int, k: nat)
    requires Inv(t)
    requires MatchAt(t.rounds, ri, mi).Some?
    requires k <= ri
    ensures var r := UpdateLegs(t, ri, mi, legsA, legsB).rounds;
            && |r[k]| == |t.rounds[k]|
            && forall i :: 0 <= i < |r[k]| ==>
                 r[k][i] == if k == ri && i == mi then ScoreMatch(t.rounds[ri][mi], legsA, legsB) else t.rounds[k][i]
  {
    EditedIsReady(t, ri, mi, legsA, legsB);
    RebuildKeepsValidPrefix(Edited(t, ri, mi, legsA, legsB), ri, k);
  }

  /** The addressed match after `updateLegs`: both scores clamped into
      `[0, bestOf]`, the sides kept, a bye keeps its winner, and any other
      match is won exactly when both sides are occupied and one side
      decides it, by that side's player. */
  lemma UpdateLegsScores(t: Tournament, ri: int, mi: int, legsA: int, legsB: int)
    requires Inv(t)
    requires MatchAt(t.rounds, ri, mi).Some?
    ensures var m := t.rounds[ri][mi];
            var n := UpdateLegs(t, ri, mi, legsA, legsB).rounds[ri][mi];
            && n.legsA == ClampLegs(legsA, m.bestOf) && n.legsB == ClampLegs(legsB, m.bestOf)
            && 0 <= n.legsA <= m.bestOf && 0 <= n.legsB <= m.bestOf
            && n.a == m.a && n.b == m.b
            && (m.isBye ==> n.winnerId == m.winnerId)
            && (!m.isBye ==> (n.winnerId.Some? <==> Ready(n) && (Decides(n, A) || Decides(n, B))))
            && (!m.isBye && n.winnerId.Some? ==>
                  exists side :: Decides(n, side) && n.winnerId == SideId(n, side))
  {
    UpdateLegsUpToRound(t, ri, mi, legsA, legsB, ri);
    ScoreMatchWinner(t.rounds[ri][mi], legsA, legsB);
  }

  /** The round after the addressed one is re-fed from it, and keeps a
      winner only while that player still occupies a side. */
  lemma UpdateLegsNextRound(t: Tournament, ri: int, mi: int, legsA: int, legsB: int)
    requires Inv(t)
    requires MatchAt(t.rounds, ri, mi).Some?
    requires ri + 1 < |t.rounds|
    ensures var r := UpdateLegs(t, ri, mi, legsA, legsB).rounds;
            RoundFed(r, ri) && KeptIfStillPresent(r, t.rounds, ri + 1)
  {
    var x := Edited(t, ri, mi, legsA, legsB);
    EditedIsReady(t, ri, mi, legsA, legsB);
    RebuildFeeds(x, ri);
    RebuildNextRound(x, ri);
  }

  /** Downstream invalidation as written: every match two or more rounds
      after the addressed one ends without a winner. */
  lemma UpdateLegsWipesLater(t: Tournament, ri: int, mi: int, legsA: int, legsB: int)
    requires Inv(t)
    requires MatchAt(t.rounds, ri, mi).Some?
    ensures var r := UpdateLegs(t, ri, mi, legsA, legsB).rounds;
            forall k, i :: ri + 2 <= k < |r| && 0 <= i < |r[k]| ==> r[k][i].winnerId.None?
  {
    EditedIsReady(t, ri, mi, legsA, legsB);
    RebuildWipes(Edited(t, ri, mi, legsA, legsB), ri);
  }

  /** Re-entering the score `updateLegs` just stored edits nothing. */
  lemma EditedAgainIsSame(t: Tournament, ri: int, mi: int, legsA: int, legsB: int)
    requires Inv(t)
    requires MatchAt(t.rounds, ri, mi).Some?
    ensures var r := UpdateLegs(t, ri, mi, legsA, legsB);
            MatchAt(r.rounds, ri, mi).Some? && Edited(r, ri, mi, legsA, legsB) == r.rounds
  {
    var r := UpdateLegs(t, ri, mi, legsA, legsB);
    var n := ScoreMatch(t.rounds[ri][mi], legsA, legsB);
    UpdateLegsUpToRound(t, ri, mi, legsA, legsB, ri);
    assert r.rounds[ri][mi] == n;
    ScoreMatchIdempotent(t.rounds[ri][mi], legsA, legsB);
    assert r.rounds[ri][mi := ScoreMatch(n, legsA, legsB)] == r.rounds[ri];
  }

  /** Entering the same score twice is entering it once. */
  lemma UpdateLegsIdempotent(t: Tournament, ri: int, mi: int, legsA: int, legsB: int)
    requires Inv(t)
    ensures var r := UpdateLegs(t, ri, mi, legsA, legsB);
            Wired(r.rounds) && UpdateLegs(r, ri, mi, legsA, legsB) == r
  {
    if MatchAt(t.rounds, ri, mi).Some? {
      EditedAgainIsSame(t, ri, mi, legsA, legsB);
      EditedIsReady(t, ri, mi, legsA, legsB);
      RebuildIdempotent(Edited(t, ri, mi, legsA, legsB), ri);
    }
  }

  /** `quickSetWinner` on a match with both sides occupied: the chosen
      side gets exactly the legs it needs, the other side keeps its score
      capped one short of that, and the chosen side's player wins. */
  lemma QuickSetWinnerDecides(t: Tournament, ri: int, mi: int, winner: Side)
    requires Inv(t)
    requires MatchAt(t.rounds, ri, mi).Some? && Ready(t.rounds[ri][mi])
    ensures var m := t.rounds[ri][mi];
            var target := LegsToWin(m.bestOf);
            var n := QuickSetWinner(t, ri, mi, winner).rounds[ri][mi];
            && n.legsA == (if winner == A then target else Min(m.legsA, target - 1))
            && n.legsB == (if winner == B then target else Min(m.legsB, target - 1))
            && n.winnerId == SideId(m, winner)
  {
    var m := t.rounds[ri][mi];
    var target := LegsToWin(m.bestOf);
    assert !m.isBye;
    QuickScoreDecides(m, winner);
    UpdateLegsUpToRound(t, ri, mi, QuickLegs(m.legsA, winner == A, target), QuickLegs(m.legsB, winner == B, target), ri);
  }

  /** `incrementLeg`: the chosen side's score moves by one and stays
      within `[0, bestOf]`; the other score is kept. */
  lemma IncrementLegMoves(t: Tournament, ri: int, mi: int, side: Side, delta: int)
    requires Inv(t)
    requires delta == 1 || delta == -1
    requires MatchAt(t.rounds, ri, mi).Some?
    ensures var m := t.rounds[ri][mi];
            var n := IncrementLeg(t, ri, mi, side, delta).rounds[ri][mi];
            && n.legsA == (if side == A then ClampLegs(m.legsA + delta, m.bestOf) else m.legsA)
            && n.legsB == (if side == B then ClampLegs(m.legsB + delta, m.bestOf) else m.legsB)
  {
    var m := t.rounds[ri][mi];
    UpdateLegsScores(t, ri, mi, Bumped(m.legsA, side == A, delta), Bumped(m.legsB, side == B, delta));
  }
}
