/** What resetting does (src/lib/tournament.ts:299-316): every score and
    every winner except a bye's is forgotten, and the bracket is rebuilt
    from round 0. The result depends only on the draw, so no amount of
    play changes it. */
module ResetFacts {
  import opened Wrappers
  import opened Types
  import opened Propagation
  import opened PropagationFacts
  import opened RebuildFacts
  import opened Scoring
  import opened BracketInvariant
  import opened ScoringFacts

  /** What survives a reset: the matches with scores and non-bye winners
      dropped, and every side after round 0 emptied. */
  function Skeleton(rounds: seq<seq<Match>>): seq<seq<Match>> {
    ClearParticipantsFromRound(ResetMatches(rounds), 1)
  }

  /** A match after round 0 that is not a bye leaves only its frame, with
      both scores at zero, in the skeleton. */
  lemma LateSkeletonMatch(m: Match)
    requires !m.isBye
    ensures ResetMatch(m).(a := None, b := None) == Frame(m).(legsA := 0, legsB := 0)
  {
  }

  /** Scoring a match is forgotten by resetting it, provided a bye already
      carries its winner. */
  lemma ResetForgetsScore(m: Match, legsA: int, legsB: int)
    requires m.isBye ==> m.winnerId.Some?
    ensures ResetMatch(ScoreMatch(m, legsA, legsB)) == ResetMatch(m)
  {
  }

  lemma ResetMatchIdempotent(m: Match)
    ensures ResetMatch(ResetMatch(m)) == ResetMatch(m)
  {
  }

  lemma ResetMatchesIdempotent(rounds: seq<seq<Match>>)
    ensures ResetMatches(ResetMatches(rounds)) == ResetMatches(rounds)
  {
    var x := ResetMatches(rounds);
    forall k, i | 0 <= k < |x| && 0 <= i < |x[k]|
      ensures ResetMatches(x)[k][i] == x[k][i]
    {
      ResetMatchIdempotent(rounds[k][i]);
    }
    assert forall k :: 0 <= k < |x| ==> ResetMatches(x)[k] == x[k];
  }

  lemma ResetMatchesShape(rounds: seq<seq<Match>>)
    requires BracketShape(rounds)
    ensures BracketShape(ResetMatches(rounds))
  {
    var x := ResetMatches(rounds);
    forall k | 0 <= k < |x| - 1 ensures Halves(x, k) {
      assert Halves(rounds, k);
    }
  }

  /** Two trees with the same skeleton reset to the same tournament. */
  lemma SameSkeletonSameReset(t: Tournament, u: Tournament)
    requires BracketShape(t.rounds) && BracketShape(u.rounds)
    requires u.(rounds := t.rounds) == t
    requires Skeleton(u.rounds) == Skeleton(t.rounds)
    ensures ResetTournamentWinners(u) == ResetTournamentWinners(t)
  {
    ResetMatchesShape(t.rounds);
    ResetMatchesShape(u.rounds);
  }

  /** The skeleton ignores everything a rebuild changes. */
  lemma RebuildKeepsSkeleton(x: seq<seq<Match>>, s: nat)
    requires BracketShape(x)
    requires AllWinnersValid(x)
    requires ByeRule(x)
    ensures Wired(x)
    ensures Skeleton(Rebuild(x, s)) == Skeleton(x)
  {
    var r: seq<seq<Match>> := Rebuild(x, s);
    RebuildKeepsValidPrefix(x, s, 0);
    SameFrameSameSkeleton(x, r);
  }

  /** Two trees that differ only in sides and winners, agree on round 0
      and have no bye after it have the same skeleton. */
  lemma SameFrameSameSkeleton(x: seq<seq<Match>>, r: seq<seq<Match>>)
    requires SameFrame(x, r)
    requires |x| >= 1 && r[0] == x[0]
    requires ByeRule(x)
    ensures Skeleton(r) == Skeleton(x)
  {
    ClearIsClearedFrom(ResetMatches(r), 1);
    ClearIsClearedFrom(ResetMatches(x), 1);
    var p := Skeleton(r);
    var q := Skeleton(x);
    forall k, i | 1 <= k < |x| && 0 <= i < |x[k]|
      ensures p[k][i] == q[k][i]
    {
      LateSkeletonMatch(r[k][i]);
      LateSkeletonMatch(x[k][i]);
    }
    assert forall k :: 0 <= k < |x| ==> p[k] == q[k];
  }

  /** The edit `updateLegs` makes is invisible in the skeleton. */
  lemma EditKeepsSkeleton(t: Tournament, ri: int, mi: int, legsA: int, legsB: int)
    requires Inv(t)
    requires MatchAt(t.rounds, ri, mi).Some?
    ensures Skeleton(Edited(t, ri, mi, legsA, legsB)) == Skeleton(t.rounds)
  {
    var x := Edited(t, ri, mi, legsA, legsB);
    ResetForgetsScore(t.rounds[ri][mi], legsA, legsB);
    var p := ResetMatches(x);
    var q := ResetMatches(t.rounds);
    forall k, i | 0 <= k < |x| && 0 <= i < |x[k]| ensures p[k][i] == q[k][i] {
    }
    assert forall k :: 0 <= k < |x| ==> p[k] == q[k];
  }

  /** Resetting after entering a score gives what resetting before it
      gives: a reset forgets all play. */
  lemma ResetForgetsPlay(t: Tournament, ri: int, mi: int, legsA: int, legsB: int)
    requires Inv(t)
    ensures Wired(UpdateLegs(t, ri, mi, legsA, legsB).rounds)
    ensures ResetTournamentWinners(UpdateLegs(t, ri, mi, legsA, legsB)) == ResetTournamentWinners(t)
  {
    if MatchAt(t.rounds, ri, mi).Some? {
      var x := Edited(t, ri, mi, legsA, legsB);
      EditedIsReady(t, ri, mi, legsA, legsB);
      RebuildKeepsSkeleton(x, ri);
      EditKeepsSkeleton(t, ri, mi, legsA, legsB);
      UpdateLegsKeepsInv(t, ri, mi, legsA, legsB);
      SameSkeletonSameReset(t, UpdateLegs(t, ri, mi, legsA, legsB));
    }
  }

  /** The tree a reset hands to the rebuild is ready for it. */
  lemma ResetMatchesReady(t: Tournament)
    requires Inv(t)
    ensures ReadyToRebuild(ResetMatches(t.rounds), t.bestOf, 0)
  {
    ResetMatchesShape(t.rounds);
  }

  /** A reset keeps the invariant. */
  lemma ResetKeepsInv(t: Tournament)
    requires Inv(t)
    ensures Inv(ResetTournamentWinners(t))
  {
    ResetMatchesReady(t);
    RebuildRestoresInv(t, ResetMatches(t.rounds), 0);
  }

  /** After a reset every score is zero and only byes have a winner. */
  lemma ResetClearsPlay(t: Tournament)
    requires Inv(t)
    ensures var r := ResetTournamentWinners(t).rounds;
            forall k, i :: 0 <= k < |r| && 0 <= i < |r[k]| ==>
              r[k][i].legsA == 0 && r[k][i].legsB == 0 &&
              (r[k][i].winnerId.Some? ==> r[k][i].isBye)
  {
    var x := ResetMatches(t.rounds);
    ResetMatchesShape(t.rounds);
    var r: seq<seq<Match>> := Rebuild(x, 0);
    RebuildOnlyClearsWinners(x, 0);
    forall k, i | 0 <= k < |r| && 0 <= i < |r[k]|
      ensures r[k][i].legsA == 0 && r[k][i].legsB == 0 && r[k][i].isBye == x[k][i].isBye
    {
      assert Frame(r[k][i]) == Frame(x[k][i]);
    }
  }

  /** Resetting twice is resetting once. */
  lemma ResetIdempotent(t: Tournament)
    requires Inv(t)
    ensures ResetTournamentWinners(ResetTournamentWinners(t)) == ResetTournamentWinners(t)
  {
    var x := ResetMatches(t.rounds);
    ResetMatchesReady(t);
    RebuildKeepsSkeleton(x, 0);
    ResetMatchesIdempotent(t.rounds);
    ResetKeepsInv(t);
    SameSkeletonSameReset(t, ResetTournamentWinners(t));
  }
}
