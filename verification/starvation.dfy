/** Empty round-0 matches starve the matches above them
    (src/lib/tournament.ts:165-179 append every empty slot at the end of
    the draw). A round-0 match with both sides empty never hands anybody
    on, so the match it feeds can never have both sides filled, never gets
    a winner, and starves the match above it in turn. With two or more
    empty slots the last round-0 match is such a match, and no sequence of
    scoring, quick wins and resets ever decides the final. */
module Starvation {
  import opened Wrappers
  import opened Types
  import opened Propagation
  import opened PropagationFacts
  import opened RebuildFacts
  import opened Scoring
  import opened BracketInvariant
  import opened ScoringFacts
  import opened ResetFacts

  /** Match `i` of round `k` has, below it, a round-0 match of `first`
      with both sides empty. */
  predicate Starved(first: seq<Match>, k: nat, i: int)
    decreases k
  {
    if k == 0 then 0 <= i < |first| && first[i].a.None? && first[i].b.None?
    else Starved(first, k - 1, 2 * i) || Starved(first, k - 1, 2 * i + 1)
  }

  /** No starved match records a winner. */
  predicate StarvedSilent(rounds: seq<seq<Match>>) {
    && |rounds| >= 1
    && forall k: nat, i :: k < |rounds| && 0 <= i < |rounds[k]| && Starved(rounds[0], k, i) ==>
         rounds[k][i].winnerId.None?
  }

  /** Starvation depends on the sides of round 0 only. */
  lemma {:induction false} StarvedSameSides(p: seq<Match>, q: seq<Match>, k: nat, i: int)
    requires SameSides(p, q)
    ensures Starved(p, k, i) == Starved(q, k, i)
    decreases k
  {
    if k > 0 {
      StarvedSameSides(p, q, k - 1, 2 * i);
      StarvedSameSides(p, q, k - 1, 2 * i + 1);
    }
  }

  /** In a well-formed tree whose starved matches are silent, a starved
      match never has both sides filled and is no bye. */
  lemma StarvedNotReady(rounds: seq<seq<Match>>, k: nat, i: int)
    requires BracketShape(rounds) && AllFed(rounds) && ByeRule(rounds) && StarvedSilent(rounds)
    requires k < |rounds| && 0 <= i < |rounds[k]| && Starved(rounds[0], k, i)
    ensures !Ready(rounds[k][i]) && !rounds[k][i].isBye
  {
    if k > 0 {
      assert RoundFed(rounds, k - 1);
    }
  }

  /** A rebuild only drops winners and keeps round 0, so it keeps starved
      matches silent. */
  lemma RebuildKeepsSilent(x: seq<seq<Match>>, s: nat)
    requires BracketShape(x) && AllWinnersValid(x) && StarvedSilent(x)
    ensures Wired(x)
    ensures StarvedSilent(Rebuild(x, s))
  {
    var r: seq<seq<Match>> := Rebuild(x, s);
    RebuildKeepsValidPrefix(x, s, 0);
    RebuildOnlyClearsWinners(x, s);
    forall k: nat, i | k < |r| && 0 <= i < |r[k]| && Starved(r[0], k, i)
      ensures r[k][i].winnerId.None?
    {
      assert x[k][i].winnerId.None?;
    }
  }

  /** Scoring a match keeps its sides, so the edited tree has the same
      round 0 and its starved matches stay silent. */
  lemma EditedKeepsSilent(t: Tournament, ri: int, mi: int, legsA: int, legsB: int)
    requires Inv(t) && StarvedSilent(t.rounds)
    requires MatchAt(t.rounds, ri, mi).Some?
    ensures SameSides(Edited(t, ri, mi, legsA, legsB)[0], t.rounds[0])
    ensures StarvedSilent(Edited(t, ri, mi, legsA, legsB))
  {
    var x := Edited(t, ri, mi, legsA, legsB);
    assert SameSides(x[0], t.rounds[0]);
    forall k: nat, i | k < |x| && 0 <= i < |x[k]| && Starved(x[0], k, i)
      ensures x[k][i].winnerId.None?
    {
      StarvedSameSides(x[0], t.rounds[0], k, i);
      if k == ri && i == mi {
        StarvedNotReady(t.rounds, k, i);
        ScoreMatchWinner(t.rounds[ri][mi], legsA, legsB);
      }
    }
  }

  /** A rebuild keeps the sides of round 0. */
  lemma RebuildKeepsDraw(x: seq<seq<Match>>, s: nat, first: seq<Match>)
    requires Wired(x) && |x| >= 1 && SameSides(x[0], first)
    ensures SameSides(Rebuild(x, s)[0], first)
  {
    RebuildKeepsEarlySides(x, s);
  }

  /** `updateLegs` keeps round 0's sides and keeps starved matches silent. */
  lemma UpdateLegsKeepsSilent(t: Tournament, ri: int, mi: int, legsA: int, legsB: int)
    requires Inv(t) && StarvedSilent(t.rounds)
    ensures SameSides(UpdateLegs(t, ri, mi, legsA, legsB).rounds[0], t.rounds[0])
    ensures StarvedSilent(UpdateLegs(t, ri, mi, legsA, legsB).rounds)
  {
    if MatchAt(t.rounds, ri, mi).Some? {
      var x := Edited(t, ri, mi, legsA, legsB);
      EditedIsReady(t, ri, mi, legsA, legsB);
      EditedKeepsSilent(t, ri, mi, legsA, legsB);
      RebuildKeepsSilent(x, ri);
      RebuildKeepsDraw(x, ri, t.rounds[0]);
      assert UpdateLegs(t, ri, mi, legsA, legsB).rounds == Rebuild(x, ri);
    }
  }

  /** After a reset only byes have winners, and no bye is starved, so a
      reset silences every starved match whatever the tree held before. */
  lemma ResetSilences(t: Tournament)
    requires Inv(t)
    ensures SameSides(ResetTournamentWinners(t).rounds[0], t.rounds[0])
    ensures StarvedSilent(ResetTournamentWinners(t).rounds)
  {
    var x := ResetMatches(t.rounds);
    ResetMatchesReady(t);
    forall k: nat, i | k < |x| && 0 <= i < |x[k]| && Starved(x[0], k, i)
      ensures x[k][i].winnerId.None?
    {
      assert !x[k][i].isBye;
    }
    RebuildKeepsSilent(x, 0);
    RebuildKeepsDraw(x, 0, t.rounds[0]);
  }
}
