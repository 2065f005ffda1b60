/** Scoring a single match and the tournament-level mutators that call it
    (src/lib/tournament.ts:127-154, 234-316). Every mutator returns a new
    tournament; the source clones or returns its argument, so nothing the
    caller holds is ever changed. */
module Scoring {
  import opened Wrappers
  import opened Types
  import opened Helpers
  import opened Propagation

  /** `side` has won enough legs and strictly more than the opponent. */
  predicate Decides(m: Match, side: Side) {
    var target := LegsToWin(m.bestOf);
    if side == A then m.legsA >= target && m.legsA > m.legsB
    else m.legsB >= target && m.legsB > m.legsA
  }

  /** The id on `side`, when that side is occupied. */
  function SideId(m: Match, side: Side): Option<PlayerId> {
    var slot := if side == A then m.a else m.b;
    if slot.Some? then Some(slot.value.playerId) else None
  }

  /** A bye that already carries its winner is left alone by scoring. */
  predicate SettledBye(m: Match) {
    m.isBye && m.winnerId.Some?
  }

  /** `recomputeWinnerFromLegs`: the winner follows the legs. A settled bye
      keeps its winner; otherwise a winner exists exactly when both sides
      are occupied and one side decides the match, and it is that side's
      player. Nothing but the winner changes. */
  function RecomputeWinnerFromLegs(m: Match): (r: Match)
    ensures r.(winnerId := m.winnerId) == m
    ensures SettledBye(m) ==> r == m
    ensures !SettledBye(m) ==>
      (r.winnerId.Some? <==> Ready(m) && (Decides(m, A) || Decides(m, B)))
    ensures !SettledBye(m) && r.winnerId.Some? ==>
      exists side :: Decides(m, side) && r.winnerId == SideId(m, side)
  {
    if SettledBye(m) then m
    else if !Ready(m) then m.(winnerId := None)
    else if Decides(m, A) then
      assert Decides(m, A) && Some(m.a.value.playerId) == SideId(m, A);
      m.(winnerId := Some(m.a.value.playerId))
    else if Decides(m, B) then
      assert Decides(m, B) && Some(m.b.value.playerId) == SideId(m, B);
      m.(winnerId := Some(m.b.value.playerId))
    else m.(winnerId := None)
  }

  /** At most one side can decide a match. */
  lemma DecidesExclusive(m: Match)
    ensures !(Decides(m, A) && Decides(m, B))
  {
  }

  /** A recomputed winner is always one of the occupants, provided a
      settled bye already was. */
  lemma RecomputeKeepsValid(m: Match)
    requires SettledBye(m) ==> WinnerValid(m)
    ensures WinnerValid(RecomputeWinnerFromLegs(m))
  {
  }

  /** Recomputing a second time changes nothing. */
  lemma RecomputeIdempotent(m: Match)
    ensures RecomputeWinnerFromLegs(RecomputeWinnerFromLegs(m)) == RecomputeWinnerFromLegs(m)
  {
  }

  /** The edit `updateLegs` makes to the addressed match: both scores
      clamped into `[0, bestOf]`, then the winner recomputed. */
  function ScoreMatch(m: Match, legsA: int, legsB: int): (r: Match)
    ensures r.(winnerId := m.winnerId, legsA := m.legsA, legsB := m.legsB) == m
    ensures r.legsA == ClampLegs(legsA, m.bestOf) && r.legsB == ClampLegs(legsB, m.bestOf)
  {
    RecomputeWinnerFromLegs(m.(legsA := ClampLegs(legsA, m.bestOf), legsB := ClampLegs(legsB, m.bestOf)))
  }

  /** Scoring a match twice with the same legs is scoring it once. */
  lemma ScoreMatchIdempotent(m: Match, legsA: int, legsB: int)
    ensures ScoreMatch(ScoreMatch(m, legsA, legsB), legsA, legsB) == ScoreMatch(m, legsA, legsB)
  {
    var m1 := m.(legsA := ClampLegs(legsA, m.bestOf), legsB := ClampLegs(legsB, m.bestOf));
    var r := RecomputeWinnerFromLegs(m1);
    assert r.(legsA := ClampLegs(legsA, r.bestOf), legsB := ClampLegs(legsB, r.bestOf)) == r;
    RecomputeIdempotent(m1);
  }

  /** The score `updateLegs` stores and the winner it then records: a
      settled bye keeps its winner, any other match is won by the side the
      clamped legs decide, and only when both sides are occupied. */
  lemma ScoreMatchWinner(m: Match, legsA: int, legsB: int)
    ensures var n := ScoreMatch(m, legsA, legsB);
            && (SettledBye(m) ==> n.winnerId == m.winnerId)
            && (!SettledBye(m) ==> (n.winnerId.Some? <==> Ready(n) && (Decides(n, A) || Decides(n, B))))
            && (!SettledBye(m) && n.winnerId.Some? ==>
                  exists side :: Decides(n, side) && n.winnerId == SideId(n, side))
  {
  }

  /** The legs `quickSetWinner` passes on make `winner` the winner of a
      match with both sides occupied that is not a bye. */
  lemma QuickScoreDecides(m: Match, winner: Side)
    requires Ready(m) && !m.isBye
    requires m.bestOf >= 1 && m.bestOf % 2 == 1 && m.legsA >= 0 && m.legsB >= 0
    ensures var target := LegsToWin(m.bestOf);
            var la := QuickLegs(m.legsA, winner == A, target);
            var lb := QuickLegs(m.legsB, winner == B, target);
            var n := ScoreMatch(m, la, lb);
            && n.legsA == la && n.legsB == lb
            && Decides(n, winner)
            && n.winnerId == SideId(m, winner)
  {
    LegsToWinReachable(m.bestOf);
  }

  /** `t.rounds[roundIndex]?.[matchIndex]`: the addressed match, if any. */
  function MatchAt(rounds: seq<seq<Match>>, ri: int, mi: int): (r: Option<Match>)
    ensures r.Some? <==> 0 <= ri < |rounds| && 0 <= mi < |rounds[ri]|
    ensures r.Some? ==> r.value == rounds[ri][mi]
  {
    if 0 <= ri < |rounds| && 0 <= mi < |rounds[ri]| then Some(rounds[ri][mi]) else None
  }

  /** The tree with one match replaced. */
  function SetMatch(rounds: seq<seq<Match>>, ri: int, mi: int, m: Match): (r: seq<seq<Match>>)
    requires 0 <= ri < |rounds| && 0 <= mi < |rounds[ri]|
    ensures |r| == |rounds| && (forall k :: 0 <= k < |r| ==> |r[k]| == |rounds[k]|)
    ensures r[ri][mi] == m
    ensures forall k, i :: 0 <= k < |r| && 0 <= i < |r[k]| && (k, i) != (ri, mi) ==> r[k][i] == rounds[k][i]
    ensures m.matchIndex == rounds[ri][mi].matchIndex && Wired(rounds) ==> Wired(r)
  {
    rounds[ri := rounds[ri][mi := m]]
  }

  /** `updateLegs`: store the clamped score of the addressed match,
      recompute its winner, then rebuild every later round from it. An
      address that names no match returns the tournament unchanged. */
  function UpdateLegs(t: Tournament, ri: int, mi: int, legsA: int, legsB: int): (r: Tournament)
    requires Wired(t.rounds)
    ensures r.(rounds := t.rounds) == t
    ensures MatchAt(t.rounds, ri, mi).None? ==> r == t
    ensures Wired(r.rounds)
  {
    match MatchAt(t.rounds, ri, mi)
    case None => t
    case Some(m) =>
      var edited := SetMatch(t.rounds, ri, mi, ScoreMatch(m, legsA, legsB));
      t.(rounds := Rebuild(edited, ri))
  }

  /** `incrementLeg`: one leg more or less for `side`, through `updateLegs`. */
  function IncrementLeg(t: Tournament, ri: int, mi: int, side: Side, delta: int): (r: Tournament)
    requires Wired(t.rounds)
    requires delta == 1 || delta == -1
    ensures r.(rounds := t.rounds) == t
    ensures MatchAt(t.rounds, ri, mi).None? ==> r == t
    ensures Wired(r.rounds)
  {
    match MatchAt(t.rounds, ri, mi)
    case None => t
    case Some(m) =>
      UpdateLegs(t, ri, mi, Bumped(m.legsA, side == A, delta), Bumped(m.legsB, side == B, delta))
  }

  /** `quickSetWinner`: give `winner` the legs it needs and cap the loser
      one leg short; only a match with both sides occupied is touched. */
  function QuickSetWinner(t: Tournament, ri: int, mi: int, winner: Side): (r: Tournament)
    requires Wired(t.rounds)
    ensures r.(rounds := t.rounds) == t
    ensures MatchAt(t.rounds, ri, mi).None? || !Ready(MatchAt(t.rounds, ri, mi).value) ==> r == t
    ensures Wired(r.rounds)
  {
    match MatchAt(t.rounds, ri, mi)
    case None => t
    case Some(m) =>
      if !Ready(m) then t
      else
        var target := LegsToWin(m.bestOf);
        UpdateLegs(t, ri, mi, QuickLegs(m.legsA, winner == A, target), QuickLegs(m.legsB, winner == B, target))
  }

  /** The score `incrementLeg` asks for on one side: moved by `delta`
      on the chosen side, kept on the other. */
  function Bumped(legs: int, moved: bool, delta: int): int {
    if moved then legs + delta else legs
  }

  /** The score `quickSetWinner` asks for on one side: exactly the legs
      needed for the winner, at most one short of them for the loser. */
  function QuickLegs(legs: int, wins: bool, target: int): int {
    if wins then target else Min(legs, target - 1)
  }

  function Min(x: int, y: int): int {
    if x <= y then x else y
  }

  /** The per-match step of `resetTournamentWinners`: both scores back to
      zero and the winner dropped, unless the match is a settled bye. */
  function ResetMatch(m: Match): (r: Match)
    ensures r.legsA == 0 && r.legsB == 0
    ensures r.winnerId == (if SettledBye(m) then m.winnerId else None)
    ensures r.(legsA := m.legsA, legsB := m.legsB, winnerId := m.winnerId) == m
  {
    m.(legsA := 0, legsB := 0, winnerId := if SettledBye(m) then m.winnerId else None)
  }

  function ResetMatches(rounds: seq<seq<Match>>): (r: seq<seq<Match>>)
    ensures |r| == |rounds| && forall k :: 0 <= k < |r| ==> |r[k]| == |rounds[k]|
    ensures forall k, i :: 0 <= k < |r| && 0 <= i < |r[k]| ==> r[k][i] == ResetMatch(rounds[k][i])
  {
    seq(|rounds|, k requires 0 <= k < |rounds| =>
      seq(|rounds[k]|, i requires 0 <= i < |rounds[k]| => ResetMatch(rounds[k][i])))
  }

  /** `resetTournamentWinners`: reset every match, then rebuild the whole
      tree from round 0 so that only the byes advance. */
  function ResetTournamentWinners(t: Tournament): (r: Tournament)
    requires Wired(t.rounds)
    ensures r.(rounds := t.rounds) == t
    ensures Wired(r.rounds)
  {
    var reset := ResetMatches(t.rounds);
    assert forall k, i :: 0 <= k < |reset| && 0 <= i < |reset[k]| ==> reset[k][i].matchIndex == t.rounds[k][i].matchIndex;
    t.(rounds := Rebuild(reset, 0))
  }
}
