/** Winner propagation (src/lib/tournament.ts:81-125): the winner of match
    `i` of round `k` is copied into match `i / 2` of round `k + 1`, on side
    `a` for even `i` and side `b` for odd `i`; after each round the whole
    tree is validated so that no winner outlives its occupant. */
module Propagation {
  import opened Wrappers
  import opened Types

  /** `winnerSlot`: the side that holds the recorded winner, `a` first. */
  function WinnerSlot(m: Match): (w: Option<Slot>)
    ensures w.Some? <==> m.winnerId.Some? && Occupies(m, m.winnerId.value)
    ensures w.Some? ==> w.value.playerId == m.winnerId.value && (w == m.a || w == m.b)
    ensures m.winnerId.Some? && m.a.Some? && m.a.value.playerId == m.winnerId.value ==> w == m.a
  {
    if m.winnerId.None? then None
    else if m.a.Some? && m.a.value.playerId == m.winnerId.value then m.a
    else if m.b.Some? && m.b.value.playerId == m.winnerId.value then m.b
    else None
  }

  /** `clearParticipantsFromRound`: every match of round `start` or later
      loses both sides; nothing else changes. */
  function ClearParticipantsFromRound(rounds: seq<seq<Match>>, start: int): (r: seq<seq<Match>>)
    ensures SameFrame(rounds, r)
    ensures forall k, i :: 0 <= k < |r| && 0 <= i < |r[k]| ==>
      if k < start then r[k][i] == rounds[k][i]
      else r[k][i].a.None? && r[k][i].b.None? && r[k][i].winnerId == rounds[k][i].winnerId
  {
    seq(|rounds|, k requires 0 <= k < |rounds| =>
      if k < start then rounds[k]
      else seq(|rounds[k]|, i requires 0 <= i < |rounds[k]| => rounds[k][i].(a := None, b := None)))
  }

  /** The per-match step of `validateWinners`: a winner that names neither
      occupant is dropped, every other field is kept. */
  function ValidateMatch(m: Match): (r: Match)
    ensures WinnerValid(r)
    ensures r.a == m.a && r.b == m.b && Frame(r) == Frame(m)
    ensures WinnerValid(m) <==> r == m
    ensures r.winnerId.Some? ==> r.winnerId == m.winnerId
  {
    if WinnerValid(m) then m else m.(winnerId := None)
  }

  /** `validateWinners` over the whole tree. */
  function ValidateWinners(rounds: seq<seq<Match>>): (r: seq<seq<Match>>)
    ensures SameFrame(rounds, r)
    ensures AllWinnersValid(r)
    ensures forall k, i :: 0 <= k < |r| && 0 <= i < |r[k]| ==> r[k][i] == ValidateMatch(rounds[k][i])
  {
    seq(|rounds|, k requires 0 <= k < |rounds| =>
      seq(|rounds[k]|, i requires 0 <= i < |rounds[k]| => ValidateMatch(rounds[k][i])))
  }

  /** Validation never changes which slot a match hands on. */
  lemma ValidateKeepsWinnerSlot(m: Match)
    ensures WinnerSlot(ValidateMatch(m)) == WinnerSlot(m)
    ensures ValidateMatch(ValidateMatch(m)) == ValidateMatch(m)
  {
  }

  /** Does the source's write `next[floor(matchIndex / 2)]` hit a match? */
  predicate Targets(m: Match, size: int) {
    0 <= m.matchIndex && m.matchIndex / 2 < size
  }

  /** One iteration of the inner loop of `propagateWinnersForward`: copy the
      winner's slot of `m`, if any, into the next round. */
  function Place(next: seq<Match>, m: Match): (r: seq<Match>)
    requires Targets(m, |next|)
    ensures |r| == |next|
    ensures forall j :: 0 <= j < |r| ==> Frame(r[j]) == Frame(next[j]) && r[j].winnerId == next[j].winnerId
    ensures WinnerSlot(m).None? ==> r == next
    ensures WinnerSlot(m).Some? && m.matchIndex % 2 == 0 ==>
      r[m.matchIndex / 2].a == WinnerSlot(m) && r[m.matchIndex / 2].b == next[m.matchIndex / 2].b
    ensures WinnerSlot(m).Some? && m.matchIndex % 2 == 1 ==>
      r[m.matchIndex / 2].b == WinnerSlot(m) && r[m.matchIndex / 2].a == next[m.matchIndex / 2].a
    ensures forall j :: 0 <= j < |r| && j != m.matchIndex / 2 ==> r[j] == next[j]
  {
    match WinnerSlot(m)
    case None => next
    case Some(w) =>
      var j := m.matchIndex / 2;
      if m.matchIndex % 2 == 0 then next[j := next[j].(a := Some(w))]
      else next[j := next[j].(b := Some(w))]
  }

  /** The first `n` iterations of the inner loop, in the source's order:
      a later match overwrites an earlier one aiming at the same side. */
  function PushFirst(current: seq<Match>, next: seq<Match>, n: nat): (r: seq<Match>)
    requires n <= |current|
    requires forall i :: 0 <= i < |current| ==> Targets(current[i], |next|)
    ensures |r| == |next|
    ensures forall j :: 0 <= j < |r| ==> Frame(r[j]) == Frame(next[j]) && r[j].winnerId == next[j].winnerId
    decreases n
  {
    if n == 0 then next else Place(PushFirst(current, next, n - 1), current[n - 1])
  }

  /** The whole inner loop over one round. */
  function PushWinners(current: seq<Match>, next: seq<Match>): (r: seq<Match>)
    requires forall i :: 0 <= i < |current| ==> Targets(current[i], |next|)
    ensures |r| == |next|
    ensures forall j :: 0 <= j < |r| ==> Frame(r[j]) == Frame(next[j]) && r[j].winnerId == next[j].winnerId
  {
    PushFirst(current, next, |current|)
  }

  /** One iteration of the outer loop of `propagateWinnersForward`: copy the
      winners of round `k` into round `k + 1`, then validate the whole tree. */
  function PropagateRound(rounds: seq<seq<Match>>, k: nat): (r: seq<seq<Match>>)
    requires Wired(rounds)
    requires k + 1 < |rounds|
    ensures SameFrame(rounds, r)
    ensures Wired(r)
  {
    var pushed := rounds[k + 1 := PushWinners(rounds[k], rounds[k + 1])];
    assert SameFrame(rounds, pushed);
    var validated := ValidateWinners(pushed);
    SameFrameKeepsWiring(rounds, validated);
    validated
  }

  /** `propagateWinnersForward(t, start)`: run the outer loop for every
      round from `start` to the second-to-last. */
  function PropagateWinnersForward(rounds: seq<seq<Match>>, start: nat): (r: seq<seq<Match>>)
    requires Wired(rounds)
    ensures SameFrame(rounds, r)
    ensures Wired(r)
    decreases |rounds| - start
  {
    if start + 1 >= |rounds| then rounds
    else PropagateWinnersForward(PropagateRound(rounds, start), start + 1)
  }

  /** Clear every side after round `s`, then propagate from round `s`: the
      recomputation `updateLegs` runs after an edit in round `s`, and
      `generateTournament` and `resetTournamentWinners` run with `s = 0`. */
  function Rebuild(rounds: seq<seq<Match>>, s: nat): (r: seq<seq<Match>>)
    requires Wired(rounds)
    ensures SameFrame(rounds, r)
    ensures Wired(r)
  {
    var cleared := ClearParticipantsFromRound(rounds, s + 1);
    SameFrameKeepsWiring(rounds, cleared);
    PropagateWinnersForward(cleared, s)
  }
}

module PropagationFacts {
  import opened Wrappers
  import opened Types
  import opened Propagation

  /** One outer iteration validates every round but the one it writes
      into, and leaves that round's winners as they were. */
  lemma PropagateRoundFacts(rounds: seq<seq<Match>>, k: nat)
    requires Wired(rounds)
    requires k + 1 < |rounds|
    ensures var r := PropagateRound(rounds, k);
      && AllWinnersValid(r)
      && (forall j, i :: 0 <= j < |r| && 0 <= i < |r[j]| && j != k + 1 ==>
            r[j][i] == ValidateMatch(rounds[j][i]))
      && (forall j, i :: 0 <= j < |r| && 0 <= i < |r[j]| ==>
            r[j][i].winnerId == rounds[j][i].winnerId || r[j][i].winnerId.None?)
  {
  }

  /** The sides of every match of rounds `0..upTo` are the same in both trees. */
  predicate SidesKeptUpTo(r: seq<seq<Match>>, rounds: seq<seq<Match>>, upTo: int) {
    forall k, i :: 0 <= k <= upTo && k < |r| && k < |rounds| && 0 <= i < |r[k]| && i < |rounds[k]| ==>
      r[k][i].a == rounds[k][i].a && r[k][i].b == rounds[k][i].b
  }

  /** Every winner of `r` is the winner of `rounds` or is gone. */
  predicate WinnersOnlyCleared(r: seq<seq<Match>>, rounds: seq<seq<Match>>) {
    forall k, i :: 0 <= k < |r| && k < |rounds| && 0 <= i < |r[k]| && i < |rounds[k]| ==>
      r[k][i].winnerId == rounds[k][i].winnerId || r[k][i].winnerId.None?
  }

  /** `propagateWinnersForward` leaves the sides of the rounds up to `start`
      as they are: it only writes into later rounds. */
  lemma {:induction false} PropagateKeepsEarlySides(rounds: seq<seq<Match>>, start: nat)
    requires Wired(rounds)
    ensures SidesKeptUpTo(PropagateWinnersForward(rounds, start), rounds, start)
    decreases |rounds| - start
  {
    if start + 1 < |rounds| {
      PropagateRoundFacts(rounds, start);
      PropagateKeepsEarlySides(PropagateRound(rounds, start), start + 1);
    }
  }

  /** `propagateWinnersForward` never sets a winner; it only removes them. */
  lemma {:induction false} PropagateOnlyClearsWinners(rounds: seq<seq<Match>>, start: nat)
    requires Wired(rounds)
    ensures WinnersOnlyCleared(PropagateWinnersForward(rounds, start), rounds)
    decreases |rounds| - start
  {
    if start + 1 < |rounds| {
      PropagateRoundFacts(rounds, start);
      PropagateOnlyClearsWinners(PropagateRound(rounds, start), start + 1);
    }
  }

  /** Once at least one round was processed, every remaining winner names
      an occupant of its match. */
  lemma {:induction false} PropagateValidates(rounds: seq<seq<Match>>, start: nat)
    requires Wired(rounds)
    requires start + 1 < |rounds|
    ensures AllWinnersValid(PropagateWinnersForward(rounds, start))
    decreases |rounds| - start
  {
    PropagateRoundFacts(rounds, start);
    if start + 2 < |rounds| {
      PropagateValidates(PropagateRound(rounds, start), start + 1);
    }
  }

  /** Every match of round `from` or later has both sides empty. */
  predicate SidesEmptyFrom(rounds: seq<seq<Match>>, from: int) {
    forall k, i :: 0 <= k < |rounds| && from <= k && 0 <= i < |rounds[k]| ==>
      rounds[k][i].a.None? && rounds[k][i].b.None?
  }

  /** `m` with the sides its two feeder matches hand on. */
  function Fed(m: Match, left: Match, right: Match): Match {
    m.(a := WinnerSlot(left), b := WinnerSlot(right))
  }

  lemma {:induction false} PushFirstSides(current: seq<Match>, next: seq<Match>, n: nat)
    requires |current| == 2 * |next|
    requires forall i :: 0 <= i < |current| ==> current[i].matchIndex == i
    requires n <= |current|
    ensures forall i :: 0 <= i < |current| ==> Targets(current[i], |next|)
    ensures forall j :: 0 <= j < |next| ==>
      PushFirst(current, next, n)[j] == next[j].(
        a := if 2 * j < n && WinnerSlot(current[2 * j]).Some? then WinnerSlot(current[2 * j]) else next[j].a,
        b := if 2 * j + 1 < n && WinnerSlot(current[2 * j + 1]).Some? then WinnerSlot(current[2 * j + 1]) else next[j].b)
    decreases n
  {
    if n > 0 {
      PushFirstSides(current, next, n - 1);
      var m := current[n - 1];
      var prev := PushFirst(current, next, n - 1);
      var r := PushFirst(current, next, n);
      assert r == Place(prev, m);
      var j0 := (n - 1) / 2;
      assert m.matchIndex == n - 1;
      forall j | 0 <= j < |next|
        ensures r[j] == next[j].(
          a := if 2 * j < n && WinnerSlot(current[2 * j]).Some? then WinnerSlot(current[2 * j]) else next[j].a,
          b := if 2 * j + 1 < n && WinnerSlot(current[2 * j + 1]).Some? then WinnerSlot(current[2 * j + 1]) else next[j].b)
      {
        if j != j0 {
          assert 2 * j != n - 1 && 2 * j + 1 != n - 1;
        } else if (n - 1) % 2 == 0 {
          assert 2 * j == n - 1;
        } else {
          assert 2 * j + 1 == n - 1;
        }
      }
    }
  }

  /** Into a round whose sides are empty, one pass of the inner loop
      writes exactly the sides the two feeder matches hand on. */
  lemma PushIntoEmpty(current: seq<Match>, next: seq<Match>)
    requires |current| == 2 * |next|
    requires forall i :: 0 <= i < |current| ==> current[i].matchIndex == i
    requires forall j :: 0 <= j < |next| ==> next[j].a.None? && next[j].b.None?
    ensures forall i :: 0 <= i < |current| ==> Targets(current[i], |next|)
    ensures forall j :: 0 <= j < |next| ==>
      PushWinners(current, next)[j] == Fed(next[j], current[2 * j], current[2 * j + 1])
  {
    PushFirstSides(current, next, |current|);
  }

  /** Round `k` of `p` is round `k` of `y`, validated. */
  predicate OnlyValidated(p: seq<seq<Match>>, y: seq<seq<Match>>, k: int) {
    && 0 <= k < |y| && k < |p| && |p[k]| == |y[k]|
    && forall i :: 0 <= i < |y[k]| ==> p[k][i] == ValidateMatch(y[k][i])
  }

  /** Round `k` of `p` is round `k` of `y` with the sides handed on by
      round `k - 1` of `p`, validated. */
  predicate FedAndValidated(p: seq<seq<Match>>, y: seq<seq<Match>>, k: int) {
    && 1 <= k < |y| && k < |p| && |p[k]| == |y[k]| && |p[k - 1]| == 2 * |y[k]|
    && forall i :: 0 <= i < |y[k]| ==>
         p[k][i] == ValidateMatch(Fed(y[k][i], p[k - 1][2 * i], p[k - 1][2 * i + 1]))
  }

  /** Round `k` of `p` is round `k` of `y` with the sides handed on by
      round `k - 1` of `p`, and no winner. */
  predicate FedAndWiped(p: seq<seq<Match>>, y: seq<seq<Match>>, k: int) {
    && 1 <= k < |y| && k < |p| && |p[k]| == |y[k]| && |p[k - 1]| == 2 * |y[k]|
    && forall i :: 0 <= i < |y[k]| ==>
         p[k][i] == Fed(y[k][i], p[k - 1][2 * i], p[k - 1][2 * i + 1]).(winnerId := None)
  }

  /** Round `k` of `p` is round `k` of `y` without its winners. */
  predicate WinnersDropped(p: seq<seq<Match>>, y: seq<seq<Match>>, k: int) {
    && 0 <= k < |y| && k < |p| && |p[k]| == |y[k]|
    && forall i :: 0 <= i < |y[k]| ==> p[k][i] == y[k][i].(winnerId := None)
  }

  lemma ValidatedTwice(p: seq<seq<Match>>, q: seq<seq<Match>>, y: seq<seq<Match>>, k: int)
    requires OnlyValidated(p, q, k) && OnlyValidated(q, y, k)
    ensures OnlyValidated(p, y, k)
  {
    forall i | 0 <= i < |y[k]| ensures p[k][i] == ValidateMatch(y[k][i]) {
      ValidateKeepsWinnerSlot(y[k][i]);
    }
  }

  lemma ValidatedAfterFed(p: seq<seq<Match>>, q: seq<seq<Match>>, y: seq<seq<Match>>, k: int)
    requires OnlyValidated(p, q, k) && FedAndValidated(q, y, k) && OnlyValidated(p, q, k - 1)
    ensures FedAndValidated(p, y, k)
  {
    forall i | 0 <= i < |y[k]|
      ensures p[k][i] == ValidateMatch(Fed(y[k][i], p[k - 1][2 * i], p[k - 1][2 * i + 1]))
    {
      ValidateKeepsWinnerSlot(q[k - 1][2 * i]);
      ValidateKeepsWinnerSlot(q[k - 1][2 * i + 1]);
      ValidateKeepsWinnerSlot(Fed(y[k][i], q[k - 1][2 * i], q[k - 1][2 * i + 1]));
    }
  }

  lemma WipedAfterFirstPass(p: seq<seq<Match>>, q: seq<seq<Match>>, y: seq<seq<Match>>, k: int)
    requires FedAndValidated(p, q, k) && WinnersDropped(q, y, k)
    ensures FedAndWiped(p, y, k)
  {
  }

  lemma WipedStaysWiped(p: seq<seq<Match>>, q: seq<seq<Match>>, y: seq<seq<Match>>, k: int)
    requires FedAndWiped(p, q, k) && WinnersDropped(q, y, k)
    ensures FedAndWiped(p, y, k)
  {
  }

  /** The effect of one outer iteration from round `s` on a tree whose
      later rounds are empty. */
  predicate OneRound(y': seq<seq<Match>>, y: seq<seq<Match>>, s: nat) {
    && (forall k :: 0 <= k <= s ==> OnlyValidated(y', y, k))
    && FedAndValidated(y', y, s + 1)
    && (forall k :: s + 2 <= k < |y| ==> WinnersDropped(y', y, k))
  }

  /** The effect of the whole outer loop from round `s`. */
  predicate Characterized(p: seq<seq<Match>>, y: seq<seq<Match>>, s: nat) {
    && (forall k :: 0 <= k <= s ==> OnlyValidated(p, y, k))
    && FedAndValidated(p, y, s + 1)
    && (forall k :: s + 2 <= k < |y| ==> FedAndWiped(p, y, k))
  }

  /** One outer iteration on a tree whose rounds after `s` are empty. */
  lemma RoundStep(y: seq<seq<Match>>, s: nat)
    requires BracketShape(y)
    requires SidesEmptyFrom(y, s + 1)
    requires s + 1 < |y|
    ensures Wired(y)
    ensures OneRound(PropagateRound(y, s), y, s)
    ensures BracketShape(PropagateRound(y, s))
    ensures SidesEmptyFrom(PropagateRound(y, s), s + 2)
  {
    var y' := PropagateRound(y, s);
    SameFrameKeepsWiring(y, y');
    assert Halves(y, s);
    PushIntoEmpty(y[s], y[s + 1]);
    forall i | 0 <= i < |y[s + 1]|
      ensures y'[s + 1][i] == ValidateMatch(Fed(y[s + 1][i], y'[s][2 * i], y'[s][2 * i + 1]))
    {
      ValidateKeepsWinnerSlot(y[s][2 * i]);
      ValidateKeepsWinnerSlot(y[s][2 * i + 1]);
    }
  }

  lemma CombineLower(p: seq<seq<Match>>, q: seq<seq<Match>>, y: seq<seq<Match>>, s: nat)
    requires forall k :: 0 <= k <= s + 1 ==> OnlyValidated(p, q, k)
    requires forall k :: 0 <= k <= s ==> OnlyValidated(q, y, k)
    ensures forall k :: 0 <= k <= s ==> OnlyValidated(p, y, k)
  {
    forall k | 0 <= k <= s
      ensures OnlyValidated(p, y, k)
    {
      ValidatedTwice(p, q, y, k);
    }
  }

  lemma CombineUpper(p: seq<seq<Match>>, q: seq<seq<Match>>, y: seq<seq<Match>>, s: nat)
    requires |q| == |y|
    requires FedAndValidated(p, q, s + 2)
    requires forall k :: s + 3 <= k < |q| ==> FedAndWiped(p, q, k)
    requires forall k :: s + 2 <= k < |y| ==> WinnersDropped(q, y, k)
    ensures forall k :: s + 2 <= k < |y| ==> FedAndWiped(p, y, k)
  {
    forall k | s + 2 <= k < |y|
      ensures FedAndWiped(p, y, k)
    {
      if k == s + 2 {
        WipedAfterFirstPass(p, q, y, k);
      } else {
        WipedStaysWiped(p, q, y, k);
      }
    }
  }

  /** The inductive step of `Characterize`: what holds of the tree after
      one outer iteration carries over to the tree before it. */
  lemma CharacterizeStep(y: seq<seq<Match>>, y': seq<seq<Match>>, s: nat)
    requires BracketShape(y) && Wired(y)
    requires s + 2 < |y|
    requires y' == PropagateRound(y, s)
    requires OneRound(y', y, s)
    requires BracketShape(y') && SidesEmptyFrom(y', s + 2)
    ensures Characterized(PropagateWinnersForward(y, s), y, s)
    decreases |y| - s, 0
  {
    Characterize(y', s + 1);
    var p := PropagateWinnersForward(y', s + 1);
    assert p == PropagateWinnersForward(y, s);
    CombineLower(p, y', y, s);
    ValidatedAfterFed(p, y', y, s + 1);
    CombineUpper(p, y', y, s);
  }

  /** The base case of `Characterize`: one outer iteration is all there is. */
  lemma CharacterizeLast(y: seq<seq<Match>>, y': seq<seq<Match>>, s: nat)
    requires Wired(y)
    requires s + 2 == |y|
    requires y' == PropagateRound(y, s)
    requires OneRound(y', y, s)
    ensures Characterized(PropagateWinnersForward(y, s), y, s)
  {
    assert PropagateWinnersForward(y, s) == PropagateWinnersForward(y', s + 1) == y';
  }

  /** What `propagateWinnersForward(y, s)` computes, match by match, when the
      rounds after `s` start out with empty sides: the rounds up to `s` are
      only validated; round `s + 1` receives the winners of round `s` and is
      then validated; every later round receives the winners of the round
      before it and loses its own winners, because the first validation
      pass already saw it empty. */
  lemma {:induction false} Characterize(y: seq<seq<Match>>, s: nat)
    requires BracketShape(y)
    requires SidesEmptyFrom(y, s + 1)
    requires s + 1 < |y|
    ensures Wired(y)
    ensures Characterized(PropagateWinnersForward(y, s), y, s)
    decreases |y| - s, 1
  {
    RoundStep(y, s);
    if s + 2 < |y| {
      CharacterizeStep(y, PropagateRound(y, s), s);
    } else {
      CharacterizeLast(y, PropagateRound(y, s), s);
    }
  }
}
