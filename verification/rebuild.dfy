/** What the clear-then-propagate recomputation guarantees
    (src/lib/tournament.ts:88-125, called at 228-229, 260-261, 313-314). */
module RebuildFacts {
  import opened Wrappers
  import opened Types
  import opened Propagation
  import opened PropagationFacts

  /** Every match of round `k + 1` holds exactly the slots the two matches
      of round `k` feeding it hand on: side `a` from the even one, side `b`
      from the odd one, and nothing where no winner is recorded. */
  predicate RoundFed(rounds: seq<seq<Match>>, k: int) {
    && 0 <= k < |rounds| - 1
    && |rounds[k]| == 2 * |rounds[k + 1]|
    && forall j :: 0 <= j < |rounds[k + 1]| ==>
         rounds[k + 1][j].a == WinnerSlot(rounds[k][2 * j]) &&
         rounds[k + 1][j].b == WinnerSlot(rounds[k][2 * j + 1])
  }

  /** Every winner of round `k` of `p` is the one recorded in round `k` of
      `x`, kept exactly when that player occupies a side in `p`. */
  predicate KeptIfStillPresent(p: seq<seq<Match>>, x: seq<seq<Match>>, k: int) {
    && 0 <= k < |x| && k < |p| && |p[k]| == |x[k]|
    && forall i :: 0 <= i < |x[k]| ==>
         p[k][i].winnerId ==
           if x[k][i].winnerId.Some? && Occupies(p[k][i], x[k][i].winnerId.value)
           then x[k][i].winnerId else None
  }

  lemma ValidatedRoundIsFed(p: seq<seq<Match>>, y: seq<seq<Match>>, k: int)
    requires FedAndValidated(p, y, k + 1) && k + 1 < |p|
    ensures RoundFed(p, k)
  {
  }

  lemma WipedRoundIsFed(p: seq<seq<Match>>, y: seq<seq<Match>>, k: int)
    requires FedAndWiped(p, y, k + 1) && k + 1 < |p|
    ensures RoundFed(p, k)
  {
  }

  lemma RebuildCharacterized(x: seq<seq<Match>>, s: nat)
    requires BracketShape(x)
    requires s + 1 < |x|
    ensures Wired(x)
    ensures BracketShape(ClearParticipantsFromRound(x, s + 1))
    ensures Characterized(Rebuild(x, s), ClearParticipantsFromRound(x, s + 1), s)
  {
    var y := ClearParticipantsFromRound(x, s + 1);
    SameFrameKeepsWiring(x, y);
    Characterize(y, s);
  }

  /** Propagation correctness: from round `s` on, every round is fed by the
      one before it. */
  lemma RebuildFeeds(x: seq<seq<Match>>, s: nat)
    requires BracketShape(x)
    ensures Wired(x)
    ensures forall k :: s <= k < |x| - 1 ==> RoundFed(Rebuild(x, s), k)
  {
    if s + 1 < |x| {
      RebuildCharacterized(x, s);
      CharacterizedFeeds(Rebuild(x, s), ClearParticipantsFromRound(x, s + 1), s);
    }
  }

  lemma CharacterizedFeeds(p: seq<seq<Match>>, y: seq<seq<Match>>, s: nat)
    requires Characterized(p, y, s)
    requires s + 1 < |y| && |p| == |y|
    ensures forall k :: s <= k < |p| - 1 ==> RoundFed(p, k)
  {
    forall k | s <= k < |p| - 1
      ensures RoundFed(p, k)
    {
      if k == s {
        ValidatedRoundIsFed(p, y, k);
      } else {
        WipedRoundIsFed(p, y, k);
      }
    }
  }

  /** Downstream invalidation as written: every round from `s + 2` on ends
      with no winner, because the first validation pass sees those rounds
      still empty. */
  lemma RebuildWipes(x: seq<seq<Match>>, s: nat)
    requires BracketShape(x)
    ensures Wired(x)
    ensures forall k, i :: s + 2 <= k < |x| && 0 <= i < |x[k]| ==> Rebuild(x, s)[k][i].winnerId.None?
  {
    if s + 1 < |x| {
      RebuildCharacterized(x, s);
      var y := ClearParticipantsFromRound(x, s + 1);
      var p: seq<seq<Match>> := Rebuild(x, s);
      forall k, i | s + 2 <= k < |x| && 0 <= i < |x[k]|
        ensures p[k][i].winnerId.None?
      {
        assert FedAndWiped(p, y, k);
      }
    }
  }

  /** Round `s + 1` keeps a winner only while that player still occupies
      one of its freshly propagated sides. */
  lemma RebuildNextRound(x: seq<seq<Match>>, s: nat)
    requires BracketShape(x)
    requires s + 1 < |x|
    ensures Wired(x)
    ensures KeptIfStillPresent(Rebuild(x, s), x, s + 1)
  {
    RebuildCharacterized(x, s);
    var y := ClearParticipantsFromRound(x, s + 1);
    assert FedAndValidated(Rebuild(x, s), y, s + 1);
  }

  /** Rounds up to `s` are only validated. */
  lemma RebuildLower(x: seq<seq<Match>>, s: nat)
    requires BracketShape(x)
    requires s + 1 < |x|
    ensures Wired(x)
    ensures forall k, i :: 0 <= k <= s && 0 <= i < |x[k]| ==> Rebuild(x, s)[k][i] == ValidateMatch(x[k][i])
  {
    RebuildCharacterized(x, s);
    var y := ClearParticipantsFromRound(x, s + 1);
    forall k, i | 0 <= k <= s && 0 <= i < |x[k]|
      ensures Rebuild(x, s)[k][i] == ValidateMatch(x[k][i])
    {
      assert OnlyValidated(Rebuild(x, s), y, k);
    }
  }

  /** With no round after `s` there is nothing to recompute. */
  lemma RebuildAtFinal(x: seq<seq<Match>>, s: nat)
    requires Wired(x)
    requires s + 1 >= |x|
    ensures Rebuild(x, s) == x
  {
    var y := ClearParticipantsFromRound(x, s + 1);
    assert forall k :: 0 <= k < |x| ==> y[k] == x[k];
  }

  /** The sides of rounds `0..s` are never written. */
  lemma RebuildKeepsEarlySides(x: seq<seq<Match>>, s: nat)
    requires Wired(x)
    ensures SidesKeptUpTo(Rebuild(x, s), x, s)
  {
    var y := ClearParticipantsFromRound(x, s + 1);
    SameFrameKeepsWiring(x, y);
    PropagateKeepsEarlySides(y, s);
  }

  /** A rebuild never records a winner; it only drops them. */
  lemma RebuildOnlyClearsWinners(x: seq<seq<Match>>, s: nat)
    requires Wired(x)
    ensures WinnersOnlyCleared(Rebuild(x, s), x)
  {
    var y := ClearParticipantsFromRound(x, s + 1);
    SameFrameKeepsWiring(x, y);
    PropagateOnlyClearsWinners(y, s);
  }

  /** After a rebuild that had a round to propagate, every winner names
      one of its match's occupants. */
  lemma RebuildValidates(x: seq<seq<Match>>, s: nat)
    requires Wired(x)
    requires s + 1 < |x|
    ensures AllWinnersValid(Rebuild(x, s))
  {
    var y := ClearParticipantsFromRound(x, s + 1);
    SameFrameKeepsWiring(x, y);
    PropagateValidates(y, s);
  }

  /** On a tree whose winners are all valid, rounds `0..s` come out of the
      rebuild unchanged. */
  lemma RebuildKeepsValidPrefix(x: seq<seq<Match>>, s: nat, k: nat)
    requires BracketShape(x)
    requires AllWinnersValid(x)
    requires k <= s && k < |x|
    ensures Wired(x)
    ensures Rebuild(x, s)[k] == x[k]
  {
    if s + 1 < |x| {
      RebuildLower(x, s);
    } else {
      RebuildAtFinal(x, s);
    }
  }

  /** Round `k` of `z2` equals round `k` of `z`. */
  predicate SameRound(z2: seq<seq<Match>>, z: seq<seq<Match>>, k: int) {
    0 <= k < |z| && k < |z2| && z2[k] == z[k]
  }

  /** `y` is `z` with the sides of every match of round `from` or later
      removed. */
  predicate ClearedFrom(y: seq<seq<Match>>, z: seq<seq<Match>>, from: int) {
    && |y| == |z|
    && forall k :: 0 <= k < |z| ==>
         |y[k]| == |z[k]| &&
         forall i :: 0 <= i < |z[k]| ==>
           y[k][i] == if k < from then z[k][i] else z[k][i].(a := None, b := None)
  }

  lemma ClearIsClearedFrom(z: seq<seq<Match>>, from: int)
    ensures ClearedFrom(ClearParticipantsFromRound(z, from), z, from)
  {
  }

  // The next three lemmas compare two characterised recomputations, the
  // second run on the result `z` of the first, one round at a time.

  lemma TwiceLower(z: seq<seq<Match>>, y: seq<seq<Match>>, z2: seq<seq<Match>>, y2: seq<seq<Match>>, s: nat, k: nat)
    requires k <= s
    requires OnlyValidated(z, y, k) && OnlyValidated(z2, y2, k)
    requires ClearedFrom(y2, z, s + 1)
    ensures SameRound(z2, z, k)
  {
    forall i | 0 <= i < |z[k]| ensures z2[k][i] == z[k][i] {
      ValidateKeepsWinnerSlot(y[k][i]);
    }
  }

  lemma TwiceNext(z: seq<seq<Match>>, y: seq<seq<Match>>, z2: seq<seq<Match>>, y2: seq<seq<Match>>, s: nat)
    requires FedAndValidated(z, y, s + 1) && FedAndValidated(z2, y2, s + 1)
    requires ClearedFrom(y2, z, s + 1)
    requires SameRound(z2, z, s)
    ensures SameRound(z2, z, s + 1)
  {
    var n := s + 1;
    forall i | 0 <= i < |z[n]| ensures z2[n][i] == z[n][i] {
      var f := Fed(y[n][i], z[s][2 * i], z[s][2 * i + 1]);
      ValidateKeepsWinnerSlot(f);
      assert Fed(y2[n][i], z[s][2 * i], z[s][2 * i + 1]) == ValidateMatch(f);
    }
  }

  lemma TwiceUpper(z: seq<seq<Match>>, y: seq<seq<Match>>, z2: seq<seq<Match>>, y2: seq<seq<Match>>, s: nat, k: nat)
    requires s + 1 < k
    requires FedAndWiped(z, y, k) && FedAndWiped(z2, y2, k)
    requires ClearedFrom(y2, z, s + 1)
    requires SameRound(z2, z, k - 1)
    ensures SameRound(z2, z, k)
  {
    forall i | 0 <= i < |z[k]| ensures z2[k][i] == z[k][i] {
      assert Fed(y2[k][i], z[k - 1][2 * i], z[k - 1][2 * i + 1]).(winnerId := None) == z[k][i];
    }
  }

  lemma {:induction false} TwiceRound(z: seq<seq<Match>>, y: seq<seq<Match>>, z2: seq<seq<Match>>, y2: seq<seq<Match>>, s: nat, k: nat)
    requires Characterized(z, y, s) && Characterized(z2, y2, s)
    requires ClearedFrom(y2, z, s + 1) && |y| == |y2|
    requires k < |y|
    ensures SameRound(z2, z, k)
    decreases k
  {
    if k <= s {
      TwiceLower(z, y, z2, y2, s, k);
    } else if k == s + 1 {
      TwiceRound(z, y, z2, y2, s, s);
      TwiceNext(z, y, z2, y2, s);
    } else {
      TwiceRound(z, y, z2, y2, s, k - 1);
      TwiceUpper(z, y, z2, y2, s, k);
    }
  }

  lemma TwiceSame(z: seq<seq<Match>>, y: seq<seq<Match>>, z2: seq<seq<Match>>, y2: seq<seq<Match>>, s: nat)
    requires Characterized(z, y, s) && Characterized(z2, y2, s)
    requires ClearedFrom(y2, z, s + 1) && |y| == |y2| == |z| == |z2|
    ensures z2 == z
  {
    forall k | 0 <= k < |z| ensures z2[k] == z[k] {
      TwiceRound(z, y, z2, y2, s, k);
    }
  }

  /** Recomputing twice from the same round gives what recomputing once
      gave: the rebuild depends only on what it does not overwrite. */
  lemma RebuildIdempotent(x: seq<seq<Match>>, s: nat)
    requires BracketShape(x)
    ensures Wired(x) && Wired(Rebuild(x, s))
    ensures Rebuild(Rebuild(x, s), s) == Rebuild(x, s)
  {
    var z := Rebuild(x, s);
    SameFrameKeepsWiring(x, z);
    if s + 1 < |x| {
      RebuildCharacterized(x, s);
      RebuildCharacterized(z, s);
      ClearIsClearedFrom(z, s + 1);
      TwiceSame(z, ClearParticipantsFromRound(x, s + 1), Rebuild(z, s), ClearParticipantsFromRound(z, s + 1), s);
    }
  }
}
