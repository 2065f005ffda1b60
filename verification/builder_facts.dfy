/** What a freshly generated bracket looks like
    (src/lib/tournament.ts:156-232): the draw is the shuffled players
    followed by the empty slots, a bye is a round-0 match with exactly one
    player, the labels name the rounds by the players they have room for,
    the invariant holds, and there is nothing a reset would undo. */
module BuilderFacts {
  import opened Wrappers
  import opened Types
  import opened Helpers
  import opened Propagation
  import opened RebuildFacts
  import opened Scoring
  import opened BracketInvariant
  import opened ResetFacts
  import opened Builder

  /** The slots a first round pairs, read back in order. */
  function DrawOf(round: seq<Match>): (slots: seq<Option<Slot>>)
    ensures |slots| == 2 * |round|
  {
    seq(2 * |round|, j requires 0 <= j < 2 * |round| => if j % 2 == 0 then round[j / 2].a else round[j / 2].b)
  }

  /** Pairing neighbouring slots loses nothing: the pairs read back as the
      slots they were made from. */
  lemma FirstRoundReadBack(slots: seq<Option<Slot>>, bestOf: int, matchId: (nat, nat) -> string)
    requires |slots| % 2 == 0
    ensures DrawOf(FirstRound(slots, bestOf, matchId)) == slots
  {
    var r := FirstRound(slots, bestOf, matchId);
    forall j | 0 <= j < |slots| ensures DrawOf(r)[j] == slots[j] {
      var i := j / 2;
      assert r[i] == FirstRoundMatch(matchId(0, i), i, slots[2 * i], slots[2 * i + 1], bestOf);
    }
  }

  /** Slot `j` of the draw holds the `j`-th shuffled player when there is
      one and is empty otherwise. */
  lemma DrawSlot(players: seq<Player>, draws: seq<int>, j: int)
    requires ValidDraws(draws, |players|)
    requires 0 <= j < NextPowerOfTwo(|players|)
    ensures var d := Draw(players, draws);
            var shuffled := Shuffle(players, draws);
            && (d[j].Some? <==> j < |players|)
            && (j < |players| ==> d[j] == Some(Slot(shuffled[j].id, shuffled[j].name)))
  {
  }

  /** Match `i` of round `k` before the byes are carried forward. */
  lemma InitialMatch(slots: seq<Option<Slot>>, e: nat, bestOf: int, matchId: (nat, nat) -> string, k: nat, i: nat)
    requires e >= 1 && |slots| == Pow2(e)
    requires k < e && i < Pow2(e - k - 1)
    ensures var x := InitialRounds(slots, e, bestOf, matchId);
            && k < |x| && i < |x[k]|
            && (k == 0 ==>
                  && 2 * i + 1 < |slots|
                  && x[k][i] == FirstRoundMatch(matchId(0, i), i, slots[2 * i], slots[2 * i + 1], bestOf))
            && (k > 0 ==> x[k][i] == LaterMatch(matchId(k, i), k, i, bestOf))
  {
    InitialRoundsShape(slots, e, bestOf, matchId);
    var x := InitialRounds(slots, e, bestOf, matchId);
    if k == 0 {
      assert x[0] == FirstRound(slots, bestOf, matchId);
    } else {
      assert x[k] == LaterRound(k, |slots|, bestOf, matchId);
    }
  }

  /** The rounds as first laid out already satisfy everything the
      invariant asks of a tree before the byes are carried forward. */
  lemma InitialReady(slots: seq<Option<Slot>>, e: nat, bestOf: int, matchId: (nat, nat) -> string)
    requires e >= 1 && |slots| == Pow2(e)
    requires bestOf >= 1 && bestOf % 2 == 1
    ensures ReadyToRebuild(InitialRounds(slots, e, bestOf, matchId), bestOf, 0)
  {
    InitialRoundsShape(slots, e, bestOf, matchId);
    var x: seq<seq<Match>> := InitialRounds(slots, e, bestOf, matchId);
    forall k, i | 0 <= k < |x| && 0 <= i < |x[k]|
      ensures && x[k][i].bestOf == bestOf && x[k][i].legsA == 0 && x[k][i].legsB == 0
              && WinnerValid(x[k][i])
              && (x[k][i].isBye <==> k == 0 && x[k][i].a.Some? != x[k][i].b.Some?)
              && (x[k][i].isBye ==> x[k][i].winnerId.Some?)
    {
      InitialMatch(slots, e, bestOf, matchId, k, i);
    }
  }

  /** The tournament `generateTournament` returns on valid input. */
  lemma Generated(players: seq<Player>, bestOf: int, draws: seq<int>,
                  id: string, createdAt: int, matchId: (nat, nat) -> string)
    requires ValidDraws(draws, |players|)
    requires |players| >= 2 && bestOf >= 1 && bestOf % 2 == 1
    ensures var e := CeilLog2(|players|);
            var x := InitialRounds(Draw(players, draws), e, bestOf, matchId);
            var size := NextPowerOfTwo(|players|);
            && e >= 1
            && ReadyToRebuild(x, bestOf, 0)
            && GenerateTournament(players, bestOf, draws, id, createdAt, matchId)
               == Success(Tournament(id, createdAt, bestOf, players, Rebuild(x, 0),
                                     Meta(size, size - |players|, RoundLabels(size, e))))
  {
    InitialReady(Draw(players, draws), CeilLog2(|players|), bestOf, matchId);
  }

  /** Every tournament `generateTournament` hands out satisfies the
      invariant the mutators preserve. */
  lemma GenerateEstablishesInv(players: seq<Player>, bestOf: int, draws: seq<int>,
                               id: string, createdAt: int, matchId: (nat, nat) -> string)
    requires ValidDraws(draws, |players|)
    ensures var r := GenerateTournament(players, bestOf, draws, id, createdAt, matchId);
            r.Success? ==> Inv(r.value)
  {
    var r := GenerateTournament(players, bestOf, draws, id, createdAt, matchId);
    if r.Success? {
      Generated(players, bestOf, draws, id, createdAt, matchId);
      var x := InitialRounds(Draw(players, draws), CeilLog2(|players|), bestOf, matchId);
      RebuildRestoresInv(r.value, x, 0);
    }
  }

  /** The generated tournament keeps the caller's data, its bracket has
      room for every player and is less than twice as large as needed,
      round 0 fills the bracket, and every round is labelled by the number
      of players it has room for. */
  lemma GenerateMeta(players: seq<Player>, bestOf: int, draws: seq<int>,
                     id: string, createdAt: int, matchId: (nat, nat) -> string)
    requires ValidDraws(draws, |players|)
    ensures var r := GenerateTournament(players, bestOf, draws, id, createdAt, matchId);
            r.Success? ==>
              var t := r.value;
              var n := |players|;
              var size := t.meta.bracketSize;
              && t.id == id && t.createdAt == createdAt && t.bestOf == bestOf && t.players == players
              && n <= size < 2 * n
              && t.meta.byes == size - n
              && size == 2 * |t.rounds[0]|
              && |t.meta.roundLabels| == |t.rounds|
              && forall k :: 0 <= k < |t.rounds| ==> t.meta.roundLabels[k] == RoundLabel(2 * |t.rounds[k]|)
  {
    var r := GenerateTournament(players, bestOf, draws, id, createdAt, matchId);
    if r.Success? {
      Generated(players, bestOf, draws, id, createdAt, matchId);
      var e := CeilLog2(|players|);
      var slots := Draw(players, draws);
      InitialRoundsShape(slots, e, bestOf, matchId);
      var x := InitialRounds(slots, e, bestOf, matchId);
      var t := r.value;
      assert SameFrame(x, t.rounds);
      LabelsFollowRounds(t.meta.bracketSize, e, t.rounds);
    }
  }

  /** In a bracket of `2^e` slots, the label of round `k` names twice its
      number of matches. */
  lemma LabelsFollowRounds(size: nat, e: nat, rounds: seq<seq<Match>>)
    requires size == Pow2(e) && |rounds| == e
    requires forall k :: 0 <= k < e ==> |rounds[k]| == Pow2(e - k - 1)
    ensures |RoundLabels(size, e)| == e
    ensures forall k :: 0 <= k < e ==> RoundLabels(size, e)[k] == RoundLabel(2 * |rounds[k]|)
  {
    forall k | 0 <= k < e
      ensures RoundLabels(size, e)[k] == RoundLabel(2 * |rounds[k]|)
    {
      Pow2Div(e, k);
      assert Pow2(e - k) == 2 * Pow2(e - k - 1);
    }
  }

  /** The generated bracket has `log2(bracketSize)` rounds, and round `k`
      has `bracketSize / 2^(k + 1)` matches. */
  lemma GeneratedRoundSizes(players: seq<Player>, bestOf: int, draws: seq<int>,
                            id: string, createdAt: int, matchId: (nat, nat) -> string)
    requires ValidDraws(draws, |players|)
    ensures var r := GenerateTournament(players, bestOf, draws, id, createdAt, matchId);
            r.Success? ==>
              var t := r.value;
              && t.meta.bracketSize == Pow2(|t.rounds|)
              && |t.rounds| == CeilLog2(|players|)
              && forall k :: 0 <= k < |t.rounds| ==> |t.rounds[k]| == t.meta.bracketSize / Pow2(k + 1)
  {
    var r := GenerateTournament(players, bestOf, draws, id, createdAt, matchId);
    if r.Success? {
      Generated(players, bestOf, draws, id, createdAt, matchId);
      var e := CeilLog2(|players|);
      var slots := Draw(players, draws);
      InitialRoundsShape(slots, e, bestOf, matchId);
      var x := InitialRounds(slots, e, bestOf, matchId);
      var t := r.value;
      assert SameFrame(x, t.rounds);
      RoundSizes(t.meta.bracketSize, e, t.rounds);
    }
  }

  /** In a bracket of `2^e` slots whose round `k` has `2^(e - k - 1)`
      matches, that is `2^e / 2^(k + 1)` matches. */
  lemma RoundSizes(size: nat, e: nat, rounds: seq<seq<Match>>)
    requires size == Pow2(e) && |rounds| == e
    requires forall k :: 0 <= k < e ==> |rounds[k]| == Pow2(e - k - 1)
    ensures forall k :: 0 <= k < e ==> |rounds[k]| == size / Pow2(k + 1)
  {
    forall k | 0 <= k < e
      ensures |rounds[k]| == size / Pow2(k + 1)
    {
      Pow2Div(e, k + 1);
    }
  }

  /** Round 0 of the generated tournament pairs the draw: the shuffled
      players in order, then the empty slots. */
  lemma GeneratedDraw(players: seq<Player>, bestOf: int, draws: seq<int>,
                      id: string, createdAt: int, matchId: (nat, nat) -> string)
    requires ValidDraws(draws, |players|)
    ensures var r := GenerateTournament(players, bestOf, draws, id, createdAt, matchId);
            r.Success? ==>
              && DrawOf(r.value.rounds[0]) == Slots(Shuffle(players, draws), r.value.meta.byes)
              && multiset(Shuffle(players, draws)) == multiset(players)
  {
    var r := GenerateTournament(players, bestOf, draws, id, createdAt, matchId);
    if r.Success? {
      Generated(players, bestOf, draws, id, createdAt, matchId);
      var e := CeilLog2(|players|);
      var slots := Draw(players, draws);
      InitialRoundsShape(slots, e, bestOf, matchId);
      var x := InitialRounds(slots, e, bestOf, matchId);
      RebuildKeepsValidPrefix(x, 0, 0);
      assert x[0] == FirstRound(slots, bestOf, matchId);
      FirstRoundReadBack(slots, bestOf, matchId);
    }
  }

  /** Where the byes land: the empty slots all come last, so round-0
      match `i` is a bye exactly when `2i + 1` is the number of players,
      and is empty on both sides exactly when `2i` is at least that
      number. */
  lemma ByesAsWritten(players: seq<Player>, bestOf: int, draws: seq<int>,
                      id: string, createdAt: int, matchId: (nat, nat) -> string)
    requires ValidDraws(draws, |players|)
    ensures var r := GenerateTournament(players, bestOf, draws, id, createdAt, matchId);
            r.Success? ==>
              var round := r.value.rounds[0];
              var n := |players|;
              forall i :: 0 <= i < |round| ==>
                && (round[i].isBye <==> 2 * i + 1 == n)
                && (round[i].a.None? && round[i].b.None? <==> 2 * i >= n)
  {
    var r := GenerateTournament(players, bestOf, draws, id, createdAt, matchId);
    if r.Success? {
      GeneratedDraw(players, bestOf, draws, id, createdAt, matchId);
      GenerateEstablishesInv(players, bestOf, draws, id, createdAt, matchId);
      var round := r.value.rounds[0];
      assert forall i :: 0 <= i < |round| ==> (round[i].isBye <==> round[i].a.Some? != round[i].b.Some?);
      ByesInDraw(round, Shuffle(players, draws), r.value.meta.byes);
    }
  }

  /** A round paired from players followed by empty slots has its only
      possible bye at the seam and its empty matches after it. */
  lemma ByesInDraw(round: seq<Match>, shuffled: seq<Player>, byes: nat)
    requires DrawOf(round) == Slots(shuffled, byes)
    requires forall i :: 0 <= i < |round| ==> (round[i].isBye <==> round[i].a.Some? != round[i].b.Some?)
    ensures forall i :: 0 <= i < |round| ==>
              && (round[i].isBye <==> 2 * i + 1 == |shuffled|)
              && (round[i].a.None? && round[i].b.None? <==> 2 * i >= |shuffled|)
  {
    var d := DrawOf(round);
    forall i | 0 <= i < |round|
      ensures && (round[i].isBye <==> 2 * i + 1 == |shuffled|)
              && (round[i].a.None? && round[i].b.None? <==> 2 * i >= |shuffled|)
    {
      assert round[i].a == d[2 * i] && round[i].b == d[2 * i + 1];
    }
  }

  /** The rounds as first laid out have no score and no winner but the
      byes', so resetting them changes nothing. */
  lemma InitialIsReset(slots: seq<Option<Slot>>, e: nat, bestOf: int, matchId: (nat, nat) -> string)
    requires e >= 1 && |slots| == Pow2(e)
    ensures ResetMatches(InitialRounds(slots, e, bestOf, matchId)) == InitialRounds(slots, e, bestOf, matchId)
  {
    InitialRoundsShape(slots, e, bestOf, matchId);
    var x: seq<seq<Match>> := InitialRounds(slots, e, bestOf, matchId);
    var y := ResetMatches(x);
    forall k, i | 0 <= k < |x| && 0 <= i < |x[k]| ensures y[k][i] == x[k][i] {
      InitialMatch(slots, e, bestOf, matchId, k, i);
    }
    assert forall k :: 0 <= k < |x| ==> y[k] == x[k];
  }

  /** A freshly generated tournament is its own reset: only the byes have
      advanced, and that is exactly what a reset keeps. */
  lemma GeneratedIsReset(players: seq<Player>, bestOf: int, draws: seq<int>,
                         id: string, createdAt: int, matchId: (nat, nat) -> string)
    requires ValidDraws(draws, |players|)
    ensures var r := GenerateTournament(players, bestOf, draws, id, createdAt, matchId);
            r.Success? ==> Wired(r.value.rounds) && ResetTournamentWinners(r.value) == r.value
  {
    var r := GenerateTournament(players, bestOf, draws, id, createdAt, matchId);
    if r.Success? {
      Generated(players, bestOf, draws, id, createdAt, matchId);
      GenerateEstablishesInv(players, bestOf, draws, id, createdAt, matchId);
      var e := CeilLog2(|players|);
      var slots := Draw(players, draws);
      var x := InitialRounds(slots, e, bestOf, matchId);
      var t := r.value;
      var t0 := t.(rounds := x);
      InitialIsReset(slots, e, bestOf, matchId);
      RebuildKeepsSkeleton(x, 0);
      SameSkeletonSameReset(t0, t);
    }
  }
}
