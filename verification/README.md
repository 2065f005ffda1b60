# Knockout bracket engine — a Dafny model

This project models the single-elimination bracket engine of a darts
tournament app (`src/lib/tournament.ts`). That engine does three things:

- It builds a bracket from a shuffled player list, padded with empty slots up to a power of two.
- It propagates winners from round to round.
- It recomputes the bracket after every leg-score edit, quick win or reset.

Every operation of the engine becomes a pure Dafny function. A tournament is
an immutable value, and its rounds are a `seq<seq<Match>>`: round 0 first, the
final last.

## Modules

| file | module | what it holds |
|---|---|---|
| `wrappers.dfy` | `Wrappers` | `Option` and `Result` |
| `types.dfy` | `Types` | `Match`, `Slot`, `Player`, `Meta`, `Tournament`; the shape and wiring predicates |
| `helpers.dfy` | `Helpers` | `nextPowerOfTwo`, `legsToWin`, `clampInt`, `roundLabel`, `nextLegStarter` |
| `propagation.dfy` | `Propagation` | `winnerSlot`, `clearParticipantsFromRound`, `validateWinners`, `propagateWinnersForward`, and `Rebuild` (clear, then propagate) |
| `propagation.dfy` | `PropagationFacts` | a round-by-round characterisation of what a propagation pass leaves behind |
| `rebuild.dfy` | `RebuildFacts` | what a rebuild guarantees: every round is re-fed, later winners are wiped, the rebuild is idempotent |
| `scoring.dfy` | `Scoring` | `recomputeWinnerFromLegs`, `updateLegs`, `incrementLeg`, `quickSetWinner`, `resetTournamentWinners` |
| `invariant.dfy` | `BracketInvariant` | the tournament invariant `Inv`, and the proof that a rebuild restores it |
| `scoring_facts.dfy` | `ScoringFacts` | what each mutator does to the bracket |
| `reset_facts.dfy` | `ResetFacts` | a reset forgets all play and is idempotent |
| `builder.dfy` | `Builder` | `shuffle`, the draw and `generateTournament` |
| `builder_facts.dfy` | `BuilderFacts` | the shape, metadata and byes of a generated bracket |
| `starvation.dfy` | `Starvation` | empty round-0 matches starve every match above them |
| `play.dfy` | `Playing` | arbitrary sequences of mutator calls, and the final that can never be decided |

The side effects of the source become parameters:

- The random draws of `shuffle` are a sequence `draws`, with `draws[i]` in `[0, i]` (Fisher–Yates).
- `crypto.randomUUID` becomes the tournament id and a match-id function `matchId(round, index)`.
- `Date.now` becomes `createdAt`.

`structuredClone` is not modelled: every value in the model is immutable, so
copies are implicit.

The source writes `next[floor(matchIndex / 2)]` for every match that hands
on a winner, without checking that the target exists; when it does not,
JavaScript throws a `TypeError`. The model asks instead for the precondition
`Wired(rounds)`: every match below the final, winner or not, has a
non-negative index whose half lies inside the next round. That is more than
the source needs, but every generated tournament meets it and every mutator
keeps it.

### Behaviour worth knowing

- **Round labels are German.** `roundLabel` returns "Finale",
  "Halbfinale", "Viertelfinale", "Achtelfinale", "Sechzehntelfinale" and
  otherwise "Runde mit N"; `Helpers.RoundLabel` returns the same strings.
- **A winner decided by legs is not an invariant of the tree.** A non-bye
  match with both sides filled has a winner exactly when its legs decide
  it only for the match just edited (`ScoringFacts.UpdateLegsScores`).
  - A rebuild from round `s` validates the whole tree after each round,
    while rounds `s + 2` and later are still empty. So every winner there
    is wiped, whatever its legs say (`ScoringFacts.UpdateLegsWipesLater`).
  - Round `s + 1` keeps a stale winner whenever that player still occupies
    a side, even if the other side changed (`ScoringFacts.UpdateLegsNextRound`).
  - The invariant that does hold, and is proved, is `BracketInvariant.Inv`:
    - layout as built;
    - scores in `[0, bestOf]`;
    - every winner names an occupant;
    - byes exactly in round 0 with one side, each carrying its winner;
    - every round fed by the one before.
- **Byes all land at the end of the draw.** With two or more byes, the last
  round-0 match has both sides empty. It is not a bye and never gets a winner.
  It starves the matches above it, up to the final. So for every generated
  tournament with two or more byes, no sequence of `updateLegs`,
  `incrementLeg`, `quickSetWinner` and `resetTournamentWinners` calls ever
  decides the final (`Playing.FinalNeverDecided` together with
  `Playing.GeneratedUnfinishable`). This is how the code behaves as written,
  and it is kept.

## Model

| member | source | states |
|---|---|---|
| `Helpers.NextPowerOfTwo` | src/lib/tournament.ts:53-57 | the result is a power of two, at least `n`, and half of it is below `n` (or it is 1) |
| `Helpers.NextPowerOfTwoIsLeast` | src/lib/tournament.ts:53-57 | no power of two that is at least `n` is smaller than `nextPowerOfTwo(n)` |
| `Helpers.LegsToWin` | src/lib/tournament.ts:77-79 | the target is the least leg count greater than half of `bestOf` |
| `Helpers.LegsToWinReachable` | src/lib/tournament.ts:77-79 | for an odd `bestOf >= 1` the target lies in `[1, bestOf]` and is exactly `(bestOf + 1) / 2` |
| `Helpers.ClampInt` | src/lib/tournament.ts:127-130 | a non-negative count is kept; a negative one becomes 0 |
| `Helpers.ClampLegs` | src/lib/tournament.ts:249-254 | a stored leg count lies in `[0, bestOf]`, equals the input when that is already in range, and is 0 or `bestOf` at the edges |
| `Helpers.JsRem` | src/lib/tournament.ts:323 | JavaScript's truncating remainder: the sign follows the dividend, and it agrees with Euclidean `%` on non-negative values |
| `Helpers.NextLegStarter` | src/lib/tournament.ts:318-326 | with `played` legs, the starter is `startPlayer` (default `a`) when `played` is even and the other side when it is odd |
| `Helpers.StarterAlternates` | src/lib/tournament.ts:318-326 | every leg played, on either side, hands the first throw to the other side |
| `Helpers.NatToStringRoundTrip` | src/lib/tournament.ts:74 | reading back the printed decimal digits of `n` gives `n` |
| `Helpers.RoundLabel` | src/lib/tournament.ts:68-75 | every label names the size it was made for: the size can be read back from the label |
| `Helpers.RoundLabelInjective` | src/lib/tournament.ts:68-75 | different sizes get different labels |
| `Propagation.WinnerSlot` | src/lib/tournament.ts:81-86 | a slot is returned exactly when the recorded winner occupies a side; it is that winner's side, `a` first |
| `Propagation.ClearParticipantsFromRound` | src/lib/tournament.ts:88-95 | every match from round `start` on loses both sides; the earlier rounds and every other field are kept |
| `Propagation.ValidateMatch` | src/lib/tournament.ts:97-107 | the result's winner is valid; a winner naming no occupant is dropped; the match is unchanged exactly when its winner was already valid |
| `Propagation.ValidateWinners` | src/lib/tournament.ts:97-107 | after validation every winner in the tree names an occupant; only winners change |
| `Propagation.ValidateKeepsWinnerSlot` | src/lib/tournament.ts:97-107 | validation never changes the slot a match hands on, and validating twice is validating once |
| `Propagation.Place` | src/lib/tournament.ts:114-120 | the winner's slot lands in match `matchIndex / 2`, on side `a` for an even index and side `b` for an odd one; nothing else changes |
| `Propagation.PropagateWinnersForward` | src/lib/tournament.ts:109-125 | propagation keeps the layout, every score and every bye flag; it only writes sides and winners |
| `Propagation.Rebuild` | src/lib/tournament.ts:260-261 | clearing and propagating keeps the layout and the wiring of the tree |
| `PropagationFacts.PropagateRoundFacts` | src/lib/tournament.ts:109-125 | one outer iteration validates every round except the one it writes into, and never sets a winner |
| `PropagationFacts.PropagateKeepsEarlySides` | src/lib/tournament.ts:109-125 | propagation from round `s` never writes the sides of rounds `0..s` |
| `PropagationFacts.PropagateOnlyClearsWinners` | src/lib/tournament.ts:109-125 | propagation never records a winner; each winner is kept or removed |
| `PropagationFacts.PropagateValidates` | src/lib/tournament.ts:109-125 | once at least one round has been processed, every remaining winner names an occupant |
| `RebuildFacts.RebuildFeeds` | src/lib/tournament.ts:109-125 | after a rebuild from round `s`, every round after `s` holds exactly the slots of the winners of the round before it, side `a` from the even feeder and side `b` from the odd one |
| `RebuildFacts.RebuildWipes` | src/lib/tournament.ts:123 | after a rebuild from round `s`, no match of round `s + 2` or later has a winner |
| `RebuildFacts.RebuildNextRound` | src/lib/tournament.ts:109-125 | in round `s + 1` a winner survives the rebuild exactly when that player still occupies a side |
| `RebuildFacts.RebuildLower` | src/lib/tournament.ts:109-125 | rounds `0..s` are only validated |
| `RebuildFacts.RebuildAtFinal` | src/lib/tournament.ts:88-95 | with no round after `s` the rebuild changes nothing |
| `RebuildFacts.RebuildKeepsEarlySides` | src/lib/tournament.ts:260-261 | a rebuild from round `s` keeps the sides of rounds `0..s` |
| `RebuildFacts.RebuildOnlyClearsWinners` | src/lib/tournament.ts:260-261 | a rebuild never records a winner |
| `RebuildFacts.RebuildValidates` | src/lib/tournament.ts:109-125 | after a rebuild that had a round to propagate, every winner names an occupant |
| `RebuildFacts.RebuildKeepsValidPrefix` | src/lib/tournament.ts:260-261 | when every winner was valid, rounds `0..s` come out of the rebuild unchanged |
| `RebuildFacts.RebuildIdempotent` | src/lib/tournament.ts:260-261 | rebuilding twice from the same round gives what rebuilding once gave |
| `Scoring.RecomputeWinnerFromLegs` | src/lib/tournament.ts:132-154 | a settled bye is untouched; otherwise there is a winner exactly when both sides are filled and one side has reached the target strictly ahead, and it is that side's player |
| `Scoring.DecidesExclusive` | src/lib/tournament.ts:144-151 | at most one side can decide a match |
| `Scoring.RecomputeKeepsValid` | src/lib/tournament.ts:132-154 | a recomputed winner always names an occupant |
| `Scoring.RecomputeIdempotent` | src/lib/tournament.ts:132-154 | recomputing a second time changes nothing |
| `Scoring.ScoreMatch` | src/lib/tournament.ts:249-257 | the edited match stores both scores clamped into `[0, bestOf]`; only the scores and the winner change |
| `Scoring.ScoreMatchWinner` | src/lib/tournament.ts:249-257 | after scoring, a settled bye keeps its winner; any other match is won exactly when the clamped legs decide it and both sides are filled |
| `Scoring.ScoreMatchIdempotent` | src/lib/tournament.ts:249-257 | entering the same score twice into a match is entering it once |
| `Scoring.QuickScoreDecides` | src/lib/tournament.ts:288-296 | the legs `quickSetWinner` asks for survive the clamp and make the chosen side the winner |
| `Scoring.MatchAt` | src/lib/tournament.ts:243-244 | a match is found exactly when both indices are in range, and it is the one at those indices |
| `Scoring.SetMatch` | src/lib/tournament.ts:243-257 | one match is replaced and every other match and every round length is kept |
| `Scoring.UpdateLegs` | src/lib/tournament.ts:234-264 | a missing match returns the tournament unchanged; everything except the rounds is kept |
| `Scoring.IncrementLeg` | src/lib/tournament.ts:266-280 | a missing match returns the tournament unchanged; everything except the rounds is kept |
| `Scoring.QuickSetWinner` | src/lib/tournament.ts:282-297 | the tournament is returned unchanged unless the match exists with both sides filled |
| `Scoring.ResetMatch` | src/lib/tournament.ts:305-310 | both scores are zero; the winner is dropped unless the match is a bye that already had one |
| `Scoring.ResetMatches` | src/lib/tournament.ts:303-312 | every match of the tree is reset, in place |
| `Scoring.ResetTournamentWinners` | src/lib/tournament.ts:299-316 | a reset keeps everything except the rounds, and the wiring of the rounds |
| `BracketInvariant.RebuildRestoresInv` | src/lib/tournament.ts:260-261 | a rebuild from round `s` turns a tree that is well formed up to round `s` into one that satisfies the whole invariant |
| `BracketInvariant.RebuildKeepsByeRule` | src/lib/tournament.ts:228-229 | a rebuild keeps byes exactly in round 0, each with its winner |
| `ScoringFacts.UpdateLegsKeepsInv` | src/lib/tournament.ts:234-264 | `updateLegs` keeps the invariant |
| `ScoringFacts.IncrementLegKeepsInv` | src/lib/tournament.ts:266-280 | `incrementLeg` keeps the invariant |
| `ScoringFacts.QuickSetWinnerKeepsInv` | src/lib/tournament.ts:282-297 | `quickSetWinner` keeps the invariant |
| `ScoringFacts.UpdateLegsUpToRound` | src/lib/tournament.ts:241-261 | in the addressed round and every round before it, only the addressed match changes, and it takes the scored value |
| `ScoringFacts.UpdateLegsScores` | src/lib/tournament.ts:249-257 | the addressed match stores both scores clamped into `[0, bestOf]` and keeps its sides; a bye keeps its winner; any other match is won exactly when both sides are filled and one side decides it, by that side's player |
| `ScoringFacts.UpdateLegsNextRound` | src/lib/tournament.ts:260-261 | the next round is re-fed from the edited round; it keeps a winner exactly when that player still occupies a side |
| `ScoringFacts.UpdateLegsWipesLater` | src/lib/tournament.ts:260-261 | every match two or more rounds after the edited one ends without a winner |
| `ScoringFacts.UpdateLegsIdempotent` | src/lib/tournament.ts:234-264 | entering the same score twice is entering it once |
| `ScoringFacts.QuickSetWinnerDecides` | src/lib/tournament.ts:288-296 | the chosen side gets exactly the legs it needs, the loser is capped one short, and the chosen player wins |
| `ScoringFacts.IncrementLegMoves` | src/lib/tournament.ts:273-279 | the chosen side's score moves by one within `[0, bestOf]` (so −1 at zero stays zero); the other side is kept |
| `ResetFacts.ResetForgetsScore` | src/lib/tournament.ts:305-310 | resetting a match forgets any score entered into it |
| `ResetFacts.ResetMatchesIdempotent` | src/lib/tournament.ts:303-312 | resetting every match twice is resetting them once |
| `ResetFacts.ResetForgetsPlay` | src/lib/tournament.ts:299-316 | resetting after `updateLegs` gives the same tournament as resetting before it |
| `ResetFacts.ResetKeepsInv` | src/lib/tournament.ts:299-316 | a reset keeps the invariant |
| `ResetFacts.ResetClearsPlay` | src/lib/tournament.ts:299-316 | after a reset every score is zero and only byes have a winner |
| `ResetFacts.ResetIdempotent` | src/lib/tournament.ts:299-316 | resetting twice is resetting once |
| `Builder.Shuffle` | src/lib/tournament.ts:59-66 | the shuffle is a permutation of the players |
| `Builder.ShuffleStay` | src/lib/tournament.ts:59-66 | draws that always pick the current index leave the order alone |
| `Builder.Draw` | src/lib/tournament.ts:165-169 | the draw has exactly `nextPowerOfTwo(n)` slots |
| `Builder.FirstRoundMatch` | src/lib/tournament.ts:174-193 | a round-0 match holds its two slots, is a bye exactly when one of them is occupied, has a winner exactly when it is a bye, and that winner is the occupied side's player; scores start at zero |
| `Builder.InitialRoundsShape` | src/lib/tournament.ts:171-210 | there are `log2(bracketSize)` rounds, round `r` has `bracketSize / 2^(r+1)` matches, and each match knows its round and index |
| `Builder.GenerateTournament` | src/lib/tournament.ts:156-232 | generation fails exactly for fewer than 2 players, or for a best-of below 1 or even, each with its own message |
| `BuilderFacts.FirstRoundReadBack` | src/lib/tournament.ts:173-194 | round-0 match `i` holds slots `2i` and `2i + 1`, so the pairs read back as the draw |
| `BuilderFacts.DrawSlot` | src/lib/tournament.ts:165-169 | slot `j` holds the `j`-th shuffled player when `j < n` and is empty otherwise |
| `BuilderFacts.GenerateEstablishesInv` | src/lib/tournament.ts:156-232 | every generated tournament satisfies the invariant |
| `BuilderFacts.GenerateMeta` | src/lib/tournament.ts:161-225 | the caller's data is kept; `n <= bracketSize < 2n`; `byes = bracketSize - n`; round 0 fills the bracket; every round is labelled by the number of players it has room for |
| `BuilderFacts.GeneratedRoundSizes` | src/lib/tournament.ts:171-210 | a generated bracket has `log2(bracketSize)` rounds (the bracket size is `2^rounds`), and round `k` has `bracketSize / 2^(k + 1)` matches |
| `BuilderFacts.GeneratedDraw` | src/lib/tournament.ts:161-194 | round 0 pairs the shuffled players in order, followed by the empty slots, and the shuffle is a permutation of the players |
| `BuilderFacts.ByesAsWritten` | src/lib/tournament.ts:165-194 | round-0 match `i` is a bye exactly when `2i + 1 = n`, and has both sides empty exactly when `2i >= n` |
| `BuilderFacts.GeneratedIsReset` | src/lib/tournament.ts:173-232 | a fresh tournament is its own reset: only the byes have advanced |
| `Playing.ApplyForgotten` | src/lib/tournament.ts:234-316 | resetting after any one mutator call gives what resetting before it gives |
| `Playing.IncrementForgotten` | src/lib/tournament.ts:266-280 | resetting after `incrementLeg` gives what resetting before it gives |
| `Playing.QuickWinForgotten` | src/lib/tournament.ts:282-297 | resetting after `quickSetWinner` gives what resetting before it gives |
| `Playing.PlayForgotten` | src/lib/tournament.ts:299-316 | resetting after any sequence of mutator calls gives what resetting before it gives |
| `Playing.GeneratedResetAfterPlay` | src/lib/tournament.ts:156-316 | after any play, a reset returns the freshly generated tournament |
| `Starvation.StarvedNotReady` | src/lib/tournament.ts:137-141 | a starved match never has both sides filled and is never a bye |
| `Starvation.UpdateLegsKeepsSilent` | src/lib/tournament.ts:234-264 | `updateLegs` keeps the sides of round 0 and leaves every starved match without a winner |
| `Starvation.ResetSilences` | src/lib/tournament.ts:299-316 | after a reset no starved match has a winner, whatever the tree held before |
| `Playing.Apply` | src/lib/tournament.ts:234-316 | every public mutator keeps the invariant and everything outside the rounds |
| `Playing.Play` | src/lib/tournament.ts:234-316 | any sequence of mutator calls keeps the invariant and everything outside the rounds |
| `Playing.PlayKeepsSilent` | src/lib/tournament.ts:234-316 | any sequence of mutator calls keeps round 0's sides and leaves starved matches without a winner |
| `Playing.FinalNeverDecided` | src/lib/tournament.ts:165-179 | from a tournament whose last round-0 match is empty, no sequence of mutator calls gives the final a winner |
| `Playing.GeneratedStarvation` | src/lib/tournament.ts:165-179 | a generated tournament leaves starved matches without a winner, and its last round-0 match is empty exactly when there are two or more byes |
| `Playing.GeneratedUnfinishable` | src/lib/tournament.ts:165-179 | every generated tournament with two or more byes is one whose final can never be decided |

## Left out

- `nextPowerOfTwo`'s `p <<= 1` is a 32-bit shift that overflows once `n` exceeds 2^30. The model uses unbounded integers, because no realistic player list comes near that size.
- `clampInt` on `NaN`, infinities and fractions (`Number.isFinite`, `Math.floor`): legs are modelled as `int`, so only the "negative becomes 0" and "cap at `bestOf`" behaviour remains. For the same reason a non-integer `bestOf` is not modelled.
- `Math.random` in `shuffle`: the random draws are a parameter, constrained to the range the source draws from.
- `crypto.randomUUID` and `Date.now`: ids and `createdAt` are caller-supplied values.
- `structuredClone`: every value in the model is immutable, so a copy is the value itself.
- The `TypeError` the source throws when a propagation target is missing: modelled as the precondition `Wired`, which every generated tournament satisfies and every mutator keeps.
- `Scoring.UpdateLegs`, `Scoring.IncrementLeg`, `Scoring.QuickSetWinner`, `Scoring.ResetTournamentWinners`: each requires `Wired(rounds)`, which asks more than the source needs. The source only throws when a match that hands on a winner has a negative index or one whose half lies outside the next round. `Wired` also constrains matches without a winner. Every generated tournament meets it and every mutator keeps it.
- Player ids are non-empty strings (`Types.PlayerId`), because the app creates them with `uuid()`. The model therefore tests whether an id is present where the source tests its truthiness. An empty id, which the source would treat as absent, is not modelled.
- `Scoring.IncrementLeg`: `delta` is restricted to 1 or -1, as the source's type `1 | -1` restricts it.
- `Playing.FinalNeverDecided`: covers the four public mutators only. Any other direct edit of the rounds, such as UI code writing fields itself, is outside the model.
- The UI components (bracket SVG layout, scoreboard, player and configuration forms) and the page's `localStorage`/JSON persistence: presentation and I/O, with no bracket logic.
