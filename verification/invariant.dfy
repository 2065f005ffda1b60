/** The well-formedness every tournament handed out by the builder enjoys,
    and the proof that the recomputation at the end of every mutator keeps
    it (src/lib/tournament.ts:156-232 establish it, 234-316 preserve it). */
module BracketInvariant {
  import opened Wrappers
  import opened Types
  import opened Helpers
  import opened Propagation
  import opened PropagationFacts
  import opened RebuildFacts

  /** Every match plays the tournament's odd best-of and has both scores
      within `[0, bestOf]`. */
  predicate ScoresInRange(rounds: seq<seq<Match>>, bestOf: int) {
    && bestOf >= 1 && bestOf % 2 == 1
    && forall k, i :: 0 <= k < |rounds| && 0 <= i < |rounds[k]| ==>
         var m := rounds[k][i];
         m.bestOf == bestOf && 0 <= m.legsA <= bestOf && 0 <= m.legsB <= bestOf
  }

  /** A match is a bye exactly when it is in round 0 with one side
      occupied, and a bye always carries its winner. */
  predicate ByeRule(rounds: seq<seq<Match>>) {
    forall k, i :: 0 <= k < |rounds| && 0 <= i < |rounds[k]| ==>
      var m := rounds[k][i];
      && (m.isBye <==> k == 0 && m.a.Some? != m.b.Some?)
      && (m.isBye ==> m.winnerId.Some?)
  }

  /** Every round after the first is exactly what its predecessor feeds it. */
  predicate AllFed(rounds: seq<seq<Match>>) {
    forall k :: 0 <= k < |rounds| - 1 ==> RoundFed(rounds, k)
  }

  predicate Inv(t: Tournament) {
    && BracketShape(t.rounds)
    && ScoresInRange(t.rounds, t.bestOf)
    && AllWinnersValid(t.rounds)
    && ByeRule(t.rounds)
    && AllFed(t.rounds)
  }

  /** What a tree must satisfy before a rebuild from round `s` for the
      result to satisfy the invariant: everything but the feeding of the
      rounds the rebuild recomputes. */
  predicate ReadyToRebuild(x: seq<seq<Match>>, bestOf: int, s: nat) {
    && BracketShape(x)
    && ScoresInRange(x, bestOf)
    && AllWinnersValid(x)
    && ByeRule(x)
    && forall k :: 0 <= k < s && k < |x| - 1 ==> RoundFed(x, k)
  }

  lemma RebuildKeepsScores(x: seq<seq<Match>>, s: nat, bestOf: int)
    requires Wired(x)
    requires ScoresInRange(x, bestOf)
    ensures ScoresInRange(Rebuild(x, s), bestOf)
  {
    var r: seq<seq<Match>> := Rebuild(x, s);
    forall k, i | 0 <= k < |r| && 0 <= i < |r[k]|
      ensures r[k][i].bestOf == bestOf && 0 <= r[k][i].legsA <= bestOf && 0 <= r[k][i].legsB <= bestOf
    {
      assert Frame(r[k][i]) == Frame(x[k][i]);
    }
  }

  lemma RebuildKeepsValid(x: seq<seq<Match>>, s: nat)
    requires Wired(x)
    requires AllWinnersValid(x)
    ensures AllWinnersValid(Rebuild(x, s))
  {
    if s + 1 < |x| {
      RebuildValidates(x, s);
    } else {
      RebuildAtFinal(x, s);
    }
  }

  lemma RebuildKeepsByeRule(x: seq<seq<Match>>, s: nat)
    requires BracketShape(x)
    requires AllWinnersValid(x)
    requires ByeRule(x)
    ensures Wired(x)
    ensures ByeRule(Rebuild(x, s))
  {
    var r: seq<seq<Match>> := Rebuild(x, s);
    RebuildKeepsValidPrefix(x, s, 0);
    forall k, i | 0 <= k < |r| && 0 <= i < |r[k]|
      ensures r[k][i].isBye == x[k][i].isBye
    {
      assert Frame(r[k][i]) == Frame(x[k][i]);
    }
  }

  /** Two rounds of the same length whose matches have the same sides. */
  predicate SameSides(u: seq<Match>, v: seq<Match>) {
    |u| == |v| && forall j :: 0 <= j < |u| ==> u[j].a == v[j].a && u[j].b == v[j].b
  }

  /** Round `k` feeds round `k + 1` in `q` as it does in `p` when round `k`
      is the same and round `k + 1` has the same sides. */
  lemma RoundFedTransfer(p: seq<seq<Match>>, q: seq<seq<Match>>, k: nat)
    requires RoundFed(p, k)
    requires k + 1 < |q| && q[k] == p[k] && SameSides(q[k + 1], p[k + 1])
    ensures RoundFed(q, k)
  {
  }

  lemma RebuildKeepsFed(x: seq<seq<Match>>, s: nat)
    requires BracketShape(x)
    requires AllWinnersValid(x)
    requires forall k :: 0 <= k < s && k < |x| - 1 ==> RoundFed(x, k)
    ensures Wired(x)
    ensures AllFed(Rebuild(x, s))
  {
    var r: seq<seq<Match>> := Rebuild(x, s);
    RebuildFeeds(x, s);
    forall k | 0 <= k < |r| - 1 && k < s
      ensures RoundFed(r, k)
    {
      RebuildKeepsValidPrefix(x, s, k);
      RebuildKeepsValidPrefix(x, s, k + 1);
      RoundFedTransfer(x, r, k);
    }
  }

  /** A rebuild from round `s` turns a tree that is well-formed up to the
      rounds it recomputes into one satisfying the invariant. */
  lemma RebuildRestoresInv(t: Tournament, x: seq<seq<Match>>, s: nat)
    requires ReadyToRebuild(x, t.bestOf, s)
    ensures Wired(x)
    ensures Inv(t.(rounds := Rebuild(x, s)))
  {
    var r: seq<seq<Match>> := Rebuild(x, s);
    SameFrameKeepsWiring(x, r);
    RebuildKeepsScores(x, s, t.bestOf);
    RebuildKeepsValid(x, s);
    RebuildKeepsByeRule(x, s);
    RebuildKeepsFed(x, s);
  }
}
