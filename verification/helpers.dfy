/** Small arithmetic helpers of the bracket engine
    (src/lib/tournament.ts:53-79, 127-130, 318-326). */
module Helpers {
  import opened Wrappers
  import opened Types

  function Pow2(e: nat): (r: nat)
    ensures r >= 1
  {
    if e == 0 then 1 else 2 * Pow2(e - 1)
  }

  lemma {:induction false} Pow2Monotone(e: nat, f: nat)
    requires e <= f
    ensures Pow2(e) <= Pow2(f)
    decreases f
  {
    if e < f {
      Pow2Monotone(e, f - 1);
    }
  }

  lemma {:induction false} Pow2Split(e: nat, j: nat)
    requires j <= e
    ensures Pow2(e) == Pow2(e - j) * Pow2(j)
    decreases j
  {
    if j > 0 {
      Pow2Split(e - 1, j - 1);
    }
  }

  lemma DivExact(q: int, d: int)
    requires d > 0
    ensures (q * d) / d == q
  {
    var x := q * d;
    var r := x / d;
    var k := q - r;
    assert d * k == x - d * r;
    if k >= 1 {
      assert false;
    } else if k <= -1 {
      assert false;
    }
  }

  /** Dividing `2^e` by `2^j` is exact. */
  lemma Pow2Div(e: nat, j: nat)
    requires j <= e
    ensures Pow2(e) / Pow2(j) == Pow2(e - j)
  {
    Pow2Split(e, j);
    DivExact(Pow2(e - j), Pow2(j));
  }

  /** The number of doublings the source's `while (p < n) p <<= 1` performs
      once `p` already stands at `2^e`. */
  function Doublings(e: nat, n: int): (f: nat)
    ensures f >= e && n <= Pow2(f)
    ensures f == e || Pow2(f - 1) < n
    decreases n - Pow2(e)
  {
    if Pow2(e) < n then Doublings(e + 1, n) else e
  }

  /** The exponent of the bracket size: the least `e` with `n <= 2^e`. */
  function CeilLog2(n: int): (e: nat)
    ensures n <= Pow2(e)
    ensures e == 0 || Pow2(e - 1) < n
  {
    Doublings(0, n)
  }

  /** `nextPowerOfTwo`: the least power of two that is at least `n`
      (1 when `n <= 1`). */
  function NextPowerOfTwo(n: int): (p: nat)
    ensures p == Pow2(CeilLog2(n))
    ensures n <= p
    ensures p == 1 || p / 2 < n
  {
    Pow2(CeilLog2(n))
  }

  /** No power of two at least `n` is smaller than `NextPowerOfTwo(n)`. */
  lemma NextPowerOfTwoIsLeast(n: int, f: nat)
    requires n <= Pow2(f)
    ensures NextPowerOfTwo(n) <= Pow2(f)
  {
    var e := CeilLog2(n);
    if f < e {
      Pow2Monotone(f, e - 1);
      assert false;
    }
    Pow2Monotone(e, f);
  }

  /** `legsToWin`: the least number of legs that is more than half of
      `bestOf`. Dafny's `/` by 2 rounds toward minus infinity, like
      `Math.floor`, for every integer. */
  function LegsToWin(bestOf: int): (target: int)
    ensures 2 * target > bestOf
    ensures 2 * (target - 1) <= bestOf
  {
    bestOf / 2 + 1
  }

  /** Every valid best-of value has a reachable target. */
  lemma LegsToWinReachable(bestOf: int)
    requires bestOf >= 1 && bestOf % 2 == 1
    ensures 1 <= LegsToWin(bestOf) <= bestOf
    ensures 2 * LegsToWin(bestOf) == bestOf + 1
  {
  }

  /** `clampInt` on integer inputs: negative counts become 0. */
  function ClampInt(n: int): (r: nat)
    ensures n >= 0 ==> r == n
    ensures n < 0 ==> r == 0
  {
    if n < 0 then 0 else n
  }

  /** A leg count as `updateLegs` stores it: clamped below by 0, then
      capped at the match's `bestOf`. */
  function ClampLegs(n: int, bestOf: int): (r: int)
    ensures bestOf >= 0 ==> 0 <= r <= bestOf
    ensures 0 <= n <= bestOf ==> r == n
    ensures bestOf >= 0 && n < 0 ==> r == 0
    ensures n > bestOf ==> r == bestOf
  {
    var c := ClampInt(n);
    if c < bestOf then c else bestOf
  }

  function Other(s: Side): Side {
    if s == A then B else A
  }

  /** The remainder of JavaScript's `%`, which truncates toward zero. */
  function JsRem(x: int, d: int): (r: int)
    requires d > 0
    ensures x >= 0 ==> 0 <= r < d
    ensures x <= 0 ==> -d < r <= 0
    ensures x >= 0 ==> r == x % d
    ensures x <= 0 ==> r == -((-x) % d)
  {
    if x >= 0 then x % d else -((-x) % d)
  }

  /** `nextLegStarter`: who throws first in the next leg. */
  function NextLegStarter(m: Match): (s: Side)
    ensures var start := if m.startPlayer.Some? then m.startPlayer.value else A;
            var played := m.legsA + m.legsB;
            && (played >= 0 ==> (s == start <==> played % 2 == 0))
            && (played < 0 ==> s == Other(start))
  {
    var start := if m.startPlayer.Some? then m.startPlayer.value else A;
    var played := m.legsA + m.legsB;
    if JsRem(played + 1, 2) == 1 then start else Other(start)
  }

  /** Every leg played hands the throw to the other side. */
  lemma StarterAlternates(m: Match, side: Side)
    requires m.legsA >= 0 && m.legsB >= 0
    ensures var m' := if side == A then m.(legsA := m.legsA + 1) else m.(legsB := m.legsB + 1);
            NextLegStarter(m') == Other(NextLegStarter(m))
  {
  }

  /** Decimal digits of `n`, as a JavaScript template literal prints a
      non-negative integer. */
  function NatToString(n: nat): (s: string)
    ensures |s| >= 1
    ensures forall i :: 0 <= i < |s| ==> '0' <= s[i] <= '9'
    decreases n
  {
    var d := ['0' + (n % 10) as char];
    if n < 10 then d else NatToString(n / 10) + d
  }

  /** `roundLabel`: the label of a round in which `size` players remain.
      Every label names the size it was made for: the size can be read
      back from it. */
  function RoundLabel(size: int): (name: string)
    ensures LabelSize(name) == size
  {
    if size == 2 then "Finale"
    else if size == 4 then "Halbfinale"
    else if size == 8 then "Viertelfinale"
    else if size == 16 then "Achtelfinale"
    else if size == 32 then "Sechzehntelfinale"
    else
      NumberedRoundTrip(size);
      Numbered(size)
  }

  /** The number a string of decimal digits denotes. */
  function DigitsValue(s: string): int {
    if |s| == 0 then 0 else 10 * DigitsValue(s[..|s| - 1]) + (s[|s| - 1] as int - '0' as int)
  }

  /** Reading the printed digits back gives the number. */
  lemma {:induction false} NatToStringRoundTrip(n: nat)
    ensures DigitsValue(NatToString(n)) == n
    decreases n
  {
    var s := NatToString(n);
    if n >= 10 {
      NatToStringRoundTrip(n / 10);
      assert s[..|s| - 1] == NatToString(n / 10);
    }
  }

  /** The size a round label names, read back from the label. */
  function LabelSize(name: string): int {
    if |name| > 10 && name[0] == 'R' then
      if name[10] == '-' then -DigitsValue(name[11..]) else DigitsValue(name[10..])
    else if name == "Finale" then 2
    else if name == "Halbfinale" then 4
    else if name == "Viertelfinale" then 8
    else if name == "Achtelfinale" then 16
    else 32
  }

  /** The label of a size without a name of its own. */
  function Numbered(size: int): string {
    "Runde mit " + (if size >= 0 then NatToString(size) else "-" + NatToString(-size))
  }

  lemma NumberedRoundTrip(size: int)
    ensures LabelSize(Numbered(size)) == size
  {
    var l := Numbered(size);
    assert l[0] == 'R';
    if size >= 0 {
      assert l[10..] == NatToString(size);
      NatToStringRoundTrip(size);
    } else {
      assert l[11..] == NatToString(-size);
      NatToStringRoundTrip(-size);
    }
  }

  /** Different sizes get different labels. */
  lemma RoundLabelInjective(x: int, y: int)
    requires RoundLabel(x) == RoundLabel(y)
    ensures x == y
  {
  }
}
