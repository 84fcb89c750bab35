/** The dynamic quorum (packages/nouns-subgraph/src/utils/dynamicQuorum.ts) and its real curve
    (packages/nouns-webapp/src/components/DynamicQuorumInfoModal/index.tsx). */
module Quorum {
  import opened Arithmetic

  const BPS := 10_000
  const COEFFICIENT_UNIT := 1_000_000

  /** `BigInt.div`: division that truncates toward zero. */
  function Div(a: int, b: int): int
    requires b != 0
  {
    if a >= 0 then a / b else -(-a / b)
  }

  /** `BigInt.toI32`: the low 32 bits, read as a signed number. */
  function ToI32(n: int): int {
    (n + 0x8000_0000) % 0x1_0000_0000 - 0x8000_0000
  }

  function Min(a: int, b: int): int {
    if a <= b then a else b
  }

  /** The against votes in basis points of the supply, times the coefficient, plus the minimum. */
  function AdjustedBps(againstVotes: int, totalSupply: int, minBps: int, coefficient: int): int
    requires totalSupply != 0
  {
    Div(coefficient * Div(againstVotes * BPS, totalSupply), COEFFICIENT_UNIT) + minBps
  }

  function DynamicQuorumVotes(againstVotes: int, totalSupply: int, minBps: int, maxBps: int, coefficient: int): int
    requires totalSupply != 0
  {
    Div(totalSupply * Min(maxBps, ToI32(AdjustedBps(againstVotes, totalSupply, minBps, coefficient))), BPS)
  }

  /** The ranges the contract's event types and vote counts guarantee. */
  predicate InRange(againstVotes: int, totalSupply: int, minBps: int, coefficient: int) {
    && 0 <= againstVotes <= totalSupply && 0 < totalSupply
    && 0 <= minBps < 0x1_0000 && 0 <= coefficient < 0x1_0000_0000
  }

  lemma AgainstBps(againstVotes: int, totalSupply: int)
    requires 0 <= againstVotes <= totalSupply && 0 < totalSupply
    ensures 0 <= againstVotes * BPS / totalSupply <= BPS
  {
    DivMonotone(againstVotes * BPS, totalSupply * BPS, totalSupply);
    assert totalSupply * BPS / totalSupply == BPS;
  }

  /** Within those ranges the conversion to i32 loses nothing. */
  lemma ToI32Exact(againstVotes: int, totalSupply: int, minBps: int, coefficient: int)
    requires InRange(againstVotes, totalSupply, minBps, coefficient)
    ensures var adjusted := AdjustedBps(againstVotes, totalSupply, minBps, coefficient);
      minBps <= adjusted && ToI32(adjusted) == adjusted
  {
    AgainstBps(againstVotes, totalSupply);
    var bps := againstVotes * BPS / totalSupply;
    MulMonotone(bps, BPS, coefficient);
    assert 0 <= coefficient * bps <= 0x1_0000_0000 * BPS;
  }

  /** The three roundings, all down: b are the votes against in basis points of the supply, a is what they
      add to the minimum, and the quorum is the capped sum of the supply's basis points. */
  ghost predicate RoundedDown(againstVotes: int, totalSupply: int, minBps: int, maxBps: int, coefficient: int,
          b: int, a: int, quorum: int)
  {
    && b * totalSupply <= againstVotes * 10_000 < (b + 1) * totalSupply
    && a * 1_000_000 <= coefficient * b < (a + 1) * 1_000_000
    && var bps := if minBps + a <= maxBps then minBps + a else maxBps;
      quorum * 10_000 <= totalSupply * bps < (quorum + 1) * 10_000
  }

  lemma FloorBetween(n: int, w: int)
    requires w > 0
    ensures (n / w) * w <= n < (n / w + 1) * w
  {
    assert n == w * (n / w) + n % w;
  }

  lemma FloorUnique(n: int, w: int, q: int, q': int)
    requires w > 0 && q * w <= n < (q + 1) * w && q' * w <= n < (q' + 1) * w
    ensures q == q'
  {
    MulAtLeast(q - q', w);
    assert (q - q') * w == q * w - q' * w;
  }

  lemma RoundedDownUnique(againstVotes: int, totalSupply: int, minBps: int, maxBps: int, coefficient: int,
          b: int, a: int, quorum: int, b': int, a': int, quorum': int)
    requires totalSupply > 0
    requires RoundedDown(againstVotes, totalSupply, minBps, maxBps, coefficient, b, a, quorum)
    requires RoundedDown(againstVotes, totalSupply, minBps, maxBps, coefficient, b', a', quorum')
    ensures quorum == quorum'
  {
    FloorUnique(againstVotes * 10_000, totalSupply, b, b');
    FloorUnique(coefficient * b, 1_000_000, a, a');
    var bps := if minBps + a <= maxBps then minBps + a else maxBps;
    FloorUnique(totalSupply * bps, 10_000, quorum, quorum');
  }

  lemma QuorumRoundedDown(againstVotes: int, totalSupply: int, minBps: int, maxBps: int, coefficient: int)
    requires InRange(againstVotes, totalSupply, minBps, coefficient) && 0 <= maxBps
    ensures var b := againstVotes * BPS / totalSupply;
      RoundedDown(againstVotes, totalSupply, minBps, maxBps, coefficient, b, coefficient * b / COEFFICIENT_UNIT,
                  DynamicQuorumVotes(againstVotes, totalSupply, minBps, maxBps, coefficient))
  {
    var b := againstVotes * BPS / totalSupply;
    ToI32Exact(againstVotes, totalSupply, minBps, coefficient);
    AgainstBps(againstVotes, totalSupply);
    FloorBetween(againstVotes * BPS, totalSupply);
    assert 0 <= coefficient * b by { MulMonotone(0, b, coefficient); }
    FloorBetween(coefficient * b, COEFFICIENT_UNIT);
    var bps := Min(maxBps, AdjustedBps(againstVotes, totalSupply, minBps, coefficient));
    assert 0 <= totalSupply * bps by { MulMonotone(0, bps, totalSupply); }
    FloorBetween(totalSupply * bps, BPS);
  }

  /** The quorum is exactly the number that these three roundings give. */
  lemma QuorumExact(againstVotes: int, totalSupply: int, minBps: int, maxBps: int, coefficient: int, quorum: int)
    requires InRange(againstVotes, totalSupply, minBps, coefficient) && 0 <= maxBps
    ensures quorum == DynamicQuorumVotes(againstVotes, totalSupply, minBps, maxBps, coefficient) <==>
      exists b, a :: RoundedDown(againstVotes, totalSupply, minBps, maxBps, coefficient, b, a, quorum)
  {
    QuorumRoundedDown(againstVotes, totalSupply, minBps, maxBps, coefficient);
    var b := againstVotes * BPS / totalSupply;
    if b', a' :| RoundedDown(againstVotes, totalSupply, minBps, maxBps, coefficient, b', a', quorum) {
      RoundedDownUnique(againstVotes, totalSupply, minBps, maxBps, coefficient, b', a', quorum,
                        b, coefficient * b / COEFFICIENT_UNIT,
                        DynamicQuorumVotes(againstVotes, totalSupply, minBps, maxBps, coefficient));
    }
  }

  /** The quorum lies between the minimum and the maximum share of the supply. */
  lemma QuorumBounds(againstVotes: int, totalSupply: int, minBps: int, maxBps: int, coefficient: int)
    requires InRange(againstVotes, totalSupply, minBps, coefficient) && minBps <= maxBps
    ensures totalSupply * minBps / BPS
         <= DynamicQuorumVotes(againstVotes, totalSupply, minBps, maxBps, coefficient)
         <= totalSupply * maxBps / BPS
  {
    ToI32Exact(againstVotes, totalSupply, minBps, coefficient);
    var bps := Min(maxBps, AdjustedBps(againstVotes, totalSupply, minBps, coefficient));
    MulMonotone(minBps, bps, totalSupply);
    MulMonotone(bps, maxBps, totalSupply);
    DivMonotone(totalSupply * minBps, totalSupply * bps, BPS);
    DivMonotone(totalSupply * bps, totalSupply * maxBps, BPS);
  }

  lemma AdjustedMonotone(againstVotes: int, moreVotes: int, totalSupply: int, minBps: int, coefficient: int,
          larger: int)
    requires InRange(againstVotes, totalSupply, minBps, coefficient) && InRange(moreVotes, totalSupply, minBps, larger)
    requires againstVotes <= moreVotes && coefficient <= larger
    ensures 0 <= AdjustedBps(againstVotes, totalSupply, minBps, coefficient)
              <= AdjustedBps(moreVotes, totalSupply, minBps, larger)
  {
    AgainstBps(againstVotes, totalSupply);
    AgainstBps(moreVotes, totalSupply);
    DivMonotone(againstVotes * BPS, moreVotes * BPS, totalSupply);
    var a, a' := againstVotes * BPS / totalSupply, moreVotes * BPS / totalSupply;
    MulMonotone(a, a', coefficient);
    MulMonotone(coefficient, larger, a');
    DivMonotone(coefficient * a, larger * a', COEFFICIENT_UNIT);
  }

  lemma ShareMonotone(supply: nat, bps: nat, more: nat)
    requires bps <= more
    ensures Div(supply * bps, BPS) <= Div(supply * more, BPS)
  {
    MulMonotone(bps, more, supply);
    DivMonotone(supply * bps, supply * more, BPS);
  }

  /** More votes against, or a larger coefficient, never lower the quorum. */
  lemma QuorumMonotone(againstVotes: int, moreVotes: int, totalSupply: int, minBps: int, maxBps: int,
          coefficient: int, larger: int)
    requires InRange(againstVotes, totalSupply, minBps, coefficient) && InRange(moreVotes, totalSupply, minBps, larger)
    requires againstVotes <= moreVotes && coefficient <= larger && 0 <= maxBps
    ensures DynamicQuorumVotes(againstVotes, totalSupply, minBps, maxBps, coefficient)
         <= DynamicQuorumVotes(moreVotes, totalSupply, minBps, maxBps, larger)
  {
    ToI32Exact(againstVotes, totalSupply, minBps, coefficient);
    ToI32Exact(moreVotes, totalSupply, minBps, larger);
    AdjustedMonotone(againstVotes, moreVotes, totalSupply, minBps, coefficient, larger);
    ShareMonotone(totalSupply,
                  Min(maxBps, AdjustedBps(againstVotes, totalSupply, minBps, coefficient)),
                  Min(maxBps, AdjustedBps(moreVotes, totalSupply, minBps, larger)));
  }

  function RealMin(a: real, b: real): real {
    if a <= b then a else b
  }

  /** The curve before rounding, in basis points: min(minBps + coefficient * againstBps, maxBps). */
  function ExactBps(againstVotes: int, totalSupply: int, minBps: int, maxBps: int, coefficient: int): real
    requires totalSupply > 0
  {
    var againstBps := againstVotes as real * 10_000.0 / totalSupply as real;
    RealMin(minBps as real + coefficient as real / 1_000_000.0 * againstBps, maxBps as real)
  }

  /** The exact curve, in votes. */
  function Curve(againstVotes: int, totalSupply: int, minBps: int, maxBps: int, coefficient: int): real
    requires totalSupply > 0
  {
    totalSupply as real * ExactBps(againstVotes, totalSupply, minBps, maxBps, coefficient) / 10_000.0
  }

  /** A floor division misses the real quotient by less than one. */
  lemma FloorGap(a: int, b: int)
    requires 0 < b
    ensures (a / b) as real <= a as real / b as real < (a / b) as real + 1.0
  {
    var q, r := a / b, a % b;
    assert a == q * b + r;
    assert a as real == q as real * b as real + r as real;
    assert a as real / b as real == q as real + r as real / b as real;
  }

  lemma ProductNonNegative(x: real, y: real)
    requires 0.0 <= x && 0.0 <= y
    ensures 0.0 <= x * y
  {
  }

  /** Two floors in a row: a misses `exact` by less than one, and q misses p = c * a likewise. */
  lemma CoefficientGap(c: real, a: real, exact: real, p: real, q: real)
    requires 0.0 <= c && a <= exact < a + 1.0
    requires p == c * a && q <= p < q + 1.0
    ensures q <= c * exact < q + c + 1.0
  {
    ProductNonNegative(c, exact - a);
    ProductNonNegative(c, a + 1.0 - exact);
    assert c * (exact - a) == c * exact - p;
    assert c * (a + 1.0 - exact) == p + c - c * exact;
  }

  lemma Reassociate(x: int, y: int)
    ensures (x * y) as real / 1_000_000.0 == x as real / 1_000_000.0 * y as real
  {
    assert (x * y) as real == x as real * y as real;
  }

  lemma ScaleGap(s: real, b: real, exact: real, gap: real)
    requires 0.0 < s && b <= exact < b + gap
    ensures s * b / 10_000.0 <= s * exact / 10_000.0 < s * b / 10_000.0 + s * gap / 10_000.0
  {
    assert s * (exact - b) >= 0.0;
    assert s * (b + gap - exact) > 0.0;
  }

  lemma CoefficientFloorGap(coefficient: nat, a: nat, exact: real)
    requires a as real <= exact < a as real + 1.0
    ensures var c, q := coefficient as real / 1_000_000.0, (coefficient * a / COEFFICIENT_UNIT) as real;
      q <= c * exact < q + c + 1.0
  {
    var p := (coefficient * a) as real / 1_000_000.0;
    FloorGap(coefficient * a, COEFFICIENT_UNIT);
    Reassociate(coefficient, a);
    CoefficientGap(coefficient as real / 1_000_000.0, a as real, exact, p,
                   (coefficient * a / COEFFICIENT_UNIT) as real);
  }

  /** The rounded basis points lie below the exact ones by less than coefficient / 10^6 + 1. */
  lemma BpsGap(againstVotes: int, totalSupply: int, minBps: int, maxBps: int, coefficient: int)
    requires InRange(againstVotes, totalSupply, minBps, coefficient)
    ensures var bps := Min(maxBps, AdjustedBps(againstVotes, totalSupply, minBps, coefficient)) as real;
      bps <= ExactBps(againstVotes, totalSupply, minBps, maxBps, coefficient)
      < bps + (coefficient as real / 1_000_000.0 + 1.0)
  {
    AgainstBps(againstVotes, totalSupply);
    FloorGap(againstVotes * BPS, totalSupply);
    assert (againstVotes * BPS) as real == againstVotes as real * 10_000.0;
    CoefficientFloorGap(coefficient, againstVotes * BPS / totalSupply,
                        againstVotes as real * 10_000.0 / totalSupply as real);
  }

  /** Rounding only lowers the quorum, by less than one vote plus (coefficient / 10^6 + 1) basis
      points of the supply. */
  lemma QuorumBelowCurve(againstVotes: int, totalSupply: int, minBps: int, maxBps: int, coefficient: int)
    requires InRange(againstVotes, totalSupply, minBps, coefficient) && 0 <= maxBps
    ensures var quorum, exact := DynamicQuorumVotes(againstVotes, totalSupply, minBps, maxBps, coefficient) as real,
                                 Curve(againstVotes, totalSupply, minBps, maxBps, coefficient);
      quorum <= exact
      < quorum + totalSupply as real * (coefficient as real / 1_000_000.0 + 1.0) / 10_000.0 + 1.0
  {
    ToI32Exact(againstVotes, totalSupply, minBps, coefficient);
    BpsGap(againstVotes, totalSupply, minBps, maxBps, coefficient);
    var bps := Min(maxBps, AdjustedBps(againstVotes, totalSupply, minBps, coefficient));
    var exactBps := ExactBps(againstVotes, totalSupply, minBps, maxBps, coefficient);
    assert 0 <= totalSupply * bps by { MulMonotone(0, bps, totalSupply); }
    assert DynamicQuorumVotes(againstVotes, totalSupply, minBps, maxBps, coefficient) == totalSupply * bps / BPS;
    ShareGap(totalSupply, bps, exactBps, coefficient as real / 1_000_000.0 + 1.0);
  }

  lemma ShareGap(supply: nat, bps: nat, exact: real, gap: real)
    requires 0 < supply && bps as real <= exact < bps as real + gap
    ensures var share := (supply * bps / BPS) as real;
      share <= supply as real * exact / 10_000.0 < share + supply as real * gap / 10_000.0 + 1.0
  {
    FloorGap(supply * bps, BPS);
    assert (supply * bps) as real == supply as real * bps as real;
    ScaleGap(supply as real, bps as real, exact, gap);
  }
}
