/** Converting a stated length or weight to the canonical unit, always rounded up. */
module Units {

  datatype LengthUnit = In | Cm | Mm | M | Ft
  datatype WeightUnit = Kg | G | Lb | T

  function InchesPer(u: LengthUnit): real {
    match u
    case In => 1.0
    case Cm => 1.0 / 2.54
    case Mm => 1.0 / 25.4
    case M => 100.0 / 2.54
    case Ft => 12.0
  }

  function KgPer(u: WeightUnit): real {
    match u
    case Kg => 1.0
    case G => 0.001
    case Lb => 0.45359237
    case T => 1000.0
  }

  const EPSILON: real := 0.000000001

  /** `math.ceil`: the least integer that is not below `x`. */
  function Ceil(x: real): (n: int)
    ensures (n - 1) as real < x <= n as real
  {
    if x.Floor as real == x then x.Floor else x.Floor + 1
  }

  /** `x` rounded up to a tenth, forgiving an excess within the epsilon. */
  function RoundUp(x: real): real {
    Ceil(x * 10.0 - EPSILON) as real / 10.0
  }

  /** A measurement times its factor, rounded up. */
  function Convert(value: real, factor: real): real {
    RoundUp(value * factor)
  }

  function ToInches(value: real, u: LengthUnit): real {
    if u.In? then value else Convert(value, InchesPer(u))
  }

  function ToKg(value: real, u: WeightUnit): real {
    if u.Kg? then value else Convert(value, KgPer(u))
  }

  /** A per-piece weight multiplied out first and converted once. */
  function TimesPieces(value: real, u: WeightUnit, pcs: int): real {
    if u.Kg? then RoundUp(value * pcs as real) else ToKg(value * pcs as real, u)
  }

  /** `r` has at most one decimal place. */
  ghost predicate Tenths(r: real) {
    exists k: int :: IsTenths(r, k)
  }

  ghost predicate IsTenths(r: real, k: int) {
    r * 10.0 == k as real
  }

  /** Rounding never loses more than 1e-10 and never adds a whole tenth. */
  lemma RoundUpBounds(x: real)
    ensures Tenths(RoundUp(x))
    ensures x - 0.0000000001 <= RoundUp(x) < x + 0.1 - 0.0000000001
  {
    assert IsTenths(RoundUp(x), Ceil(x * 10.0 - EPSILON));
  }

  /** Within those bounds the answer is unique, so the bounds say what rounding is. */
  lemma RoundUpIsTheOnlyTenth(x: real, r: real)
    requires Tenths(r) && x - 0.0000000001 <= r < x + 0.1 - 0.0000000001
    ensures r == RoundUp(x)
  {
    RoundUpBounds(x);
    var i: int :| IsTenths(r, i);
    var j: int :| IsTenths(RoundUp(x), j);
    assert -1.0 < (i - j) as real < 1.0;
  }

  lemma RoundUpIsMonotone(x: real, y: real)
    requires x <= y
    ensures RoundUp(x) <= RoundUp(y)
  {
    var i, j := Ceil(x * 10.0 - EPSILON), Ceil(y * 10.0 - EPSILON);
    assert (i - 1) as real < x * 10.0 - EPSILON <= y * 10.0 - EPSILON <= j as real;
    assert i <= j;
  }

  /** Every converted length is a whole number of tenths, at most a tenth above the true size;
      a length already in inches passes through untouched. */
  lemma LengthIsNeverUnderstated(value: real, u: LengthUnit)
    ensures u.In? ==> ToInches(value, u) == value
    ensures !u.In? ==> Tenths(ToInches(value, u))
    ensures value * InchesPer(u) - 0.0000000001 <= ToInches(value, u) < value * InchesPer(u) + 0.1
  {
    var exact := value * InchesPer(u);
    RoundUpBounds(exact);
    assert !u.In? ==> ToInches(value, u) == RoundUp(exact);
  }

  /** The same for a weight and kilograms. */
  lemma WeightIsNeverUnderstated(value: real, u: WeightUnit)
    ensures u.Kg? ==> ToKg(value, u) == value
    ensures !u.Kg? ==> Tenths(ToKg(value, u))
    ensures value * KgPer(u) - 0.0000000001 <= ToKg(value, u) < value * KgPer(u) + 0.1
  {
    var exact := value * KgPer(u);
    RoundUpBounds(exact);
    assert !u.Kg? ==> ToKg(value, u) == RoundUp(exact);
  }

  lemma ScaleIsMonotone(a: real, b: real, f: real)
    requires a <= b && 0.0 <= f
    ensures a * f <= b * f && f * a <= f * b
  {
    assert 0.0 <= (b - a) * f == b * f - a * f;
  }

  lemma LengthsKeepTheirOrder(a: real, b: real, u: LengthUnit)
    requires a <= b
    ensures ToInches(a, u) <= ToInches(b, u)
  {
    match u
    case In =>
    case Cm => RoundUpIsMonotone(a * (1.0 / 2.54), b * (1.0 / 2.54));
    case Mm => RoundUpIsMonotone(a * (1.0 / 25.4), b * (1.0 / 25.4));
    case M => RoundUpIsMonotone(a * (100.0 / 2.54), b * (100.0 / 2.54));
    case Ft => RoundUpIsMonotone(a * 12.0, b * 12.0);
  }

  lemma WeightsKeepTheirOrder(a: real, b: real, u: WeightUnit)
    requires a <= b
    ensures ToKg(a, u) <= ToKg(b, u)
  {
    match u
    case Kg =>
    case G => RoundUpIsMonotone(a * 0.001, b * 0.001);
    case Lb => RoundUpIsMonotone(a * 0.45359237, b * 0.45359237);
    case T => RoundUpIsMonotone(a * 1000.0, b * 1000.0);
  }

  lemma TenthsScale(r: real, n: int, m: real)
    requires Tenths(r) && m == n as real
    ensures Tenths(m * r)
  {
    var k: int :| IsTenths(r, k);
    calc {
      (m * r) * 10.0;
      m * (r * 10.0);
      n as real * k as real;
      (n * k) as real;
    }
    assert IsTenths(m * r, n * k);
  }

  /** Two tenths less than two tenths apart are at most one apart. */
  lemma TenthsGap(a: real, b: real)
    requires Tenths(a) && Tenths(b) && a - b < 0.2
    ensures a - b <= 0.1
  {
    var i: int :| IsTenths(a, i);
    var j: int :| IsTenths(b, j);
    assert (i - j) as real < 2.0;
  }

  lemma StrictlyScaled(a: real, b: real, f: real)
    requires a < b && 0.0 < f
    ensures f * a < f * b
  {
    assert (b - a) * f != 0.0;
    ScaleIsMonotone(a, b, f);
    assert (b - a) * f == b * f - a * f;
  }

  lemma SlackOfManyPieces(below: real, m: real)
    requires 1.0 <= m <= 1000000000.0 && below <= 0.0000000001
    ensures m * below <= 0.1
  {
    var slack := 0.0000000001 - below;
    assert 0.0 <= m * slack;
    assert m * slack == m * 0.0000000001 - m * below;
    assert m * 0.0000000001 <= 0.1;
  }

  lemma ScaledBounds(x: real, piece: real, m: real)
    requires 1.0 <= m <= 1000000000.0
    requires x - 0.0000000001 <= piece < x + 0.1
    ensures m * x - 0.1 <= m * piece < m * x + m * 0.1
  {
    SlackOfManyPieces(x - piece, m);
    assert m * (x - piece) == m * x - m * piece;
    StrictlyScaled(piece, x + 0.1, m);
    assert m * (x + 0.1) == m * x + m * 0.1;
  }

  /** Rounding `n` pieces of size `x` together, against rounding one and multiplying. */
  lemma RoundTogetherOrApart(x: real, n: int, m: real, piece: real, total: real)
    requires 1 <= n <= 1_000_000_000 && m == n as real
    requires Tenths(piece) && x - 0.0000000001 <= piece < x + 0.1
    requires Tenths(total) && m * x - 0.0000000001 <= total < m * x + 0.1
    ensures total <= m * piece + 0.1
    ensures m * piece < m * x + m * 0.1
  {
    ScaledBounds(x, piece, m);
    TenthsScale(piece, n, m);
    TenthsGap(total, m * piece);
  }

  lemma MultiplyThenConvert(value: real, f: real, n: int)
    requires 1 <= n <= 1_000_000_000
    ensures (value * n as real) * f - 0.0000000001 <= Convert(value * n as real, f) < (value * n as real) * f + 0.1
    ensures Convert(value * n as real, f) <= n as real * Convert(value, f) + 0.1
    ensures n as real * Convert(value, f) < (value * n as real) * f + n as real * 0.1
  {
    var m, x, all := n as real, value * f, (value * n as real) * f;
    RoundUpBounds(x);
    RoundUpBounds(all);
    assert all == m * x;
    RoundTogetherOrApart(x, n, m, RoundUp(x), RoundUp(all));
  }

  /** Multiplying the pieces out first stays within a tenth of the true total; against the
      per-piece route it is never more than a tenth higher, up to a thousand million pieces,
      while that route overstates the total by less than a tenth per piece. */
  lemma MultiplyFirstIsTheTighterRoute(value: real, u: WeightUnit, n: int, f: real)
    requires !u.Kg? && 1 <= n <= 1_000_000_000 && f == KgPer(u)
    ensures (value * n as real) * f - 0.0000000001 <= TimesPieces(value, u, n) < (value * n as real) * f + 0.1
    ensures TimesPieces(value, u, n) <= n as real * ToKg(value, u) + 0.1
    ensures n as real * ToKg(value, u) < (value * n as real) * f + n as real * 0.1
  {
    assert TimesPieces(value, u, n) == Convert(value * n as real, f);
    assert ToKg(value, u) == Convert(value, f);
    MultiplyThenConvert(value, f, n);
  }

  /** The total of any number of pieces, in any unit, kilograms too, is a whole number of tenths, at most a tenth above
      the true one. */
  lemma TheTotalIsNeverUnderstated(value: real, u: WeightUnit, n: int, f: real)
    requires f == KgPer(u)
    ensures Tenths(TimesPieces(value, u, n))
    ensures (value * n as real) * f - 0.0000000001 <= TimesPieces(value, u, n) < (value * n as real) * f + 0.1
  {
    if u.Kg? {
      RoundUpBounds(value * n as real);
      TimesOne(value * n as real, f);
    } else {
      ConvertBounds(value * n as real, f);
      assert TimesPieces(value, u, n) == Convert(value * n as real, f);
    }
  }

  lemma ConvertBounds(x: real, f: real)
    ensures Tenths(Convert(x, f)) && x * f - 0.0000000001 <= Convert(x, f) < x * f + 0.1
  {
    RoundUpBounds(x * f);
  }

  lemma TimesOne(x: real, f: real)
    requires f == 1.0
    ensures x * f == x
  {
  }

  /** How the units relate: a foot is twelve inches, an inch 2.54 centimetres, a metre a hundred of those and a
      thousand millimetres; a tonne is a thousand kilograms, a kilogram a thousand grams, and a pound 453.59237. */
  lemma TheFactorsAgree()
    ensures InchesPer(In) == 1.0 && InchesPer(Ft) == 12.0 * InchesPer(In) && InchesPer(In) == 2.54 * InchesPer(Cm)
    ensures InchesPer(M) == 100.0 * InchesPer(Cm) == 1000.0 * InchesPer(Mm)
    ensures KgPer(Kg) == 1.0 && KgPer(T) == 1000.0 * KgPer(Kg) && KgPer(Kg) == 1000.0 * KgPer(G)
    ensures KgPer(Lb) == 453.59237 * KgPer(G)
  {
  }

  /** A piece that weighs next to nothing is declared as a whole tenth. */
  lemma ATinyPieceCostsATenth()
    ensures ToKg(0.0000000000002, T) == 0.1
  {
    assert ToKg(0.0000000000002, T) == RoundUp(0.0000000000002 * 1000.0);
    assert IsTenths(0.1, 1);
    RoundUpIsTheOnlyTenth(0.0000000002, 0.1);
  }

  /** So for every number of pieces the per-piece route can overstate the total by all but 2e-10 of a tenth for
      each: no smaller share of a tenth bounds it. */
  lemma ThePerPieceRouteCanOverstateByATenthEach(n: int)
    requires 1 <= n
    ensures var value, m := 0.0000000000002, n as real;
            m * ToKg(value, T) - (value * m) * KgPer(T) == m * (0.1 - 0.0000000002)
  {
    var m := n as real;
    ATinyPieceCostsATenth();
    assert (0.0000000000002 * m) * 1000.0 == m * 0.0000000002;
    assert m * (0.1 - 0.0000000002) == m * 0.1 - m * 0.0000000002;
  }

  /** Four boxes of 55 lb weigh 99.79 kg, declared as 99.8; the per-piece route would declare 100. */
  lemma FourBoxesOfFiftyFivePounds()
    ensures TimesPieces(55.0, Lb, 4) == 99.8
    ensures 4.0 * ToKg(55.0, Lb) == 100.0
  {
    assert IsTenths(99.8, 998) && IsTenths(25.0, 250);
    RoundUpIsTheOnlyTenth(55.0 * 4.0 * 0.45359237, 99.8);
    RoundUpIsTheOnlyTenth(55.0 * 0.45359237, 25.0);
  }
}
