/** The conversion formula in double precision, against the exact floor that the other modules use. */
module DoubleRounding {
  import opened Arithmetic
  import opened RexActions
  import opened RexPool

  /** The relative error of one rounding to a double: half a unit in the last place of 1. */
  const EPSILON := 1.0 / 9_007_199_254_740_992.0

  /** `y` is `x` after one rounding. */
  ghost predicate Rounds(x: real, y: real) {
    x * (1.0 - EPSILON) <= y <= x * (1.0 + EPSILON)
  }

  /** Zero, or well within the range in which doubles have their full precision. */
  ghost predicate InRange(x: real) {
    x == 0.0 || 1.0 / 18_446_744_073_709_551_616.0 <= x <= 340_282_366_920_938_463_463_374_607_431_768_211_456.0
  }

  /** What rounding to the nearest double does to every number in that range. */
  ghost predicate IsRounding(round: real -> real) {
    forall x :: InRange(x) ==> Rounds(x, round(x))
  }

  /** Amounts that are doubles themselves, with an output reserve of at most 2^50. */
  ghost predicate Amounts(inpReserve: nat, outReserve: nat, inp: nat) {
    inpReserve < 0x20_0000_0000_0000 && inp < 0x20_0000_0000_0000 && outReserve <= 0x4_0000_0000_0000 && inpReserve + inp > 0
  }

  /** The formula as it is computed: product, sum and quotient rounded one by one, the result truncated. */
  ghost function DoubleOutput(round: real -> real, inpReserve: nat, outReserve: nat, inp: nat): int
    requires IsRounding(round) && Amounts(inpReserve, outReserve, inp)
  {
    DoubleQuotient(round, inpReserve, outReserve, inp).Floor
  }

  ghost function DoubleQuotient(round: real -> real, inpReserve: nat, outReserve: nat, inp: nat): real
    requires IsRounding(round) && Amounts(inpReserve, outReserve, inp)
  {
    var product := round((inp as real) * (outReserve as real));
    var sum := round((inpReserve as real) + (inp as real));
    assert InRange((inpReserve as real) + (inp as real));
    round(product / sum)
  }

  lemma ScaleLe(x: real, y: real, c: real)
    requires x <= y && c >= 0.0
    ensures x * c <= y * c
  {
  }

  lemma CancelLeReal(x: real, y: real, c: real)
    requires x * c <= y * c && c > 0.0
    ensures x <= y
  {
    if y < x {
      MulPositive(x - y, c);
    }
  }

  lemma MulPositive(x: real, y: real)
    requires x > 0.0 && y > 0.0
    ensures x * y > 0.0
  {
  }

  /** A quotient of rounded numbers, against the exact quotient. */
  lemma QuotientBounds(x: real, y: real, product: real, sum: real, divisor: real, low: real, high: real)
    requires y >= 0.0 && divisor > 0.0 && y * sum == product
    requires (x * divisor) * low <= product <= (x * divisor) * high && divisor * low <= sum <= divisor * high
    ensures y * low <= x * high && x * low <= y * high
  {
    ScaleLe(divisor * low, sum, y);
    ScaleLe(sum, divisor * high, y);
    assert (divisor * low) * y == (y * low) * divisor;
    assert (divisor * high) * y == (y * high) * divisor;
    assert (x * divisor) * high == (x * high) * divisor;
    assert (x * divisor) * low == (x * low) * divisor;
    assert sum * y == y * sum;
    CancelLeReal(y * low, x * high, divisor);
    CancelLeReal(x * low, y * high, divisor);
  }

  /** Three roundings move the result by at most four epsilons of it. */
  lemma ResultBounds(x: real, y: real, d: real)
    requires x >= 0.0 && y >= 0.0 && Rounds(y, d)
    requires y * (1.0 - EPSILON) <= x * (1.0 + EPSILON) && x * (1.0 - EPSILON) <= y * (1.0 + EPSILON)
    ensures x - 4.0 * EPSILON * x <= d <= x + 4.0 * EPSILON * x
  {
  }

  /** The floor of an exact quotient is the integer quotient. */
  lemma QuotientFloor(a: nat, b: nat)
    requires b > 0
    ensures ((a as real) / (b as real)).Floor == a / b
  {
    DivBounds(a, b);
    var q, x := a / b, (a as real) / (b as real);
    assert x * (b as real) == a as real;
    assert (q as real) * (b as real) == (q * b) as real;
    assert ((q + 1) as real) * (b as real) == ((q + 1) * b) as real;
    CancelLeReal(q as real, x, b as real);
    if x >= (q + 1) as real {
      ScaleLe((q + 1) as real, x, b as real);
    }
  }

  lemma RoundsIn(round: real -> real, x: real)
    requires IsRounding(round) && InRange(x)
    ensures Rounds(x, round(x))
  {
  }

  /** The same steps on any non-negative reals. */
  lemma ThreeRoundings(round: real -> real, inp: real, reserve: real, divisor: real, exact: real)
    requires IsRounding(round) && 0.0 <= inp <= divisor && 1.0 <= divisor <= 18_014_398_509_481_984.0
    requires 0.0 <= reserve <= 1_125_899_906_842_624.0 && exact == inp * reserve
    requires InRange(exact) && InRange(divisor) && (exact == 0.0 || exact >= 1.0)
    ensures round(divisor) > 0.0
    ensures var x := exact / divisor;
            var d := round(round(exact) / round(divisor));
            0.0 <= x <= reserve && x - 0.5 <= d <= x + 0.5 && d >= 0.0
  {
    hide IsRounding, InRange;
    var x := exact / divisor;
    RoundsIn(round, exact);
    RoundsIn(round, divisor);
    var product, sum := round(exact), round(divisor);
    var y := product / sum;
    ExactQuotient(exact, divisor);
    ExactQuotient(product, sum);
    QuotientNonNegative(product, sum, y);
    ExactBounds(inp, reserve, divisor, x);
    QuotientBounds(x, y, product, sum, divisor, 1.0 - EPSILON, 1.0 + EPSILON);
    QuotientInRange(x, y, product, sum);
    RoundsIn(round, y);
    ResultBounds(x, y, round(y));
  }

  lemma ExactQuotient(a: real, b: real)
    requires b > 0.0
    ensures (a / b) * b == a
  {
  }

  /** The computed quotient is within one half of the exact one. */
  lemma WithinHalf(round: real -> real, inpReserve: nat, outReserve: nat, inp: nat)
    requires IsRounding(round) && Amounts(inpReserve, outReserve, inp)
    ensures var x := ((inp * outReserve) as real) / ((inpReserve + inp) as real);
            var d := DoubleQuotient(round, inpReserve, outReserve, inp);
            0.0 <= x <= outReserve as real && x - 0.5 <= d <= x + 0.5 && d >= 0.0
  {
    hide IsRounding;
    var divisor := (inpReserve as real) + (inp as real);
    var exact := (inp as real) * (outReserve as real);
    ProductInRange(inp, outReserve);
    ThreeRoundings(round, inp as real, outReserve as real, divisor, exact);
    assert divisor == (inpReserve + inp) as real;
  }

  lemma ProductInRange(inp: nat, outReserve: nat)
    requires inp < 0x20_0000_0000_0000 && outReserve <= 0x4_0000_0000_0000
    ensures var exact := (inp as real) * (outReserve as real);
            exact == (inp * outReserve) as real && (exact == 0.0 || 1.0 <= exact <= 10_141_204_801_825_835_211_973_625_643_008.0)
  {
    RealProduct(inp, outReserve);
    MulLe(0, inp, outReserve);
    MulLe(inp, 0x20_0000_0000_0000, outReserve);
  }

  lemma RealProduct(a: int, b: int)
    ensures (a as real) * (b as real) == (a * b) as real
  {
  }

  lemma QuotientInRange(x: real, y: real, product: real, sum: real)
    requires 0.0 < sum <= 36_028_797_018_963_968.0 && y >= 0.0 && y * sum == product && (product == 0.0 || product >= 0.5)
    requires x <= 1_125_899_906_842_624.0 && y * (1.0 - EPSILON) <= x * (1.0 + EPSILON)
    ensures InRange(y)
  {
    var least := 1.0 / 18_446_744_073_709_551_616.0;
    if product == 0.0 {
      CancelLeReal(y, 0.0, sum);
    } else {
      ScaleLe(sum, 36_028_797_018_963_968.0, least);
      assert sum * least == least * sum;
      CancelLeReal(least, y, sum);
    }
  }

  lemma QuotientNonNegative(product: real, sum: real, y: real)
    requires product >= 0.0 && sum > 0.0 && y * sum == product
    ensures y >= 0.0
  {
    CancelLeReal(0.0, y, sum);
  }

  lemma ExactBounds(inp: real, reserve: real, divisor: real, x: real)
    requires 0.0 <= inp <= divisor && divisor > 0.0 && reserve >= 0.0 && x * divisor == inp * reserve
    ensures 0.0 <= x <= reserve
  {
    ScaleLe(inp, divisor, reserve);
    assert divisor * reserve == reserve * divisor;
    CancelLeReal(x, reserve, divisor);
    ScaleLe(0.0, inp, reserve);
    CancelLeReal(0.0, x, divisor);
  }

  /** In double precision a conversion still pays between nothing and the whole reserve, and at most one unit off the exact floor. */
  lemma DoubleWithinReserve(round: real -> real, inpReserve: nat, outReserve: nat, inp: nat)
    requires IsRounding(round) && Amounts(inpReserve, outReserve, inp)
    ensures var out := DoubleOutput(round, inpReserve, outReserve, inp);
            var exact := BancorOutput(inpReserve, outReserve, inp);
            0 <= out <= outReserve && exact - 1 <= out <= exact + 1
  {
    hide IsRounding, DoubleQuotient;
    WithinHalf(round, inpReserve, outReserve, inp);
    QuotientFloor(inp * outReserve, inpReserve + inp);
  }

  /** Then the product of the reserves can shrink by at most the grown input reserve. */
  lemma DoubleKeepsProduct(round: real -> real, inpReserve: nat, outReserve: nat, inp: nat)
    requires IsRounding(round) && Amounts(inpReserve, outReserve, inp)
    ensures var out := DoubleOutput(round, inpReserve, outReserve, inp);
            (inpReserve + inp) * (outReserve - out) >= inpReserve * outReserve - (inpReserve + inp)
  {
    hide IsRounding, DoubleOutput, BancorOutput;
    DoubleWithinReserve(round, inpReserve, outReserve, inp);
    BancorKeepsProduct(inpReserve, outReserve, inp);
    var out, exact := DoubleOutput(round, inpReserve, outReserve, inp), BancorOutput(inpReserve, outReserve, inp);
    MulLe(outReserve - exact - 1, outReserve - out, inpReserve + inp);
  }
}
