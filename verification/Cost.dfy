/** Token pricing: integer charges per million tokens, with 64- and 128-bit saturation written out. */
module Cost {

  const I64_MAX: int := 0x7fff_ffff_ffff_ffff
  const I64_MIN: int := -0x8000_0000_0000_0000
  const I128_MAX: int := 0x7fff_ffff_ffff_ffff_ffff_ffff_ffff_ffff
  const SCALE: int := 1_000_000

  type i64 = x: int | I64_MIN <= x <= I64_MAX

  function Max(a: int, b: int): int { if a < b then b else a }

  function Min(a: int, b: int): int { if a < b then a else b }

  /** i64 saturation, as `saturating_add` and `saturating_sub` apply it. */
  function Saturate(x: int): int { Max(I64_MIN, Min(I64_MAX, x)) }

  function Saturate128(x: int): int { Min(I128_MAX, x) }

  datatype Price = Price(input: int, cachedInput: int, output: int)

  function ChargeTokens(tokens: int, price: int): int {
    var n, p := Max(tokens, 0), Max(price, 0);
    if n == 0 || p == 0 then 0
    else Max(0, Min(I64_MAX, Saturate128(Saturate128(n * p) + SCALE / 2) / SCALE))
  }

  function EstimatedCost(inputTokens: int, cachedTokens: int, outputTokens: int, price: Price): int {
    var input := Max(inputTokens, 0);
    var cached := Min(Max(cachedTokens, 0), input);
    Saturate(Saturate(ChargeTokens(input - cached, price.input) + ChargeTokens(cached, price.cachedInput))
             + ChargeTokens(Max(outputTokens, 0), price.output))
  }

  predicate IsI64(x: int) { I64_MIN <= x <= I64_MAX }

  lemma ProductBound(a: int, b: int)
    requires 0 <= a <= I64_MAX && 0 <= b <= I64_MAX
    ensures 0 <= a * b <= I64_MAX * I64_MAX
  {
    calc <= { a * b; { Scale(a, b, I64_MAX); } a * I64_MAX; { Scale(I64_MAX, a, I64_MAX); } I64_MAX * I64_MAX; }
  }

  lemma Scale(f: int, a: int, b: int)
    requires f >= 0 && a <= b
    ensures f * a <= f * b
  {
  }

  /** The price of the tokens before rounding, in millionths of a microcredit. */
  function Exact(tokens: int, price: int): int { Max(tokens, 0) * Max(price, 0) }

  /**
   * The 128-bit steps never saturate on 64-bit inputs, so a charge is the product rounded half up
   * to whole microcredits, capped at the 64-bit maximum.
   */
  lemma ChargeRoundsToNearest(tokens: int, price: int)
    requires IsI64(tokens) && IsI64(price)
    ensures var exact, charge := Exact(tokens, price), ChargeTokens(tokens, price);
            && 0 <= charge <= I64_MAX
            && (charge < I64_MAX ==> -SCALE / 2 < charge * SCALE - exact <= SCALE / 2)
            && (charge == I64_MAX ==> I64_MAX * SCALE - SCALE / 2 <= exact)
  {
    var n, p := Max(tokens, 0), Max(price, 0);
    ProductBound(n, p);
    if n != 0 && p != 0 {
      var numerator := n * p + SCALE / 2;
      assert Saturate128(Saturate128(n * p) + SCALE / 2) == numerator;
    } else {
      assert n * p == 0;
    }
  }

  lemma ChargeMonotone(tokens: int, more: int, price: int)
    requires tokens <= more
    ensures ChargeTokens(tokens, price) <= ChargeTokens(more, price)
  {
    Scale(Max(price, 0), Max(tokens, 0), Max(more, 0));
  }

  /**
   * The estimate is within one and a half microcredits of the exact price of the request; only the 64-bit
   * maximum may be below it.
   */
  lemma CostWithinOneAndAHalf(inputTokens: int, cachedTokens: int, outputTokens: int, price: Price)
    requires IsI64(inputTokens) && IsI64(cachedTokens) && IsI64(outputTokens)
    requires IsI64(price.input) && IsI64(price.cachedInput) && IsI64(price.output)
    ensures var input := Max(inputTokens, 0);
            var cached := Min(Max(cachedTokens, 0), input);
            var exact := Exact(input - cached, price.input) + Exact(cached, price.cachedInput)
                         + Exact(outputTokens, price.output);
            var cost := EstimatedCost(inputTokens, cachedTokens, outputTokens, price);
            && 0 <= cost <= I64_MAX
            && 2 * (cost * SCALE - exact) <= 3 * SCALE
            && (cost < I64_MAX ==> -3 * SCALE <= 2 * (cost * SCALE - exact))
  {
    var input := Max(inputTokens, 0);
    var cached := Min(Max(cachedTokens, 0), input);
    ChargeRoundsToNearest(input - cached, price.input);
    ChargeRoundsToNearest(cached, price.cachedInput);
    ChargeRoundsToNearest(Max(outputTokens, 0), price.output);
    assert Exact(Max(outputTokens, 0), price.output) == Exact(outputTokens, price.output);
  }

  /** More prompt or completion tokens never make a request cheaper. */
  lemma CostMonotone(
    inputTokens: int, moreInput: int, cachedTokens: int, outputTokens: int, moreOutput: int, price: Price)
    requires inputTokens <= moreInput && outputTokens <= moreOutput
    ensures EstimatedCost(inputTokens, cachedTokens, outputTokens, price)
         <= EstimatedCost(moreInput, cachedTokens, moreOutput, price)
  {
    var input, more := Max(inputTokens, 0), Max(moreInput, 0);
    var cached, moreCached := Min(Max(cachedTokens, 0), input), Min(Max(cachedTokens, 0), more);
    ChargeMonotone(input - cached, more - moreCached, price.input);
    ChargeMonotone(cached, moreCached, price.cachedInput);
    ChargeMonotone(Max(outputTokens, 0), Max(moreOutput, 0), price.output);
  }

  lemma ExactSplit(a: int, b: int, p: int, q: int)
    requires 0 <= a && 0 <= b && 0 <= q <= p
    ensures Exact(a, p) + Exact(b, q) <= Exact(a + b, p)
  {
    Scale(b, q, p);
    assert (a + b) * p == a * p + b * p;
  }

  lemma SplitCharge(a: int, b: int, p: int, q: int)
    requires 0 <= a && 0 <= b && a + b <= I64_MAX && 0 <= q <= p <= I64_MAX
    ensures Min(I64_MAX, ChargeTokens(a, p) + ChargeTokens(b, q)) <= ChargeTokens(a + b, p) + 1
  {
    ChargeRoundsToNearest(a, p);
    ChargeRoundsToNearest(b, q);
    ChargeRoundsToNearest(a + b, p);
    ExactSplit(a, b, p, q);
    Exacts(Exact(a, p), Exact(b, q), Exact(a + b, p), ChargeTokens(a, p), ChargeTokens(b, q), ChargeTokens(a + b, p));
  }

  lemma Exacts(x: int, y: int, z: int, cx: int, cy: int, cz: int)
    requires x + y <= z && 0 <= cx && 0 <= cy && 0 <= cz
    requires cx * SCALE - x <= SCALE / 2 && cy * SCALE - y <= SCALE / 2
    requires cz < I64_MAX ==> -SCALE / 2 < cz * SCALE - z
    ensures Min(I64_MAX, cx + cy) <= cz + 1
  {
  }

  /** Serving prompt tokens from a cache priced no higher can add at most one microcredit of rounding. */
  lemma CacheAddsAtMostOne(inputTokens: int, cachedTokens: int, outputTokens: int, price: Price)
    requires IsI64(inputTokens) && IsI64(price.input) && 0 <= price.cachedInput <= price.input
    ensures EstimatedCost(inputTokens, cachedTokens, outputTokens, price)
         <= EstimatedCost(inputTokens, 0, outputTokens, price) + 1
  {
    var input := Max(inputTokens, 0);
    var cached := Min(Max(cachedTokens, 0), input);
    SplitCharge(input - cached, cached, price.input, price.cachedInput);
  }

  /** And that microcredit can really be added, even at one and the same price. */
  lemma CacheCanAddOne()
    ensures EstimatedCost(2, 1, 0, Price(500_000, 500_000, 0)) == EstimatedCost(2, 0, 0, Price(500_000, 500_000, 0)) + 1
  {
  }
}
