/** The dashboard's compact number format and the threshold format, over exact reals. */
module NumberFormat {

  /** A JavaScript number: a finite one, or one of NaN and the infinities. */
  datatype Number = Finite(value: real) | NotFinite

  /** Units '', K, M, B, T. */
  const LAST_UNIT := 4

  /** 1000 to the power of a unit. */
  function Unit(u: nat): real {
    if u == 0 then 1.0
    else if u == 1 then 1000.0
    else if u == 2 then 1000000.0
    else if u == 3 then 1000000000.0
    else if u == 4 then 1000000000000.0
    else 1000000000000000.0
  }

  function Abs(x: real): real { if x < 0.0 then -x else x }

  /** `toFixed(2)` (section 21.1.3.3 of ECMA-262), in hundredths: round half away from zero. */
  function Hundredths(x: real): int {
    if x < 0.0 then -((-x * 100.0 + 0.5).Floor) else (x * 100.0 + 0.5).Floor
  }

  /** What is displayed: a mantissa in hundredths and the unit after it. */
  datatype Display = Display(hundredths: int, unit: nat)

  /** The number that a display denotes. */
  function Quantity(d: Display): real { d.hundredths as real / 100.0 * Unit(d.unit) }

  /** floor(log10(a) / 3): the largest power of 1000 that is at most a. */
  function Magnitude(a: real): nat
    requires a >= 1.0
    decreases a.Floor
  {
    if a < 1000.0 then 0 else 1 + Magnitude(a / 1000.0)
  }

  function StartUnit(a: real): nat
    requires a >= 1.0
  {
    if Magnitude(a) < LAST_UNIT then Magnitude(a) else LAST_UNIT
  }

  function Compact(v: real): Display {
    if Abs(v) < 1000.0 then Display(Hundredths(v), 0)
    else
      var u := StartUnit(Abs(v));
      var h := Hundredths(v / Unit(u));
      if (h >= 100000 || h <= -100000) && u < LAST_UNIT then Display(Hundredths(v / Unit(u + 1)), u + 1)
      else Display(h, u)
  }

  method FormatDashboardCompact(value: Number) returns (d: Display)
    ensures d == Compact(if value.Finite? then value.value else 0.0)
    ensures value.NotFinite? ==> d == Display(0, 0)
  {
    var normalized := if value.Finite? then value.value else 0.0;
    var absolute := Abs(normalized);
    if absolute < 1000.0 {
      return Display(Hundredths(normalized), 0);
    }
    var unitIndex := StartUnit(absolute);
    var scaled := normalized / Unit(unitIndex);
    var rounded := Hundredths(scaled);
    if (rounded >= 100000 || rounded <= -100000) && unitIndex < LAST_UNIT {
      unitIndex := unitIndex + 1;
      scaled := normalized / Unit(unitIndex);
      rounded := Hundredths(scaled);
    }
    d := Display(rounded, unitIndex);
  }

  // ---------------------------------------------------------------------------------------------

  /** The logarithmic choice of unit, as inequalities. */
  lemma StartUnitRange(a: real)
    requires a >= 1000.0
    ensures var u := StartUnit(a);
            1 <= u <= LAST_UNIT && Unit(u) <= a && (u < LAST_UNIT ==> a < Unit(u + 1))
  {
    var m := Magnitude(a);
    assert m == 1 + Magnitude(a / 1000.0);
    if a / 1000.0 >= 1000.0 {
      assert Magnitude(a / 1000.0) == 1 + Magnitude(a / 1000.0 / 1000.0);
      var b := a / 1000.0 / 1000.0;
      assert b == a / 1000000.0;
      if b >= 1000.0 {
        assert Magnitude(b) == 1 + Magnitude(b / 1000.0);
        var c := b / 1000.0;
        if c >= 1000.0 {
          assert Magnitude(c) == 1 + Magnitude(c / 1000.0);
        }
      }
    }
  }

  lemma RoundMonotone(x: real, y: real)
    requires x <= y
    ensures Hundredths(x) <= Hundredths(y)
  {
  }

  lemma RoundAccurate(x: real)
    ensures -0.5 <= Hundredths(x) as real - x * 100.0 <= 0.5
    ensures Hundredths(-x) == -Hundredths(x)
  {
  }

  lemma RoundOfNegative(v: real, unit: real)
    requires unit > 0.0
    ensures Hundredths(-v / unit) == -Hundredths(v / unit)
  {
    assert -v / unit == -(v / unit);
    RoundAccurate(v / unit);
  }

  /** The format is odd: a sign change changes the sign and nothing else. */
  lemma CompactIsOdd(v: real)
    ensures Compact(-v) == Display(-Compact(v).hundredths, Compact(v).unit)
  {
    RoundAccurate(v);
    if Abs(v) >= 1000.0 {
      var u := StartUnit(Abs(v));
      RoundOfNegative(v, Unit(u));
      RoundOfNegative(v, Unit(u + 1));
    }
  }

  /** Whether rounding at the first unit reaches 1000.00 where a larger unit exists. */
  predicate Carries(a: real)
    requires a >= 1000.0
  {
    StartUnit(a) < LAST_UNIT && Hundredths(a / Unit(StartUnit(a))) >= 100000
  }

  /** A carried value is within half a hundredth below the next unit and shows as 1.00 of it. */
  lemma CarryShowsOne(a: real)
    requires a >= 1000.0 && Carries(a)
    ensures Compact(a) == Display(100, StartUnit(a) + 1)
    ensures Unit(StartUnit(a) + 1) - 0.005 * Unit(StartUnit(a)) <= a
  {
    StartUnitRange(a);
  }

  lemma NoCarry(a: real)
    requires a >= 1000.0 && !Carries(a)
    ensures Compact(a) == Display(Hundredths(a / Unit(StartUnit(a))), StartUnit(a))
    ensures Compact(a).hundredths >= 100 && (StartUnit(a) < LAST_UNIT ==> Compact(a).hundredths < 100000)
  {
    StartUnitRange(a);
    RoundMonotone(1.0, a / Unit(StartUnit(a)));
  }

  /** Below 1000 nothing carries, so the last half hundredth shows as 1000.00 without a unit. */
  lemma PlainThousand(v: real)
    requires Abs(v) < 1000.0
    ensures Compact(v).unit == 0 && Abs(Quantity(Compact(v)) - v) <= 0.005
    ensures Compact(v).hundredths >= 100000 || Compact(v).hundredths <= -100000 <==> Abs(v) >= 999.995
  {
    RoundAccurate(v);
  }

  lemma QuantityMonotone(h: int, g: int, u: nat)
    requires h <= g
    ensures Quantity(Display(h, u)) <= Quantity(Display(g, u))
  {
    var d := (g as real - h as real) / 100.0;
    assert d * Unit(u) >= 0.0;
    assert Quantity(Display(g, u)) - Quantity(Display(h, u)) == d * Unit(u);
  }

  lemma QuantityOfNegative(h: int, u: nat)
    ensures Quantity(Display(-h, u)) == -Quantity(Display(h, u))
  {
    var m := h as real / 100.0;
    assert (-h) as real / 100.0 == -m;
    assert (-m) * Unit(u) == -(m * Unit(u));
  }

  lemma QuantityAccurate(a: real, u: nat)
    requires u <= LAST_UNIT
    ensures Abs(Quantity(Display(Hundredths(a / Unit(u)), u)) - a) <= 0.005 * Unit(u)
  {
    RoundAccurate(a / Unit(u));
    if u == 0 {
    } else if u == 1 {
    } else if u == 2 {
    } else if u == 3 {
    }
  }

  /** The displayed mantissa is in range and the quantity is accurate. */
  predicate Faithful(v: real, d: Display) {
    && 1 <= d.unit <= LAST_UNIT
    && (if v < 0.0 then d.hundredths <= -100 else d.hundredths >= 100)
    && (d.unit < LAST_UNIT ==> -100000 < d.hundredths < 100000)
    && Abs(Quantity(d) - v) <= 0.005 * Unit(d.unit)
  }

  lemma PositiveFaithful(a: real)
    requires a >= 1000.0
    ensures Faithful(a, Compact(a))
  {
    var u := StartUnit(a);
    StartUnitRange(a);
    if Carries(a) {
      CarryShowsOne(a);
      assert Compact(a) == Display(Hundredths(a / Unit(u + 1)), u + 1);
      QuantityAccurate(a, u + 1);
    } else {
      NoCarry(a);
      QuantityAccurate(a, u);
    }
  }

  /**
   * One conditional carry is enough: from 1000 on, the mantissa is at least 1.00 and, below T, less
   * than 1000.00, and the displayed quantity is within half a hundredth of its unit of the value.
   */
  lemma CompactIsFaithful(v: real)
    requires Abs(v) >= 1000.0
    ensures Faithful(v, Compact(v))
  {
    var a := Abs(v);
    PositiveFaithful(a);
    if v < 0.0 {
      CompactIsOdd(a);
      assert -a == v;
      QuantityOfNegative(Compact(a).hundredths, Compact(a).unit);
    }
  }

  /** `units.find`: the largest threshold at most the absolute value, as a unit; 0 if none. */
  function ThresholdUnit(a: real): nat {
    if a >= 1000000000000.0 then 4
    else if a >= 1000000000.0 then 3
    else if a >= 1000000.0 then 2
    else if a >= 1000.0 then 1
    else 0
  }

  /** The two formats choose the same unit, except that the dashboard is one higher where it carries. */
  lemma UnitsAgreeUnlessCarried(v: real)
    requires Abs(v) >= 1000.0
    ensures Compact(v).unit == ThresholdUnit(Abs(v)) + if Carries(Abs(v)) then 1 else 0
    ensures Carries(Abs(v)) <==>
              ThresholdUnit(Abs(v)) < LAST_UNIT && Hundredths(Abs(v) / Unit(ThresholdUnit(Abs(v)))) >= 100000
  {
    var a := Abs(v);
    CompactIsOdd(a);
    StartUnitRange(a);
    if Carries(a) {
      CarryShowsOne(a);
    } else {
      NoCarry(a);
    }
  }

  // ---------------------------------------------------------------------------------------------
  // Monotonicity.
  // ---------------------------------------------------------------------------------------------

  /** The displayed quantity lies between the powers of 1000 around the value. */
  lemma QuantityBetweenUnits(a: real)
    requires a >= 1000.0
    ensures var u := StartUnit(a);
            Unit(u) <= Quantity(Compact(a)) && (u < LAST_UNIT ==> Quantity(Compact(a)) <= Unit(u + 1))
  {
    StartUnitRange(a);
    if Carries(a) {
      CarryShowsOne(a);
    } else {
      NoCarry(a);
    }
  }

  lemma SameUnitMonotone(a: real, b: real)
    requires 1000.0 <= a <= b && StartUnit(a) == StartUnit(b)
    ensures Quantity(Compact(a)) <= Quantity(Compact(b))
  {
    var u := StartUnit(a);
    StartUnitRange(a);
    DivideMonotone(a, b, u);
    RoundMonotone(a / Unit(u), b / Unit(u));
    if Carries(b) {
      CarryShowsOne(b);
      QuantityBetweenUnits(a);
    } else {
      NoCarry(a);
      NoCarry(b);
      QuantityMonotone(Hundredths(a / Unit(u)), Hundredths(b / Unit(u)), u);
    }
  }

  lemma DivideMonotone(a: real, b: real, u: nat)
    requires a <= b
    ensures a / Unit(u) <= b / Unit(u)
  {
  }

  lemma MonotoneFromZero(a: real, b: real)
    requires 0.0 <= a <= b
    ensures 0.0 <= Quantity(Compact(a)) <= Quantity(Compact(b))
  {
    RoundMonotone(0.0, a);
    if b < 1000.0 {
      RoundMonotone(a, b);
    } else if a < 1000.0 {
      RoundMonotone(a, 1000.0);
      StartUnitRange(b);
      QuantityBetweenUnits(b);
    } else {
      StartUnitRange(a);
      StartUnitRange(b);
      QuantityBetweenUnits(a);
      QuantityBetweenUnits(b);
      if StartUnit(a) == StartUnit(b) {
        SameUnitMonotone(a, b);
      }
    }
  }

  lemma QuantityIsOdd(v: real)
    ensures Quantity(Compact(-v)) == -Quantity(Compact(v))
  {
    CompactIsOdd(v);
    QuantityOfNegative(Compact(v).hundredths, Compact(v).unit);
  }

  /** Main result: a larger value never shows as a smaller quantity, across units, carries and signs. */
  lemma CompactIsMonotone(a: real, b: real)
    requires a <= b
    ensures Quantity(Compact(a)) <= Quantity(Compact(b))
  {
    if a >= 0.0 {
      MonotoneFromZero(a, b);
    } else if b <= 0.0 {
      MonotoneFromZero(-b, -a);
      QuantityIsOdd(-a);
      QuantityIsOdd(-b);
    } else {
      MonotoneFromZero(0.0, b);
      MonotoneFromZero(0.0, -a);
      QuantityIsOdd(-a);
    }
  }
}
