/** The damped-spring number animation (`useSpringNumber`), over exact reals. */
module Spring {

  /** The hook's tuning options; the defaults are stiffness 100, damping 18, mass 1. */
  datatype Options = Options(stiffness: real, damping: real, mass: real)

  const DEFAULTS := Options(100.0, 18.0, 1.0)

  /** The refs `current` and `velocity`, the React state `display`, and whether a frame is requested. */
  datatype Motion = Motion(current: real, velocity: real, display: real, moving: bool)

  function Round(x: real): real { (x + 0.5).Floor as real }

  predicate Within(x: real, bound: real) { -bound < x < bound }

  /** The velocity and position that one frame computes before its exit test. */
  function NextVelocity(o: Options, target: real, m: Motion): real
    requires o.mass != 0.0
  {
    m.velocity + (-o.stiffness * (m.current - target) + -o.damping * m.velocity) / o.mass / 60.0
  }

  function NextPosition(o: Options, target: real, m: Motion): real
    requires o.mass != 0.0
  {
    m.current + NextVelocity(o, target, m) / 60.0
  }

  predicate Arrived(o: Options, target: real, m: Motion)
    requires o.mass != 0.0
  {
    Within(NextPosition(o, target, m) - target, 0.5) && Within(NextVelocity(o, target, m), 0.5)
  }

  /** One animation frame; a motion that has no frame requested stays as it is. */
  function Frame(o: Options, target: real, m: Motion): Motion
    requires o.mass != 0.0
  {
    if !m.moving then m
    else if Arrived(o, target, m) then Motion(target, 0.0, target, false)
    else
      var x := NextPosition(o, target, m);
      Motion(x, NextVelocity(o, target, m), Round(x), true)
  }

  function Frames(o: Options, target: real, m: Motion, n: nat): Motion
    requires o.mass != 0.0
    decreases n
  {
    if n == 0 then m else Frames(o, target, Frame(o, target, m), n - 1)
  }

  /** The retargeting effect: position and velocity are kept, a frame is requested. */
  function Retarget(m: Motion): Motion { m.(moving := true) }

  predicate AtRest(m: Motion, target: real) {
    m == Motion(target, 0.0, target, false)
  }

  lemma {:induction false} FramesAdd(o: Options, target: real, m: Motion, i: nat, j: nat)
    requires o.mass != 0.0
    ensures Frames(o, target, m, i + j) == Frames(o, target, Frames(o, target, m, i), j)
    decreases i
  {
    if i > 0 {
      FramesAdd(o, target, Frame(o, target, m), i - 1, j);
    }
  }

  // ---------------------------------------------------------------------------------------------
  // Dimensionless form.  With x = current - target and w = velocity / 60, a frame is
  //   w' = d*w - k*x,   x' = x + w'
  // where d = 1 - damping/(60*mass) and k = stiffness/(3600*mass).
  // ---------------------------------------------------------------------------------------------

  function Damp(o: Options): real requires o.mass != 0.0 { 1.0 - o.damping / o.mass / 60.0 }

  function Stiff(o: Options): real requires o.mass != 0.0 { o.stiffness / o.mass / 3600.0 }

  /** A deviation from the target: x the offset, w the velocity per frame. */
  datatype Dev = Dev(x: real, w: real)

  function DevOf(m: Motion, target: real): Dev { Dev(m.current - target, m.velocity / 60.0) }

  function Push(k: real, d: real, s: Dev): Dev {
    var w := d * s.w - k * s.x;
    Dev(s.x + w, w)
  }

  lemma DivideProduct(a: real, b: real, c: real)
    requires c != 0.0
    ensures a * b / c == a / c * b
  {
  }

  lemma DivideSum(a: real, b: real, c: real)
    requires c != 0.0
    ensures (a + b) / c == a / c + b / c
  {
  }

  lemma FrameIsPush(o: Options, target: real, m: Motion)
    requires o.mass != 0.0
    ensures Dev(NextPosition(o, target, m) - target, NextVelocity(o, target, m) / 60.0)
         == Push(Stiff(o), Damp(o), DevOf(m, target))
  {
    var x, v := m.current - target, m.velocity;
    DivideSum(-o.stiffness * x, -o.damping * v, o.mass);
    DivideProduct(-o.stiffness, x, o.mass);
    DivideProduct(-o.damping, v, o.mass);
    assert -o.stiffness / o.mass == -(o.stiffness / o.mass);
    assert -o.damping / o.mass == -(o.damping / o.mass);
    var k, d := o.stiffness / o.mass, o.damping / o.mass;
    assert NextVelocity(o, target, m) == v + (-k * x + -d * v) / 60.0;
    var s := DevOf(m, target);
    assert NextVelocity(o, target, m) / 60.0 == s.w - k / 3600.0 * x - d / 60.0 * s.w;
  }

  // ---------------------------------------------------------------------------------------------
  // An energy that every frame multiplies by exactly d.
  // ---------------------------------------------------------------------------------------------

  function Term(f: real, x: real, y: real): real { f * x * y }

  function Energy(k: real, d: real, s: Dev): real {
    Term(k, s.x, s.x) + Term(1.0 - d - k, s.x, s.w) + Term(d, s.w, s.w)
  }

  lemma FormScales(k: real, d: real, e: real, x: real, w: real, u: real, y: real)
    requires e == 1.0 - d - k && u == d * w - k * x && y == x + u
    ensures k * y * y + e * y * u + d * u * u == d * (k * x * x + e * x * w + d * w * w)
  {
    calc {
      k * y * y + e * y * u + d * u * u;
      y * (k * y + e * u) + d * u * u;
      { assert k * y + e * u == d * (w - u) by { assert k * y == k * x + k * u; } }
      y * (d * (w - u)) + d * u * u;
      d * (y * (w - u) + u * u);
      { assert y * (w - u) + u * u == x * w + u * (w - x) by { assert y * (w - u) == x * w - x * u + u * w - u * u; } }
      d * (x * w + u * (w - x));
      { assert u * (w - x) == d * w * w - d * x * w - k * x * w + k * x * x; }
      d * (k * x * x + e * x * w + d * w * w);
    }
  }

  /** Every frame multiplies the energy by exactly 1 - damping/(60*mass). */
  lemma EnergyScales(k: real, d: real, s: Dev)
    ensures Energy(k, d, Push(k, d, s)) == d * Energy(k, d, s)
  {
    FormScales(k, d, 1.0 - d - k, s.x, s.w, Push(k, d, s).w, Push(k, d, s).x);
  }

  // ---------------------------------------------------------------------------------------------
  // Convergence.  The potential never grows, and two frames together lower it by a fixed part.
  // ---------------------------------------------------------------------------------------------

  /** The option region in which every animation ends. */
  predicate Stable(k: real, d: real) { -1.0 < d < 1.0 && 0.0 < k < 2.0 + 2.0 * d }

  function Potential(k: real, d: real, s: Dev): real {
    (1.0 + d) * (s.x * s.x + (s.x - s.w) * (s.x - s.w)) - 2.0 * (1.0 + d - k) * s.x * (s.x - s.w)
  }

  /** What a frame with neighbouring velocities summing to p takes from the potential. */
  function Loss(d: real, p: real): real { (1.0 - d) * (p * p) }

  function Sum(k: real, d: real, s: Dev): real { s.w + Push(k, d, s).w }

  lemma PotentialDrops(k: real, d: real, s: Dev)
    ensures Potential(k, d, Push(k, d, s)) == Potential(k, d, s) - Loss(d, Sum(k, d, s))
  {
    // With a, c, e the offsets of three successive frames, the difference of potentials factors.
    var c, a := s.x, s.x - s.w;
    var e := Push(k, d, s).x;
    var t := 1.0 + d - k;
    assert e == t * c - d * a;
    assert Potential(k, d, s) == (1.0 + d) * (c * c + a * a) - 2.0 * t * c * a;
    assert Potential(k, d, Push(k, d, s)) == (1.0 + d) * (e * e + c * c) - 2.0 * t * e * c;
    assert s.w + Push(k, d, s).w == e - a;
    assert (1.0 + d) * (e + a) - 2.0 * t * c == -(1.0 - d) * (e - a) by {
      assert t * c == e + d * a;
    }
    var p := e - a;
    assert Potential(k, d, Push(k, d, s)) - Potential(k, d, s)
        == (1.0 + d) * (e * e - a * a) - 2.0 * t * c * p;
    assert (1.0 + d) * (e * e - a * a) == (1.0 + d) * (e + a) * p;
    assert (1.0 + d) * (e + a) * p - 2.0 * t * c * p == ((1.0 + d) * (e + a) - 2.0 * t * c) * p;
  }

  lemma SquareNonNegative(a: real) ensures a * a >= 0.0 { }

  lemma ScaleMonotone(f: real, a: real, b: real)
    requires f >= 0.0 && a <= b
    ensures f * a <= f * b
  {
  }

  lemma PotentialNonNegative(k: real, d: real, s: Dev)
    requires Stable(k, d)
    ensures Potential(k, d, s) >= 0.0
  {
    var c, a := s.x, s.x - s.w;
    var t := 1.0 + d - k;
    var q := c * c + a * a;
    assert Potential(k, d, s) == (1.0 + d) * q - 2.0 * t * (c * a);
    SquareNonNegative(c);
    SquareNonNegative(a);
    SquareNonNegative(c - a);
    SquareNonNegative(c + a);
    assert (c - a) * (c - a) == q - 2.0 * (c * a);
    assert (c + a) * (c + a) == q + 2.0 * (c * a);
    FormNonNegative(1.0 + d, t, q, 2.0 * (c * a));
  }

  lemma FormNonNegative(f: real, t: real, q: real, r: real)
    requires -f <= t <= f && -q <= r <= q
    ensures f * q - t * r >= 0.0
  {
    calc <= {
      t * r;
      { if t >= 0.0 { ScaleMonotone(t, r, q); } else { ScaleMonotone(-t, -r, q); } }
      (if t >= 0.0 then t else -t) * q;
      { ScaleMonotone(q, if t >= 0.0 then t else -t, f); }
      f * q;
    }
  }

  function Spread(k: real, d: real): real { k * (2.0 + 2.0 * d - k) }

  lemma SpreadRange(k: real, d: real)
    requires Stable(k, d)
    ensures 0.0 < Spread(k, d) <= 4.0
  {
    var f := 2.0 + 2.0 * d - k;
    ProductRange(k, f);
    assert Spread(k, d) == k * f;
  }

  lemma SpreadIsDifference(k: real, d: real)
    ensures Spread(k, d) == (1.0 + d) * (1.0 + d) - (1.0 + d - k) * (1.0 + d - k)
  {
  }

  lemma ProductRange(k: real, f: real)
    requires 0.0 < k && 0.0 < f && k + f <= 4.0
    ensures 0.0 < k * f <= 4.0
  {
    SquareNonNegative(k - f);
    SquareAtMost(k + f, 4.0);
  }

  /** With p and q the sums of neighbouring velocities, the offsets c and a solve a linear system. */
  lemma SolveForC(t: real, d: real, c: real, a: real)
    ensures var e := t * c - d * a;
            ((1.0 + d) * (1.0 + d) - t * t) * c
            == (t * d) * (e - a) + (-(1.0 + d)) * (t * e - (1.0 + d) * c)
  {
    var e := t * c - d * a;
    assert e - a == t * c - (1.0 + d) * a;
    assert (t * d) * (e - a) == t * d * t * c - t * d * (1.0 + d) * a;
    assert (1.0 + d) * (t * e) == (1.0 + d) * t * t * c - (1.0 + d) * t * d * a;
    assert t * d * (1.0 + d) * a == (1.0 + d) * t * d * a;
    assert t * d * t * c - (1.0 + d) * t * t * c == -(t * t) * c;
  }

  lemma SolveForA(t: real, d: real, c: real, a: real)
    ensures var e := t * c - d * a;
            ((1.0 + d) * (1.0 + d) - t * t) * a
            == (t * t - 1.0 - d) * (e - a) + (-t) * (t * e - (1.0 + d) * c)
  {
    var e := t * c - d * a;
    assert e - a == t * c - (1.0 + d) * a;
    assert (t * t - 1.0 - d) * (e - a) == (t * t - 1.0 - d) * t * c - (t * t - 1.0 - d) * (1.0 + d) * a;
    assert t * (t * e) == t * t * t * c - t * t * d * a;
    assert (t * t - 1.0 - d) * t * c - t * t * t * c + t * (1.0 + d) * c == 0.0;
    assert -(t * t - 1.0 - d) * (1.0 + d) * a + t * t * d * a == ((1.0 + d) * (1.0 + d) - t * t) * a;
  }

  lemma SquareAtMost(a: real, bound: real)
    requires -bound <= a <= bound
    ensures a * a <= bound * bound
  {
    assert (bound - a) * (bound + a) >= 0.0;
  }

  lemma CoefficientBounds(t: real, d: real)
    requires -1.0 < d < 1.0 && -(1.0 + d) < t < 1.0 + d
    ensures -2.0 <= t * d <= 2.0
    ensures -4.0 <= t * t - 1.0 - d <= 4.0
  {
    SquareNonNegative(t);
    SquareAtMost(t, 2.0);
    ProductWithin(t, 2.0, d, 1.0);
  }

  lemma ProductWithin(a: real, bound: real, p: real, e: real)
    requires -bound <= a <= bound && -e <= p <= e
    ensures -(bound * e) <= a * p <= bound * e
  {
    FormNonNegative(bound, a, e, p);
    FormNonNegative(bound, a, e, -p);
  }

  lemma QuotientWithin(z: real, c: real, f: real, g: real, p: real, q: real, bound: real, e: real)
    requires -bound <= f <= bound && -bound <= g <= bound
    requires -e <= p <= e && -e <= q <= e
    requires 0.0 < z && z * c == f * p + g * q && e * 4000.0 == z
    ensures -(bound / 2000.0) <= c <= bound / 2000.0
  {
    ProductWithin(f, bound, p, e);
    ProductWithin(g, bound, q, e);
    var h, t := bound / 2000.0, bound * e;
    TwoParts(bound, e, z, h, t);
    assert -(z * h) <= z * c <= z * h;
    CancelFactor(z, c, h);
    CancelFactor(z, -h, c);
  }

  lemma TwoParts(bound: real, e: real, z: real, h: real, t: real)
    requires h == bound / 2000.0 && t == bound * e && z == e * 4000.0
    ensures z * h == t + t && z * -h == -(z * h)
  {
  }

  lemma CancelFactor(z: real, a: real, b: real)
    requires 0.0 < z && z * a <= z * b
    ensures a <= b
  {
  }

  lemma OffsetC(t: real, d: real, c: real, a: real, z: real, p: real, q: real) returns (f: real, g: real)
    requires -1.0 < d < 1.0 && -(1.0 + d) < t < 1.0 + d
    requires z == (1.0 + d) * (1.0 + d) - t * t
    requires p == t * c - d * a - a && q == t * (t * c - d * a) - (1.0 + d) * c
    ensures -4.0 <= f <= 4.0 && -4.0 <= g <= 4.0 && z * c == f * p + g * q
  {
    f, g := t * d, -(1.0 + d);
    CoefficientBounds(t, d);
    SolveForC(t, d, c, a);
  }

  lemma OffsetA(t: real, d: real, c: real, a: real, z: real, p: real, q: real) returns (f: real, g: real)
    requires -1.0 < d < 1.0 && -(1.0 + d) < t < 1.0 + d
    requires z == (1.0 + d) * (1.0 + d) - t * t
    requires p == t * c - d * a - a && q == t * (t * c - d * a) - (1.0 + d) * c
    ensures -4.0 <= f <= 4.0 && -4.0 <= g <= 4.0 && z * a == f * p + g * q
  {
    f, g := t * t - 1.0 - d, -t;
    CoefficientBounds(t, d);
    SolveForA(t, d, c, a);
  }

  /** Two small sums of neighbouring velocities force both of the last two offsets to be small. */
  lemma SmallSumsSmallOffsets(t: real, d: real, c: real, a: real, z: real, p: real, q: real)
    requires -1.0 < d < 1.0 && -(1.0 + d) < t < 1.0 + d
    requires 0.0 < z == (1.0 + d) * (1.0 + d) - t * t
    requires p == t * c - d * a - a && q == t * (t * c - d * a) - (1.0 + d) * c
    requires -z <= 4000.0 * p <= z && -z <= 4000.0 * q <= z
    ensures -0.002 <= c <= 0.002 && -0.002 <= a <= 0.002
  {
    var f, g := OffsetC(t, d, c, a, z, p, q);
    QuotientWithin(z, c, f, g, p, q, 4.0, z / 4000.0);
    var f', g' := OffsetA(t, d, c, a, z, p, q);
    QuotientWithin(z, a, f', g', p, q, 4.0, z / 4000.0);
  }

  /** The two sums, in terms of the last two offsets c and a. */
  lemma SumsOfOffsets(k: real, d: real, s: Dev)
    ensures var c, a, t := s.x, s.x - s.w, 1.0 + d - k;
            && Sum(k, d, s) == t * c - d * a - a
            && Sum(k, d, Push(k, d, s)) == t * (t * c - d * a) - (1.0 + d) * c
  {
    var c, a, t := s.x, s.x - s.w, 1.0 + d - k;
    var e := t * c - d * a;
    var s1 := Push(k, d, s);
    assert s1.w == e - c by { assert d * s.w == d * c - d * a; }
    assert s1.x == e;
    assert Push(k, d, s1).w == d * (e - c) - k * e;
    assert t * e == (1.0 + d) * e - k * e;
  }

  predicate Near(s: Dev) { Within(s.x, 0.5) && Within(60.0 * s.w, 0.5) }

  /** The loss of a pair of frames that does not arrive is at least this. */
  function Quantum(k: real, d: real): real { Loss(d, Spread(k, d) / 4000.0) }

  lemma LossGrows(d: real, p: real, e: real)
    requires d < 1.0 && 0.0 <= e && (p <= -e || e <= p)
    ensures Loss(d, p) >= Loss(d, e) >= 0.0
  {
    var b := if p >= 0.0 then p else -p;
    calc >= {
      p * p;
      b * b;
      { ScaleMonotone(b, e, b); }
      b * e;
      { ScaleMonotone(e, e, b); }
      e * e;
    }
    SquareNonNegative(e);
    ScaleMonotone(1.0 - d, e * e, p * p);
    ScaleMonotone(1.0 - d, 0.0, e * e);
  }

  lemma LossPositive(d: real, e: real)
    requires d < 1.0 && e > 0.0
    ensures Loss(d, e) > 0.0
  {
    PositiveProduct(e, e, e * e);
    PositiveProduct(1.0 - d, e * e, Loss(d, e));
  }

  lemma PositiveProduct(a: real, b: real, c: real)
    requires a > 0.0 && b > 0.0 && c == a * b
    ensures c > 0.0
  {
  }

  /** A frame that does not arrive belongs to a pair of frames one of which drops the potential. */
  lemma NotNearMeansLoss(k: real, d: real, s: Dev)
    requires Stable(k, d) && !Near(Push(k, d, s))
    ensures Loss(d, Sum(k, d, s)) >= Quantum(k, d) || Loss(d, Sum(k, d, Push(k, d, s))) >= Quantum(k, d)
  {
    var z, p, q := Spread(k, d), Sum(k, d, s), Sum(k, d, Push(k, d, s));
    SpreadRange(k, d);
    if -z <= 4000.0 * p <= z && -z <= 4000.0 * q <= z {
      SumsOfOffsets(k, d, s);
      SpreadIsDifference(k, d);
      SmallSumsSmallOffsets(1.0 + d - k, d, s.x, s.x - s.w, z, p, q);
      assert false;
    } else if -z <= 4000.0 * p <= z {
      LossGrows(d, q, z / 4000.0);
    } else {
      LossGrows(d, p, z / 4000.0);
    }
  }

  lemma TwoFramesDrop(k: real, d: real, s: Dev)
    requires Stable(k, d) && !Near(Push(k, d, s))
    ensures Potential(k, d, Push(k, d, Push(k, d, s))) <= Potential(k, d, s) - Quantum(k, d)
  {
    PotentialDrops(k, d, s);
    PotentialDrops(k, d, Push(k, d, s));
    NotNearMeansLoss(k, d, s);
    LossGrows(d, Sum(k, d, s), 0.0);
    LossGrows(d, Sum(k, d, Push(k, d, s)), 0.0);
  }

  // ---------------------------------------------------------------------------------------------
  // From deviations back to animations.
  // ---------------------------------------------------------------------------------------------

  /** The options for which every animation ends, in the caller's own terms. */
  predicate Damped(o: Options)
    requires o.mass != 0.0
  {
    && 0.0 < o.damping / o.mass < 120.0
    && 0.0 < o.stiffness / o.mass
    && o.stiffness / o.mass + 120.0 * (o.damping / o.mass) < 14400.0
  }

  lemma ArrivedIsNear(o: Options, target: real, m: Motion)
    requires o.mass != 0.0
    ensures Arrived(o, target, m) <==> Near(Push(Stiff(o), Damp(o), DevOf(m, target)))
  {
    FrameIsPush(o, target, m);
  }

  lemma FrameMoves(o: Options, target: real, m: Motion)
    requires o.mass != 0.0 && m.moving && !Arrived(o, target, m)
    ensures Frame(o, target, m).moving
    ensures DevOf(Frame(o, target, m), target) == Push(Stiff(o), Damp(o), DevOf(m, target))
  {
    FrameIsPush(o, target, m);
  }

  function Times(n: nat, u: real): real
    decreases n
  {
    if n == 0 then 0.0 else u + Times(n - 1, u)
  }

  lemma {:induction false} TimesIsProduct(n: nat, u: real)
    ensures Times(n, u) == n as real * u
    decreases n
  {
    if n > 0 {
      TimesIsProduct(n - 1, u);
      assert n as real == 1.0 + (n - 1) as real;
    }
  }

  /** Two frames that do not arrive use up one unit of the budget. */
  lemma OneQuantumLess(k: real, d: real, s: Dev, budget: nat)
    requires Stable(k, d) && !Near(Push(k, d, s)) && Potential(k, d, s) <= Times(budget, Quantum(k, d))
    ensures budget > 0
    ensures Potential(k, d, Push(k, d, Push(k, d, s))) <= Times(budget - 1, Quantum(k, d))
  {
    TwoFramesDrop(k, d, s);
    PotentialNonNegative(k, d, Push(k, d, Push(k, d, s)));
    SpreadRange(k, d);
    LossPositive(d, Spread(k, d) / 4000.0);
  }

  /** A moving animation comes to rest: the potential pays for every two further frames. */
  lemma SettlesOnBudget(o: Options, target: real, m: Motion, budget: nat) returns (n: nat)
    requires o.mass != 0.0 && Damped(o) && m.moving
    requires Potential(Stiff(o), Damp(o), DevOf(m, target)) <= Times(budget, Quantum(Stiff(o), Damp(o)))
    ensures n <= 2 * budget + 2 && AtRest(Frames(o, target, m, n), target)
    decreases budget
  {
    var k, d, s := Stiff(o), Damp(o), DevOf(m, target);
    var m1 := Frame(o, target, m);
    if Arrived(o, target, m) {
      assert Frames(o, target, m, 1) == Frames(o, target, m1, 0);
      return 1;
    }
    FrameMoves(o, target, m);
    var m2 := Frame(o, target, m1);
    assert Frames(o, target, m, 2) == Frames(o, target, m1, 1) == Frames(o, target, m2, 0);
    if Arrived(o, target, m1) {
      return 2;
    }
    FrameMoves(o, target, m1);
    ArrivedIsNear(o, target, m);
    OneQuantumLess(k, d, s, budget);
    var n' := SettlesOnBudget(o, target, m2, budget - 1);
    n := n' + 2;
    FramesAdd(o, target, m, 2, n');
  }

  lemma Archimedes(v: real, u: real) returns (n: nat)
    requires v >= 0.0 && u > 0.0
    ensures v <= Times(n, u)
  {
    var r := v / u;
    assert r * u == v;
    assert r >= 0.0 by { if r < 0.0 { PositiveProduct(-r, u, -v); assert false; } }
    n := r.Floor + 1;
    ScaleMonotone(u, r, n as real);
    TimesIsProduct(n, u);
  }

  /** Termination: with damped options every animation ends, from any position, velocity and target. */
  lemma Settles(o: Options, target: real, m: Motion) returns (n: nat)
    requires o.mass != 0.0 && Damped(o) && m.moving
    ensures AtRest(Frames(o, target, m, n), target)
  {
    var k, d, s := Stiff(o), Damp(o), DevOf(m, target);
    PotentialNonNegative(k, d, s);
    SpreadRange(k, d);
    LossPositive(d, Spread(k, d) / 4000.0);
    var budget := Archimedes(Potential(k, d, s), Quantum(k, d));
    n := SettlesOnBudget(o, target, m, budget);
  }

  // ---------------------------------------------------------------------------------------------
  // Outside that region some animation never ends.
  // ---------------------------------------------------------------------------------------------

  function Abs(x: real): real { if x < 0.0 then -x else x }

  /** A pair of successive offsets (after a change of signs) that the recurrence never shrinks. */
  predicate Growing(d: real, c: real, a: real) {
    if d >= 0.0 then c >= 1.0 && a <= c else c >= 0.0 && a >= 0.0 && c - d * a >= 2.0
  }

  function Next(t: real, d: real, c: real, a: real): real { t * c - d * a }

  lemma PushIsNext(k: real, d: real, s: Dev)
    ensures Push(k, d, s).x == Next(1.0 + d - k, d, s.x, s.x - s.w)
    ensures Push(k, d, s).x - Push(k, d, s).w == s.x
  {
    assert d * (s.x - s.w) == d * s.x - d * s.w;
    assert (1.0 + d - k) * s.x == s.x + d * s.x - k * s.x;
  }

  lemma NextFlip(t: real, d: real, c: real, a: real)
    ensures Next(-t, d, c, -a) == -Next(t, d, c, a)
    ensures Next(-t, d, -c, a) == Next(t, d, c, a)
  {
  }

  lemma NextAtLeast(t: real, d: real, c: real, a: real)
    requires c >= 0.0 && t >= 1.0 + d
    ensures Next(t, d, c, a) >= c + Next(d, d, c, a)
  {
    ScaleMonotone(c, 1.0 + d, t);
    assert (1.0 + d) * c == c + d * c;
  }

  lemma SameSign(d: real, c: real, a: real)
    ensures d >= 0.0 && a <= c ==> Next(d, d, c, a) >= 0.0
    ensures -1.0 < d < 0.0 && a >= 0.0 && c >= 0.0 ==> c + Next(d, d, c, a) >= 0.0
    ensures c + Next(d, d, c, a) - d * c == c - d * a
  {
    if d >= 0.0 && a <= c {
      ScaleMonotone(d, a, c);
    }
    if -1.0 < d < 0.0 && a >= 0.0 && c >= 0.0 {
      ScaleMonotone(-d, 0.0, a);
      ScaleMonotone(c, 0.0, 1.0 + d);
    }
  }

  lemma GrowingStep(t: real, d: real, c: real, a: real)
    requires -1.0 < d < 1.0 && t >= 1.0 + d && Growing(d, c, a)
    ensures Growing(d, Next(t, d, c, a), c)
  {
    NextAtLeast(t, d, c, a);
    SameSign(d, c, a);
  }

  /** The deviations from which no frame ever arrives, case by case outside the stable region. */
  predicate Escaping(k: real, d: real, s: Dev) {
    if k == 0.0 && s.w == 0.0 then s.x >= 1.0
    else if d <= -1.0 || 1.0 <= d then Abs(Energy(k, d, s)) > Abs(k) + Abs(1.0 - d - k) + Abs(d)
    else if k <= 0.0 then Growing(d, s.x, s.x - s.w)
    else Growing(d, s.x, s.w - s.x) || Growing(d, -s.x, s.x - s.w)
  }

  lemma TermWithin(f: real, x: real, y: real)
    requires -1.0 <= x <= 1.0 && -1.0 <= y <= 1.0
    ensures -Abs(f) <= Term(f, x, y) <= Abs(f)
  {
    ProductWithin(f, Abs(f), x, 1.0);
    ProductWithin(f * x, Abs(f), y, 1.0);
  }

  lemma EnergyBounded(k: real, d: real, s: Dev)
    requires Near(s)
    ensures Abs(Energy(k, d, s)) <= Abs(k) + Abs(1.0 - d - k) + Abs(d)
  {
    TermWithin(k, s.x, s.x);
    TermWithin(1.0 - d - k, s.x, s.w);
    TermWithin(d, s.w, s.w);
  }

  lemma EscapingIsNotNear(k: real, d: real, s: Dev)
    requires !Stable(k, d) && Escaping(k, d, s)
    ensures !Near(s)
  {
    if Near(s) && !(k == 0.0 && s.w == 0.0) {
      if d <= -1.0 || 1.0 <= d {
        EnergyBounded(k, d, s);
      } else if d < 0.0 {
        ProductWithin(d, 1.0, s.x - s.w, 1.0);
      }
    }
  }

  lemma EscapingStays(k: real, d: real, s: Dev)
    requires !Stable(k, d) && Escaping(k, d, s)
    ensures Escaping(k, d, Push(k, d, s))
  {
    if k == 0.0 && s.w == 0.0 {
      assert Push(k, d, s) == s;
    } else if k == 0.0 && Push(k, d, s).w == 0.0 {
      StopsFarAway(d, s);
    } else if d <= -1.0 || 1.0 <= d {
      EnergyScales(k, d, s);
      AbsGrows(d, Energy(k, d, s), Energy(k, d, Push(k, d, s)));
    } else {
      GrowthStays(k, d, s);
    }
  }

  /** Without stiffness, a frame stops a moving number only if it loses its whole velocity, and then in place. */
  lemma StopsFarAway(d: real, s: Dev)
    requires s.w != 0.0 && Escaping(0.0, d, s) && Push(0.0, d, s).w == 0.0
    ensures Push(0.0, d, s).x >= 1.0
  {
    assert d * s.w == 0.0;
    assert d == 0.0;
  }

  lemma GrowthStays(k: real, d: real, s: Dev)
    requires -1.0 < d < 1.0 && (k <= 0.0 || k >= 2.0 + 2.0 * d)
    requires if k <= 0.0 then Growing(d, s.x, s.x - s.w)
             else Growing(d, s.x, s.w - s.x) || Growing(d, -s.x, s.x - s.w)
    ensures var e := Push(k, d, s);
            if k <= 0.0 then Growing(d, e.x, e.x - e.w)
            else Growing(d, e.x, e.w - e.x) || Growing(d, -e.x, e.x - e.w)
  {
    var c, a, t := s.x, s.x - s.w, 1.0 + d - k;
    PushIsNext(k, d, s);
    if k <= 0.0 {
      GrowingStep(t, d, c, a);
    } else if Growing(d, c, -a) {
      GrowingStep(-t, d, c, -a);
      NextFlip(t, d, c, a);
    } else {
      GrowingStep(-t, d, -c, a);
      NextFlip(t, d, c, a);
    }
  }

  lemma AbsGrows(d: real, e: real, f: real)
    requires (d <= -1.0 || 1.0 <= d) && f == d * e
    ensures Abs(f) >= Abs(e)
  {
    assert Abs(f) == Abs(d) * Abs(e);
    ScaleMonotone(Abs(e), 1.0, Abs(d));
  }

  /** From rest, far enough away, where the hook can start: every case but one. */
  lemma EscapeFromRest(k: real, d: real) returns (x: real)
    requires !Stable(k, d) && (k <= 0.0 || d <= -1.0 || 0.0 <= d)
    ensures Escaping(k, d, Dev(x, 0.0))
  {
    if k == 0.0 || -1.0 < d < 1.0 {
      x := 2.0;
    } else {
      var bound := Abs(k) + Abs(1.0 - d - k) + Abs(d);
      x := 1.0 + bound / Abs(k);
      RestEnergy(k, d, x, bound);
    }
  }

  lemma RestEnergy(k: real, d: real, x: real, bound: real)
    requires k != 0.0 && bound >= 0.0 && x == 1.0 + bound / Abs(k)
    ensures Abs(Energy(k, d, Dev(x, 0.0))) > bound
  {
    var f := Abs(k);
    var xx := x * x;
    assert bound / f >= 0.0 by { QuotientNonNegative(bound, f); }
    assert xx >= x by { ScaleMonotone(x, 1.0, x); }
    calc {
      Abs(Energy(k, d, Dev(x, 0.0)));
      { assert Energy(k, d, Dev(x, 0.0)) == k * xx by { assert Term(k, x, x) == k * xx; } }
      Abs(k * xx);
      { AbsOfProduct(k, xx); }
      f * xx;
    >= { ScaleMonotone(f, x, xx); }
      f * x;
      { assert f * (bound / f) == bound; }
      f + bound;
    }
  }

  lemma QuotientNonNegative(a: real, b: real)
    requires a >= 0.0 && b > 0.0
    ensures a / b >= 0.0
  {
  }

  lemma AbsOfProduct(a: real, b: real)
    requires b >= 0.0
    ensures Abs(a * b) == Abs(a) * b
  {
    ScaleMonotone(b, 0.0, Abs(a));
  }

  lemma {:induction false} NeverArrives(o: Options, target: real, m: Motion, n: nat)
    requires o.mass != 0.0 && !Stable(Stiff(o), Damp(o))
    requires m.moving && Escaping(Stiff(o), Damp(o), DevOf(m, target))
    ensures Frames(o, target, m, n).moving
    decreases n
  {
    if n > 0 {
      var k, d, s := Stiff(o), Damp(o), DevOf(m, target);
      EscapingStays(k, d, s);
      EscapingIsNotNear(k, d, Push(k, d, s));
      ArrivedIsNear(o, target, m);
      FrameMoves(o, target, m);
      NeverArrives(o, target, Frame(o, target, m), n - 1);
    }
  }

  /** The animation can end from this start. */
  ghost predicate Ends(o: Options, target: real, m: Motion)
    requires o.mass != 0.0
  {
    exists n: nat :: AtRest(Frames(o, target, m, n), target)
  }

  // ---------------------------------------------------------------------------------------------
  // The default options: exact decay, a frame bound and a bounded excursion.
  // ---------------------------------------------------------------------------------------------

  function DefaultEnergy(target: real, m: Motion): real {
    Energy(Stiff(DEFAULTS), Damp(DEFAULTS), DevOf(m, target))
  }

  lemma DefaultEnergyDominates(target: real, m: Motion)
    ensures var x, w := m.current - target, m.velocity / 60.0;
            && DefaultEnergy(target, m) >= 17.0 / 12960.0 * (x * x) >= 0.0
            && DefaultEnergy(target, m) >= 119.0 / 3600.0 * (w * w) >= 0.0
  {
    var x, w := m.current - target, m.velocity / 60.0;
    SquareNonNegative(x);
    SquareNonNegative(w);
    SquareNonNegative(7.0 * x + 36.0 * w);
    SquareNonNegative(10.0 * x + 49.0 * w);
    assert Stiff(DEFAULTS) == 1.0 / 36.0 && Damp(DEFAULTS) == 0.7;
    assert DefaultEnergy(target, m) == 1.0 / 36.0 * (x * x) + 49.0 / 180.0 * (x * w) + 0.7 * (w * w);
    assert (7.0 * x + 36.0 * w) * (7.0 * x + 36.0 * w) == 49.0 * (x * x) + 504.0 * (x * w) + 1296.0 * (w * w);
    assert (10.0 * x + 49.0 * w) * (10.0 * x + 49.0 * w) == 100.0 * (x * x) + 980.0 * (x * w) + 2401.0 * (w * w);
  }

  /** Each frame either arrives or multiplies the energy by exactly 7/10. */
  lemma DefaultDecay(target: real, m: Motion)
    requires m.moving
    ensures var m' := Frame(DEFAULTS, target, m);
            AtRest(m', target) || (m'.moving && DefaultEnergy(target, m') == 0.7 * DefaultEnergy(target, m))
  {
    if !Arrived(DEFAULTS, target, m) {
      FrameMoves(DEFAULTS, target, m);
      EnergyScales(Stiff(DEFAULTS), Damp(DEFAULTS), DevOf(m, target));
    }
  }

  function Decayed(e: real, n: nat): real
    decreases n
  {
    if n == 0 then e else Decayed(0.7 * e, n - 1)
  }

  /** The animation has ended by frame n as soon as 0.7^n times the starting energy is small. */
  lemma {:induction false} DefaultEndsBy(target: real, m: Motion, n: nat)
    requires m.moving && n > 0
    requires Decayed(DefaultEnergy(target, m), n) < 119.0 / 51840000.0
    ensures AtRest(Frames(DEFAULTS, target, m, n), target)
    decreases n
  {
    var m' := Frame(DEFAULTS, target, m);
    DefaultDecay(target, m);
    if AtRest(m', target) {
      StaysAtRest(DEFAULTS, target, m', n - 1);
    } else if n > 1 {
      DefaultEndsBy(target, m', n - 1);
    } else {
      assert DefaultEnergy(target, m') < 119.0 / 51840000.0;
      LowEnergyIsNear(target, m');
      FrameMoves(DEFAULTS, target, m);
      ArrivedIsNear(DEFAULTS, target, m);
    }
  }

  /** The energy decays below any bound that the exit test needs. */
  lemma DecayReaches(e: real, budget: nat) returns (n: nat)
    requires 0.0 <= e <= Times(budget, 119.0 / 103680000.0)
    ensures n > 0 && Decayed(e, n) < 119.0 / 51840000.0
    decreases budget
  {
    if e < 119.0 / 51840000.0 {
      n := 1;
      assert Decayed(e, 1) == Decayed(0.7 * e, 0);
    } else {
      var n' := DecayReaches(0.7 * (0.7 * e), budget - 1);
      n := n' + 2;
      assert Decayed(e, n) == Decayed(0.7 * e, n - 1) == Decayed(0.7 * (0.7 * e), n - 2);
    }
  }

  /** With the default options every animation ends, from every position, velocity and target. */
  lemma DefaultAlwaysEnds(target: real, m: Motion) returns (n: nat)
    requires m.moving
    ensures AtRest(Frames(DEFAULTS, target, m, n), target)
  {
    DefaultEnergyDominates(target, m);
    var budget := Archimedes(DefaultEnergy(target, m), 119.0 / 103680000.0);
    n := DecayReaches(DefaultEnergy(target, m), budget);
    DefaultEndsBy(target, m, n);
  }

  /** The defaults lie in the region of `EveryRunEndsIffDamped`. */
  lemma DefaultsAreDamped()
    ensures DEFAULTS.mass != 0.0 && Damped(DEFAULTS)
  {
  }

  lemma LowEnergyIsNear(target: real, m: Motion)
    requires DefaultEnergy(target, m) < 119.0 / 51840000.0
    ensures Near(DevOf(m, target))
  {
    var x, w := m.current - target, m.velocity / 60.0;
    DefaultEnergyDominates(target, m);
    SquareSmall(x, 0.5);
    SquareSmall(w, 1.0 / 120.0);
  }

  lemma SquareSmall(a: real, bound: real)
    requires bound > 0.0 && a * a < bound * bound
    ensures Within(a, bound)
  {
    if a >= bound {
      SquareGrows(bound, a);
    } else if -a >= bound {
      SquareGrows(bound, -a);
    }
  }

  lemma SquareGrows(a: real, b: real)
    requires 0.0 <= a <= b
    ensures a * a <= b * b
  {
    calc <= { a * a; { ScaleMonotone(a, a, b); } a * b; { ScaleMonotone(b, a, b); } b * b; }
  }

  lemma {:induction false} StaysAtRest(o: Options, target: real, m: Motion, n: nat)
    requires o.mass != 0.0 && AtRest(m, target)
    ensures Frames(o, target, m, n) == m
    decreases n
  {
    if n > 0 {
      StaysAtRest(o, target, m, n - 1);
    }
  }

  lemma {:induction false} EnergyNeverGrows(target: real, m: Motion, n: nat)
    requires m.moving || AtRest(m, target)
    ensures DefaultEnergy(target, Frames(DEFAULTS, target, m, n)) <= DefaultEnergy(target, m)
    decreases n
  {
    if n > 0 {
      var m' := Frame(DEFAULTS, target, m);
      EnergyNeverGrows(target, m', n - 1);
      DefaultEnergyDominates(target, m);
      if m.moving {
        DefaultDecay(target, m);
      }
    }
  }

  /** From rest, the offset never exceeds sqrt(360/17) times the starting offset, at any frame. */
  lemma ExcursionBounded(target: real, m: Motion, n: nat)
    requires m.moving && m.velocity == 0.0
    ensures var x0, x := m.current - target, Frames(DEFAULTS, target, m, n).current - target;
            x * x <= 360.0 / 17.0 * (x0 * x0)
  {
    var x0, x := m.current - target, Frames(DEFAULTS, target, m, n).current - target;
    EnergyNeverGrows(target, m, n);
    DefaultEnergyDominates(target, Frames(DEFAULTS, target, m, n));
    assert DefaultEnergy(target, m) == 1.0 / 36.0 * (x0 * x0);
  }

  predicate IsWhole(x: real) { x.Floor as real == x }

  /** `Math.round`: the nearest whole number, the larger one on a tie. */
  lemma RoundIsNearest(x: real)
    ensures -0.5 < Round(x) - x <= 0.5 && IsWhole(Round(x))
  {
    assert Round(x) == (x + 0.5).Floor as real;
  }

  /** A frame ends the animation exactly when it comes within a half of the target and of standing still. */
  lemma EndsExactlyWhenClose(o: Options, target: real, m: Motion)
    requires o.mass != 0.0 && m.moving
    ensures var s := Push(Stiff(o), Damp(o), DevOf(m, target));
            Frame(o, target, m).moving <==>
              s.x <= -0.5 || 0.5 <= s.x || 60.0 * s.w <= -0.5 || 0.5 <= 60.0 * s.w
  {
    ArrivedIsNear(o, target, m);
  }

  /** After any frame the displayed number is within a half of the position, and on it once at rest. */
  lemma {:induction false} DisplayTracksPosition(o: Options, target: real, m: Motion, n: nat)
    requires o.mass != 0.0 && m.moving && n > 0
    ensures var m' := Frames(o, target, m, n);
            && -0.5 < m'.display - m'.current <= 0.5
            && (m'.moving ==> IsWhole(m'.display))
            && (!m'.moving ==> AtRest(m', target))
    decreases n
  {
    var m1 := Frame(o, target, m);
    RoundIsNearest(NextPosition(o, target, m));
    if AtRest(m1, target) {
      StaysAtRest(o, target, m1, n - 1);
    } else if n > 1 {
      DisplayTracksPosition(o, target, m1, n - 1);
    }
  }

  // ---------------------------------------------------------------------------------------------
  // Runs that interleave frames with changes of the target.
  // ---------------------------------------------------------------------------------------------

  datatype Event = Tick | NewTarget(target: real)

  datatype Run = Run(target: real, motion: Motion)

  function Apply(o: Options, r: Run, e: Event): Run
    requires o.mass != 0.0
  {
    match e
    case Tick => Run(r.target, Frame(o, r.target, r.motion))
    case NewTarget(t) => Run(t, Retarget(r.motion))
  }

  function ApplyAll(o: Options, r: Run, events: seq<Event>): Run
    requires o.mass != 0.0
    decreases |events|
  {
    if events == [] then r else ApplyAll(o, Apply(o, r, events[0]), events[1..])
  }

  /** What mounting the hook leaves behind: everything at 0 and the first frame requested. */
  function Mounted(target: real): Run { Run(target, Motion(0.0, 0.0, 0.0, true)) }

  function LastTarget(target: real, events: seq<Event>): real
    decreases |events|
  {
    if events == [] then target
    else LastTarget(if events[0].NewTarget? then events[0].target else target, events[1..])
  }

  function Ticks(n: nat): seq<Event> { seq(n, _ => Tick) }

  /** A new target changes nothing of the motion but that it goes on. */
  lemma NewTargetKeepsMotion(o: Options, r: Run, target: real)
    requires o.mass != 0.0
    ensures var r1 := Apply(o, r, NewTarget(target));
            && r1.target == target && r1.motion.moving && r1.motion.current == r.motion.current
            && r1.motion.velocity == r.motion.velocity && r1.motion.display == r.motion.display
  {
  }

  lemma {:induction false} ApplyAllAppend(o: Options, r: Run, a: seq<Event>, b: seq<Event>)
    requires o.mass != 0.0
    ensures ApplyAll(o, r, a + b) == ApplyAll(o, ApplyAll(o, r, a), b)
    decreases |a|
  {
    if a == [] {
      assert a + b == b;
    } else {
      assert (a + b)[1..] == a[1..] + b;
      ApplyAllAppend(o, Apply(o, r, a[0]), a[1..], b);
    }
  }

  lemma {:induction false} TicksAreFrames(o: Options, r: Run, n: nat)
    requires o.mass != 0.0
    ensures ApplyAll(o, r, Ticks(n)) == Run(r.target, Frames(o, r.target, r.motion, n))
    decreases n
  {
    if n > 0 {
      assert Ticks(n)[1..] == Ticks(n - 1);
      TicksAreFrames(o, Apply(o, r, Tick), n - 1);
    }
  }

  lemma {:induction false} RunKeepsTarget(o: Options, r: Run, events: seq<Event>)
    requires o.mass != 0.0 && (r.motion.moving || AtRest(r.motion, r.target))
    ensures var r' := ApplyAll(o, r, events);
            r'.target == LastTarget(r.target, events) && (r'.motion.moving || AtRest(r'.motion, r'.target))
    decreases |events|
  {
    if events != [] {
      RunKeepsTarget(o, Apply(o, r, events[0]), events[1..]);
    }
  }

  /**
   * Whatever frames and target changes came before, once the target stays the animation ends with
   * display and position on the last target and no velocity.
   */
  lemma RunEndsOnLastTarget(o: Options, target: real, events: seq<Event>) returns (n: nat)
    requires o.mass != 0.0 && Damped(o)
    ensures ApplyAll(o, Mounted(target), events + Ticks(n))
         == Run(LastTarget(target, events), Motion(LastTarget(target, events), 0.0, LastTarget(target, events), false))
  {
    var r := ApplyAll(o, Mounted(target), events);
    RunKeepsTarget(o, Mounted(target), events);
    if r.motion.moving {
      n := Settles(o, r.target, r.motion);
    } else {
      n := 0;
    }
    ApplyAllAppend(o, Mounted(target), events, Ticks(n));
    TicksAreFrames(o, r, n);
  }

  /** The hook, mounted with a target and then driven by these events, comes to rest if left alone. */
  ghost predicate RunEnds(o: Options, target: real, events: seq<Event>)
    requires o.mass != 0.0
  {
    exists n: nat :: !ApplyAll(o, Mounted(target), events + Ticks(n)).motion.moving
  }

  lemma StillMoving(o: Options, target: real, events: seq<Event>, n: nat)
    requires o.mass != 0.0 && !Stable(Stiff(o), Damp(o))
    requires var r := ApplyAll(o, Mounted(target), events);
             r.motion.moving && Escaping(Stiff(o), Damp(o), DevOf(r.motion, r.target))
    ensures ApplyAll(o, Mounted(target), events + Ticks(n)).motion.moving
  {
    var r := ApplyAll(o, Mounted(target), events);
    ApplyAllAppend(o, Mounted(target), events, Ticks(n));
    TicksAreFrames(o, r, n);
    NeverArrives(o, r.target, r.motion, n);
  }

  /** The first frame towards the target 4/k throws the number to 4, moving on at 4 per frame. */
  lemma FirstThrow(o: Options)
    requires o.mass != 0.0 && Stiff(o) > 0.0
    ensures var m := Frame(o, 4.0 / Stiff(o), Mounted(4.0 / Stiff(o)).motion);
            m.moving && m.current == 4.0 && m.velocity == 240.0
  {
    var k, target := Stiff(o), 4.0 / Stiff(o);
    var m := Mounted(target).motion;
    FrameIsPush(o, target, m);
    assert k * target == 4.0;
    assert Push(k, Damp(o), Dev(-target, 0.0)) == Dev(4.0 - target, 4.0);
    assert NextVelocity(o, target, m) == 240.0;
  }

  /**
   * A run that never ends, for any options outside the damped region: a first target far enough away,
   * or, in one case, a second target given after the first frame.
   */
  lemma UndampedRun(o: Options) returns (target: real, events: seq<Event>)
    requires o.mass != 0.0 && !Stable(Stiff(o), Damp(o))
    ensures var r := ApplyAll(o, Mounted(target), events);
            r.motion.moving && Escaping(Stiff(o), Damp(o), DevOf(r.motion, r.target))
  {
    var k, d := Stiff(o), Damp(o);
    if k <= 0.0 || d <= -1.0 || 0.0 <= d {
      var x := EscapeFromRest(k, d);
      target, events := -x, [];
      assert DevOf(Mounted(target).motion, target) == Dev(x, 0.0);
    } else {
      target, events := 4.0 / k, [Tick, NewTarget(2.0)];
      FirstThrow(o);
      var r1 := Apply(o, Mounted(target), Tick);
      var r2 := Apply(o, r1, NewTarget(2.0));
      assert events[1..] == [NewTarget(2.0)] && [NewTarget(2.0)][1..] == [];
      assert ApplyAll(o, Mounted(target), events) == ApplyAll(o, r1, [NewTarget(2.0)]) == ApplyAll(o, r2, []);
      assert DevOf(r2.motion, r2.target) == Dev(2.0, 4.0);
    }
  }

  lemma DampedIsStable(o: Options)
    requires o.mass != 0.0
    ensures Damped(o) <==> Stable(Stiff(o), Damp(o))
  {
  }

  /**
   * Main result: the hook comes to rest after every run, whatever targets it was given and when, if and
   * only if its options are damped.
   */
  lemma EveryRunEndsIffDamped(o: Options)
    requires o.mass != 0.0
    ensures Damped(o) <==> forall target: real, events: seq<Event> :: RunEnds(o, target, events)
  {
    DampedIsStable(o);
    if Damped(o) {
      forall target: real, events: seq<Event> ensures RunEnds(o, target, events) {
        var n := RunEndsOnLastTarget(o, target, events);
      }
    } else {
      var target, events := UndampedRun(o);
      forall n: nat ensures ApplyAll(o, Mounted(target), events + Ticks(n)).motion.moving {
        StillMoving(o, target, events, n);
      }
      assert !RunEnds(o, target, events);
    }
  }

  /** The same over all motions, reachable or not: every animation ends if and only if it is damped. */
  lemma EveryAnimationEndsIffDamped(o: Options)
    requires o.mass != 0.0
    ensures Damped(o) <==> forall target: real, m: Motion :: m.moving ==> Ends(o, target, m)
  {
    DampedIsStable(o);
    if Damped(o) {
      forall target: real, m: Motion | m.moving ensures Ends(o, target, m) {
        var n := Settles(o, target, m);
      }
    } else {
      var target, events := UndampedRun(o);
      var r := ApplyAll(o, Mounted(target), events);
      forall n: nat ensures !AtRest(Frames(o, r.target, r.motion, n), r.target) {
        NeverArrives(o, r.target, r.motion, n);
      }
      assert !Ends(o, r.target, r.motion);
    }
  }

  // ---------------------------------------------------------------------------------------------
  // The hook itself.
  // ---------------------------------------------------------------------------------------------

  class SpringNumber {
    const options: Options
    const reducedMotion: bool
    var target: real
    var velocity: real
    var current: real
    var display: real
    /** A frame callback is requested (`rafId`). */
    var scheduled: bool

    ghost function State(): Motion
      reads this
    {
      Motion(current, velocity, display, scheduled)
    }

    constructor (target: real, options: Options, reducedMotion: bool)
      ensures this.target == target && this.options == options && this.reducedMotion == reducedMotion
      ensures reducedMotion ==> AtRest(State(), target)
      ensures !reducedMotion ==> Run(target, State()) == Mounted(target)
      ensures !reducedMotion ==> current == 0.0 && velocity == 0.0 && display == 0.0 && scheduled
    {
      this.target, this.options, this.reducedMotion := target, options, reducedMotion;
      var start := if reducedMotion then target else 0.0;
      display, velocity, current := start, 0.0, start;
      scheduled := !reducedMotion;
    }

    /** The effect that runs when the target changes. */
    method SetTarget(target: real)
      modifies this
      ensures this.target == target
      ensures reducedMotion ==> State() == Motion(target, 0.0, old(display), false)
      ensures !reducedMotion ==> State() == Retarget(old(State()))
    {
      this.target := target;
      scheduled := false;
      if reducedMotion {
        current, velocity := target, 0.0;
        return;
      }
      scheduled := true;
    }

    /** One requested frame. */
    method Step()
      requires options.mass != 0.0 && scheduled
      modifies this
      ensures target == old(target) && State() == Frame(options, target, old(State()))
    {
      ghost var m := State();
      scheduled := false;
      var spring := -options.stiffness * (current - target);
      var damper := -options.damping * velocity;
      var acceleration := (spring + damper) / options.mass;
      velocity := velocity + acceleration / 60.0;
      assert velocity == NextVelocity(options, target, m);
      current := current + velocity / 60.0;
      assert current == NextPosition(options, target, m);
      if Within(current - target, 0.5) && Within(velocity, 0.5) {
        display := target;
        current := target;
        velocity := 0.0;
        return;
      }
      display := Round(current);
      scheduled := true;
    }

    /** The chain of frames that one effect starts. */
    method Animate() returns (frames: nat)
      requires options.mass != 0.0 && Damped(options) && scheduled
      modifies this
      ensures target == old(target) && AtRest(State(), target)
      ensures State() == Frames(options, target, old(State()), frames)
    {
      frames := 0;
      ghost var n := Settles(options, target, State());
      while scheduled
        invariant target == old(target) && frames <= n
        invariant State() == Frames(options, target, old(State()), frames)
        invariant AtRest(Frames(options, target, old(State()), n), target)
        invariant scheduled || AtRest(State(), target)
        decreases n - frames
      {
        FramesAdd(options, target, old(State()), frames, 1);
        Step();
        frames := frames + 1;
      }
    }

    function Shown(): (shown: real)
      reads this
      ensures AtRest(State(), target) || reducedMotion ==> shown == target
      ensures !reducedMotion ==> shown == display
    {
      if reducedMotion then target else display
    }
  }
}
