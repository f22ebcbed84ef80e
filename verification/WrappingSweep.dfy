/** A sweep over n places with a 64-bit cursor that wraps around. */
module WrappingSweep {

  /** The range of the atomic cursor, which wraps around. */
  const WORD: nat := 0x1_0000_0000_0000_0000

  /** The index that the j-th `fetch_add` of a sweep over n accounts looks at. */
  function Visit(cursor: nat, n: nat, j: nat): (index: nat)
    requires n > 0
    ensures index < n
  {
    Advance(cursor, j) % n
  }

  /** The cursor after j `fetch_add`s. */
  function Advance(cursor: nat, j: nat): nat { (cursor + j) % WORD }

  ghost predicate SweepCovers(cursor: nat, n: nat)
    requires n > 0
  {
    forall i :: 0 <= i < n ==> Visited(cursor, n, i)
  }

  ghost predicate Visited(cursor: nat, n: nat, i: nat)
    requires n > 0
  {
    exists j: nat :: j < n && Visit(cursor, n, j) == i
  }

  /** The cursor does not wrap during the sweep, or wraps on a multiple of the number of accounts. */
  predicate SweepAligned(cursor: nat, n: nat)
    requires n > 0
  {
    cursor + n <= WORD || WORD % n == 0
  }

  lemma ModOfSum(a: nat, b: nat, n: nat)
    requires n > 0 && b < n
    ensures (a + b) % n == if a % n + b < n then a % n + b else a % n + b - n
  {
    var q, r := a / n, a % n;
    assert a == q * n + r;
    if r + b < n {
      ModUnique(a + b, n, q, r + b);
    } else {
      assert a + b == (q + 1) * n + (r + b - n);
      ModUnique(a + b, n, q + 1, r + b - n);
    }
  }

  lemma ModUnique(a: nat, n: nat, q: nat, r: nat)
    requires n > 0 && a == q * n + r && r < n
    ensures a % n == r
  {
    SmallMultipleIsZero(a / n - q, n, r - a % n);
  }

  lemma SmallMultipleIsZero(z: int, n: int, d: int)
    requires n > 0 && z * n == d && -n < d < n
    ensures z == 0 && d == 0
  {
    if z >= 1 {
      Grow(z, 1, n);
    } else if z <= -1 {
      Grow(-z, 1, n);
    }
  }

  lemma Grow(z: int, y: int, n: int)
    requires z >= y && n >= 0
    ensures z * n >= y * n
  {
  }

  /** Adding a multiple of n does not change the place. */
  lemma AddMultiple(k: nat, w: nat, n: nat)
    requires n > 0 && w % n == 0
    ensures (k + w) % n == k % n
  {
    var q, p := k / n, w / n;
    assert k == q * n + k % n && w == p * n;
    Distribute(q, p, n);
    ModUnique(k + w, n, q + p, k % n);
  }

  lemma Distribute(q: nat, p: nat, n: nat)
    ensures (q + p) * n == q * n + p * n
  {
  }

  lemma AdvanceWraps(cursor: nat, j: nat)
    requires cursor < WORD && j < WORD
    ensures Advance(cursor, j) == if cursor + j < WORD then cursor + j else cursor + j - WORD
  {
  }

  lemma AlignedVisit(cursor: nat, n: nat, j: nat)
    requires n > 0 && j < n && cursor < WORD && n <= WORD && SweepAligned(cursor, n)
    ensures Visit(cursor, n, j) == if cursor % n + j < n then cursor % n + j else cursor % n + j - n
  {
    ModOfSum(cursor, j, n);
    AdvanceWraps(cursor, j);
    if cursor + j >= WORD {
      AddMultiple(cursor + j - WORD, WORD, n);
    }
  }

  /** An aligned sweep looks at every account. */
  lemma AlignedCovers(cursor: nat, n: nat)
    requires n > 0 && cursor < WORD && n <= WORD && SweepAligned(cursor, n)
    ensures SweepCovers(cursor, n)
  {
    forall i | 0 <= i < n ensures Visited(cursor, n, i) {
      var c := cursor % n;
      var j := if i >= c then i - c else i + n - c;
      AlignedVisit(cursor, n, j);
      assert Visit(cursor, n, j) == i;
    }
  }

  /** A misaligned sweep misses an account. */
  lemma MisalignedMisses(cursor: nat, n: nat)
    requires n > 0 && cursor < WORD && n <= WORD && !SweepAligned(cursor, n)
    ensures !SweepCovers(cursor, n)
  {
    var w, m := WORD - cursor, WORD % n;
    // The sweep sees m - w, .., m - 1 (modulo n) before the wrap and 0, .., n - w - 1 after it.
    var i := if m >= w then n - 1 else n - w + m - 1;
    forall j: nat | j < n ensures Visit(cursor, n, j) != i {
      if j < w {
        var k := w - j;
        assert (cursor + j) % WORD == WORD - k;
        BeforeWrap(n, m, k);
      } else {
        assert (cursor + j) % WORD == j - w;
        ModUnique(j - w, n, 0, j - w);
      }
    }
    assert !Visited(cursor, n, i);
  }

  lemma BeforeWrap(n: nat, m: nat, k: nat)
    requires 0 < n <= WORD && m == WORD % n && 0 < k < n
    ensures (WORD - k) % n == if m >= k then m - k else m - k + n
  {
    var q := WORD / n;
    assert WORD == q * n + m;
    if m >= k {
      ModUnique(WORD - k, n, q, m - k);
    } else {
      assert q > 0;
      assert (q - 1) * n == q * n - n;
      ModUnique(WORD - k, n, q - 1, m - k + n);
    }
  }

  /** A full sweep looks at every account if and only if it is aligned. */
  lemma SweepCoversIffAligned(cursor: nat, n: nat)
    requires n > 0 && cursor < WORD && n <= WORD
    ensures SweepCovers(cursor, n) <==> SweepAligned(cursor, n)
  {
    if SweepAligned(cursor, n) {
      AlignedCovers(cursor, n);
    } else {
      MisalignedMisses(cursor, n);
    }
  }

  lemma AdvanceAdds(cursor: nat, a: nat, b: nat)
    ensures Advance(Advance(cursor, a), b) == Advance(cursor, a + b)
  {
    var q, r := (cursor + a) / WORD, (cursor + a) % WORD;
    assert cursor + a == q * WORD + r;
    ModUnique(q * WORD, WORD, q, 0);
    AddMultiple(r + b, q * WORD, WORD);
  }

  /** Consecutive ticks of an aligned sweep look at distinct accounts, so each gets its turn once. */
  lemma AlignedVisitsDistinct(cursor: nat, n: nat, i: nat, j: nat)
    requires i < j < n <= WORD && cursor < WORD && SweepAligned(cursor, n)
    ensures Visit(cursor, n, i) != Visit(cursor, n, j)
  {
    AlignedVisit(cursor, n, i);
    AlignedVisit(cursor, n, j);
  }
}
