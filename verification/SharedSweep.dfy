/** A sweep whose cursor other calls advance in the meantime, as concurrent calls on one router do. */
module SharedSweep {
  import opened Sets
  import opened WrappingSweep

  /** Where a call finds the cursor, and how far other calls advance it after each of the call's own ticks. */
  datatype Turn = Turn(cursor: nat, gaps: seq<nat>)

  /** The foreign ticks between own ticks i and i + 1. */
  function Gap(gaps: seq<nat>, i: nat): nat { if i < |gaps| then gaps[i] else 0 }

  /** The foreign ticks before own tick j. */
  function Foreign(gaps: seq<nat>, j: nat): nat { if j == 0 then 0 else Foreign(gaps, j - 1) + Gap(gaps, j - 1) }

  /** How far the cursor has moved when own tick j happens. */
  function Place(gaps: seq<nat>, j: nat): nat { j + Foreign(gaps, j) }

  /** The index that own tick j of a sweep over n accounts looks at. */
  function Look(turn: Turn, n: nat, j: nat): (index: nat)
    requires n > 0
    ensures index < n
  {
    Visit(turn.cursor, n, Place(turn.gaps, j))
  }

  function Later(gaps: seq<nat>, n: nat): seq<nat> { if n <= |gaps| then gaps[n..] else [] }

  /** What a second sweep of the same call finds. */
  function NextTurn(turn: Turn, n: nat): Turn {
    Turn(Advance(turn.cursor, Place(turn.gaps, n)), Later(turn.gaps, n))
  }

  ghost predicate Looked(turn: Turn, n: nat, i: nat)
    requires n > 0
  {
    exists j: nat :: j < n && Look(turn, n, j) == i
  }

  /** The n own ticks of the sweep look at every account. */
  ghost predicate Covers(turn: Turn, n: nat)
    requires n > 0
  {
    forall i :: 0 <= i < n ==> Looked(turn, n, i)
  }

  ghost predicate Distinct(turn: Turn, n: nat)
    requires n > 0
  {
    forall i, j :: 0 <= i < j < n ==> Look(turn, n, i) != Look(turn, n, j)
  }

  /** The cursor when own tick j happens. */
  function At(turn: Turn, j: nat): nat { Advance(turn.cursor, Place(turn.gaps, j)) }

  lemma AtLooks(turn: Turn, n: nat, j: nat)
    requires n > 0
    ensures At(turn, j) % n == Look(turn, n, j)
  {
  }

  lemma AtStart(turn: Turn)
    requires turn.cursor < WORD
    ensures At(turn, 0) == turn.cursor
  {
  }

  /** An own tick and the foreign ticks after it. */
  lemma OwnTick(turn: Turn, j: nat)
    ensures Advance(At(turn, j), 1) == Advance(turn.cursor, Place(turn.gaps, j) + 1)
    ensures Advance(Advance(At(turn, j), 1), Gap(turn.gaps, j)) == At(turn, j + 1)
  {
    AdvanceAdds(turn.cursor, Place(turn.gaps, j), 1);
    AdvanceAdds(turn.cursor, Place(turn.gaps, j) + 1, Gap(turn.gaps, j));
  }

  // ---------------------------------------------------------------------------------------------
  // Covering is not looking anywhere twice.
  // ---------------------------------------------------------------------------------------------

  function Elements(s: seq<nat>): set<nat> { set x | x in s }

  function Below(n: nat): (below: set<nat>)
    ensures forall x: nat :: x in below <==> x < n
  {
    if n == 0 then {} else Below(n - 1) + {n - 1}
  }

  lemma {:induction false} BelowSize(n: nat)
    ensures |Below(n)| == n
  {
    if n > 0 {
      BelowSize(n - 1);
    }
  }

  lemma {:induction false} ElementsSize(s: seq<nat>)
    ensures |Elements(s)| <= |s|
    ensures (forall i, j :: 0 <= i < j < |s| ==> s[i] != s[j]) ==> |Elements(s)| == |s|
  {
    if s != [] {
      var front, last := s[..|s| - 1], s[|s| - 1];
      ElementsSize(front);
      assert s == front + [last];
      assert Elements(s) == Elements(front) + {last};
    }
  }

  lemma RepeatShrinks(s: seq<nat>, i: nat, j: nat)
    requires i < j < |s| && s[i] == s[j]
    ensures |Elements(s)| < |s|
  {
    var rest := s[..j] + s[j + 1..];
    assert rest[i] == s[j];
    forall x | x in s ensures x in rest {
      var k :| 0 <= k < |s| && s[k] == x;
      assert k < j ==> rest[k] == x;
      assert k > j ==> rest[k - 1] == x;
    }
    assert Elements(s) <= Elements(rest);
    SubsetSize(Elements(s), Elements(rest));
    ElementsSize(rest);
  }

  function Looks(turn: Turn, n: nat): seq<nat>
    requires n > 0
  {
    seq(n, j requires 0 <= j < n => Look(turn, n, j))
  }

  lemma LooksBelow(turn: Turn, n: nat)
    requires n > 0
    ensures Elements(Looks(turn, n)) <= Below(n)
    ensures Covers(turn, n) <==> Below(n) <= Elements(Looks(turn, n))
  {
    var s := Looks(turn, n);
    if Covers(turn, n) {
      forall i | i in Below(n) ensures i in Elements(s) {
        assert Looked(turn, n, i);
        var j: nat :| j < n && Look(turn, n, j) == i;
        assert s[j] == i;
      }
    }
    if Below(n) <= Elements(s) {
      forall i | 0 <= i < n ensures Looked(turn, n, i) {
        assert i in Below(n);
        assert i in s;
        var j :| 0 <= j < n && s[j] == i;
        assert Look(turn, n, j) == i;
      }
    }
  }

  /** A sweep looks at every account if and only if it looks at none twice, whatever others do. */
  lemma CoversIffDistinct(turn: Turn, n: nat)
    requires n > 0
    ensures Covers(turn, n) <==> Distinct(turn, n)
  {
    var s := Looks(turn, n);
    LooksBelow(turn, n);
    BelowSize(n);
    if Distinct(turn, n) {
      ElementsSize(s);
      SameSizeSubset(Elements(s), Below(n));
    } else {
      var i, j :| 0 <= i < j < n && Look(turn, n, i) == Look(turn, n, j);
      RepeatShrinks(s, i, j);
      if Covers(turn, n) {
        SubsetSize(Below(n), Elements(s));
      }
    }
  }

  // ---------------------------------------------------------------------------------------------
  // When two ticks look at the same account.
  // ---------------------------------------------------------------------------------------------

  /** Over these many ticks the cursor does not wrap, or wraps on a multiple of n. */
  predicate Unwrapped(cursor: nat, n: nat, ticks: nat)
    requires n > 0
  {
    cursor + ticks <= WORD || WORD % n == 0
  }

  lemma MultipleOfMultiple(q: nat, p: nat, n: nat, w: nat)
    requires n > 0 && w == p * n
    ensures (q * w) % n == 0
  {
    assert q * w == (q * p) * n;
    ModUnique(q * w, n, q * p, 0);
  }

  lemma ModOfWrapped(a: nat, n: nat)
    requires n > 0 && WORD % n == 0
    ensures (a % WORD) % n == a % n
  {
    var q, k := a / WORD, a % WORD;
    assert a == k + q * WORD;
    assert WORD == WORD / n * n;
    MultipleOfMultiple(q, WORD / n, n, WORD);
    AddMultiple(k, q * WORD, n);
  }

  lemma VisitIsMod(cursor: nat, n: nat, k: nat)
    requires n > 0 && Unwrapped(cursor, n, k + 1)
    ensures Visit(cursor, n, k) == (cursor + k) % n
  {
    if WORD % n == 0 {
      ModOfWrapped(cursor + k, n);
    }
  }

  lemma SameModIff(a: nat, d: nat, n: nat)
    requires n > 0
    ensures (a + d) % n == a % n <==> d % n == 0
  {
    var q, r := d / n, d % n;
    assert d == q * n + r;
    ModUnique(q * n, n, q, 0);
    AddMultiple(a + r, q * n, n);
    ModOfSum(a, r, n);
  }

  lemma {:induction false} ForeignGrows(gaps: seq<nat>, i: nat, j: nat)
    requires i <= j
    ensures Foreign(gaps, i) <= Foreign(gaps, j)
    decreases j
  {
    if i < j {
      ForeignGrows(gaps, i, j - 1);
    }
  }

  /** How far own ticks i and j are apart. */
  function Apart(gaps: seq<nat>, i: nat, j: nat): int { Place(gaps, j) - Place(gaps, i) }

  lemma LooksCoincideIff(turn: Turn, n: nat, i: nat, j: nat)
    requires n > 0 && i < j < n && Unwrapped(turn.cursor, n, Place(turn.gaps, n - 1) + 1)
    ensures Apart(turn.gaps, i, j) > 0
    ensures Look(turn, n, i) == Look(turn, n, j) <==> Apart(turn.gaps, i, j) % n == 0
  {
    ForeignGrows(turn.gaps, i, j);
    ForeignGrows(turn.gaps, j, n - 1);
    VisitIsMod(turn.cursor, n, Place(turn.gaps, i));
    VisitIsMod(turn.cursor, n, Place(turn.gaps, j));
    SameModIff(turn.cursor + Place(turn.gaps, i), Apart(turn.gaps, i, j), n);
  }

  ghost predicate NoCollision(gaps: seq<nat>, n: nat)
    requires n > 0
  {
    forall i, j :: 0 <= i < j < n ==> Apart(gaps, i, j) % n != 0
  }

  /** The exact condition for given foreign ticks: no two own ticks are a multiple of n apart. */
  lemma CoversIffNoCollision(turn: Turn, n: nat)
    requires n > 0 && Unwrapped(turn.cursor, n, Place(turn.gaps, n - 1) + 1)
    ensures Covers(turn, n) <==> NoCollision(turn.gaps, n)
  {
    CoversIffDistinct(turn, n);
    forall i, j | 0 <= i < j < n
      ensures Look(turn, n, i) == Look(turn, n, j) <==> Apart(turn.gaps, i, j) % n == 0
    {
      LooksCoincideIff(turn, n, i, j);
    }
  }

  // ---------------------------------------------------------------------------------------------
  // Alone on the cursor, and with a number of foreign ticks.
  // ---------------------------------------------------------------------------------------------

  lemma {:induction false} NoForeign(gaps: seq<nat>, j: nat)
    requires forall i :: 0 <= i < j ==> Gap(gaps, i) == 0
    ensures Foreign(gaps, j) == 0
  {
    if j > 0 {
      NoForeign(gaps, j - 1);
    }
  }

  /** Alone on the cursor, a sweep looks at every account if and only if it is aligned. */
  lemma AloneCoversIffAligned(cursor: nat, n: nat)
    requires n > 0 && cursor < WORD && n <= WORD
    ensures Covers(Turn(cursor, []), n) <==> SweepAligned(cursor, n)
  {
    var turn := Turn(cursor, []);
    forall j: nat ensures Look(turn, n, j) == Visit(cursor, n, j) {
      NoForeign([], j);
    }
    forall i | 0 <= i < n ensures Looked(turn, n, i) <==> Visited(cursor, n, i) {
      if Looked(turn, n, i) {
        var j: nat :| j < n && Look(turn, n, j) == i;
        assert Visit(cursor, n, j) == i;
      }
      if Visited(cursor, n, i) {
        var j: nat :| j < n && Visit(cursor, n, j) == i;
        assert Look(turn, n, j) == i;
      }
    }
    SweepCoversIffAligned(cursor, n);
  }

  /** The foreign ticks that no placement can make harmful. */
  predicate Harmless(n: nat, m: nat) { n == 1 || m == 0 || (n == 2 && m % 2 == 0) }

  /** One way to place m foreign ticks between the n own ones. */
  ghost predicate Placement(gaps: seq<nat>, n: nat, m: nat)
    requires n > 0
  {
    |gaps| == n - 1 && Foreign(gaps, n - 1) == m
  }

  /** Two ticks after the first visit, as far as there are two, and the others before the last. */
  function Spoiler(n: nat, m: nat): seq<nat>
    requires n >= 2
  {
    var first := if n == 2 || m < 2 then m else 2;
    seq(n - 1, i => if i == 0 then first else if i == n - 2 then m - first else 0)
  }

  lemma {:induction false} SpoilerForeign(n: nat, m: nat, j: nat)
    requires n >= 2 && 1 <= j < n
    ensures Foreign(Spoiler(n, m), j) == if j == n - 1 || m < 2 then m else 2
  {
    if j == 1 {
      assert Foreign(Spoiler(n, m), 0) == 0;
    } else {
      SpoilerForeign(n, m, j - 1);
    }
  }

  lemma SpoilerCollides(n: nat, m: nat)
    requires n >= 2 && !Harmless(n, m)
    ensures Placement(Spoiler(n, m), n, m) && !NoCollision(Spoiler(n, m), n)
  {
    var gaps := Spoiler(n, m);
    SpoilerForeign(n, m, n - 1);
    if n == 2 {
      assert Apart(gaps, 0, 1) == 1 + m;
    } else if m == 1 {
      assert Apart(gaps, 0, n - 1) == n;
    } else {
      SpoilerForeign(n, m, n - 2);
      assert Apart(gaps, 0, n - 2) == n;
    }
  }

  lemma QuietHasNoCollision(gaps: seq<nat>, n: nat, m: nat)
    requires n > 0 && Placement(gaps, n, m) && Harmless(n, m)
    ensures NoCollision(gaps, n)
  {
    forall i, j | 0 <= i < j < n ensures Apart(gaps, i, j) % n != 0 {
      ForeignGrows(gaps, 0, i);
      ForeignGrows(gaps, i, j);
      ForeignGrows(gaps, j, n - 1);
      if m == 0 {
        assert Apart(gaps, i, j) == j - i;
        ModUnique(j - i, n, 0, j - i);
      } else {
        assert i == 0 && j == 1 && Apart(gaps, 0, 1) == 1 + m;
      }
    }
  }

  ghost predicate AlwaysCovers(cursor: nat, n: nat, m: nat)
    requires n > 0
  {
    forall gaps: seq<nat> :: Placement(gaps, n, m) ==> Covers(Turn(cursor, gaps), n)
  }

  /**
   * With m foreign ticks in all, a sweep is sure to look at every account if and only if there is one
   * account, no foreign tick, or two accounts and an even number of ticks.
   */
  lemma AlwaysCoversIffHarmless(cursor: nat, n: nat, m: nat)
    requires n > 0 && Unwrapped(cursor, n, n + m)
    ensures AlwaysCovers(cursor, n, m) <==> Harmless(n, m)
  {
    if Harmless(n, m) {
      forall gaps: seq<nat> | Placement(gaps, n, m) ensures Covers(Turn(cursor, gaps), n) {
        QuietHasNoCollision(gaps, n, m);
        CoversIffNoCollision(Turn(cursor, gaps), n);
      }
    } else {
      SpoilerCollides(n, m);
      CoversIffNoCollision(Turn(cursor, Spoiler(n, m)), n);
      assert !Covers(Turn(cursor, Spoiler(n, m)), n);
    }
  }

  lemma ForeignOfOne(j: nat)
    ensures Foreign([1], j) == if j == 0 then 0 else 1
  {
  }

  /** One foreign tick after the first visit makes a sweep miss the second place, although it is aligned. */
  lemma OneTickMisses(cursor: nat, n: nat)
    requires n >= 2 && Unwrapped(cursor, n, n + 1)
    ensures !Looked(Turn(cursor, [1]), n, (cursor + 1) % n)
  {
    var turn := Turn(cursor, [1]);
    forall j: nat | j < n ensures Look(turn, n, j) != (cursor + 1) % n {
      ForeignOfOne(j);
      VisitIsMod(cursor, n, Place([1], j));
      if j == 0 {
        ModUnique(1, n, 0, 1);
        SameModIff(cursor, 1, n);
      } else {
        ModUnique(j, n, 0, j);
        SameModIff(cursor + 1, j, n);
      }
    }
  }
}
