/**
 * The data plane's account router: round robin, recency preferences, model routes and sticky sessions.
 * Each public call is one step at one instant `now`, except that other calls may advance the round-robin
 * cursor between its own ticks.
 */
module Router {
  import opened Text
  import opened Sets
  import opened StickySessions
  import opened AccountPool
  import opened AccountChoice
  import ModelRoutes
  import opened WrappingSweep
  import opened SharedSweep

  // ---------------------------------------------------------------------------------------------
  // Sessions.
  // ---------------------------------------------------------------------------------------------

  datatype Limits = Limits(ttl: int, max: nat)

  /** What a pick changes. */
  datatype Spot = Spot(cursor: nat, sticky: Sessions)

  /**
   * A call of `pick_for_model` with what the router knew, what other calls did to the cursor in the
   * meantime, and what it answered.
   */
  datatype Call = Call(
    pool: Pool, req: Request, key: Option<string>, preferIdle: bool, gaps: seq<nat>, picked: Option<Account>)

  /** `normalize_sticky_key`. */
  function Key(raw: Option<string>): Option<string> {
    if raw.None? || Trim(raw.value) == [] then None else Some(Trim(raw.value))
  }

  /** A session key counts without the blanks around it, and one of blanks is none. */
  lemma KeyIsTrimmed(pre: string, core: string, post: string)
    requires AllBlank(pre, Blank) && AllBlank(post, Blank) && TrimmedBy(core, Blank)
    ensures Key(Some(pre + core + post)) == if core == [] then None else Some(core)
    ensures Key(None) == None
  {
    TrimOf(pre, core, post, Blank);
  }

  ghost predicate PoolOk(pool: Pool) { UniqueIds(pool.accounts) && |pool.accounts| <= WORD }

  /** The call finds a binding of its session that it can use. */
  predicate Hits(call: Call, sticky: Sessions) {
    call.key.Some? && Usable(call.pool, call.req, Bound(sticky, call.key.value, call.req.now))
  }

  /** The accounts of the other live sessions. */
  function Busy(call: Call, sticky: Sessions): set<Id> {
    if call.key.None? then {} else Conflicts(sticky, call.key.value, call.req.now)
  }

  /**
   * How a call is answered.  Without a session someone is chosen.  A session keeps and extends a binding
   * it can use; otherwise someone is picked, away from the other sessions if asked to, and bound.
   */
  ghost predicate Answered(call: Call, limits: Limits, before: Spot, after: Spot) {
    if call.key.None? then
      && after.sticky == before.sticky
      && Chosen(call.pool, call.req, Turn(before.cursor, call.gaps), after.cursor, call.picked)
    else if Hits(call, before.sticky) then Kept(call, limits, before, after)
    else
      && Picks(call.pool, call.req, Busy(call, before.sticky), call.preferIdle,
               Turn(before.cursor, call.gaps), after.cursor, call.picked)
      && Rebinds(call, limits, before.sticky, after.sticky)
  }

  ghost predicate Kept(call: Call, limits: Limits, before: Spot, after: Spot)
    requires Hits(call, before.sticky)
  {
    var key, now := call.key.value, call.req.now;
    var bound := Bound(before.sticky, key, now);
    && call.picked == Offer(call.pool, call.req, bound) && after.cursor == before.cursor
    && after.sticky == Pruned(before.sticky, now)[key := NewBinding(bound.value, now, limits.ttl)]
  }

  ghost predicate Rebinds(call: Call, limits: Limits, before: Sessions, after: Sessions)
    requires call.key.Some?
  {
    var key, now := call.key.value, call.req.now;
    Rebound(Pruned(before, now) - {key}, after, key, IdOf(call.picked), now, limits.ttl, limits.max)
  }

  lemma AnsweredByBinding(call: Call, limits: Limits, before: Spot, after: Spot)
    requires call.key.Some? && Hits(call, before.sticky) && Kept(call, limits, before, after)
    ensures Answered(call, limits, before, after)
  {
  }

  lemma AnsweredByPick(call: Call, limits: Limits, before: Spot, mid: Sessions, after: Spot)
    requires call.key.Some? && !Hits(call, before.sticky)
    requires mid == Pruned(before.sticky, call.req.now) - {call.key.value}
    requires Picks(call.pool, call.req, Conflicts(mid, call.key.value, call.req.now), call.preferIdle,
                   Turn(before.cursor, call.gaps), after.cursor, call.picked)
    requires Rebound(mid, after.sticky, call.key.value, IdOf(call.picked), call.req.now, limits.ttl, limits.max)
    ensures Answered(call, limits, before, after)
  {
    PrunedAgain(before.sticky, call.key.value, call.req.now);
  }

  /** The sweep whose failure decides that nobody may serve the call. */
  function DecidingSweep(call: Call, before: Spot): Turn {
    LastSweep(Turn(before.cursor, call.gaps), |call.pool.accounts|, call.preferIdle && call.key.Some?)
  }

  /**
   * Main result for one call: whoever is picked may serve, and nobody is picked only if nobody may, given
   * that the deciding sweep sees everyone.
   */
  lemma AnswerServes(call: Call, limits: Limits, before: Spot, after: Spot)
    requires PoolOk(call.pool) && Answered(call, limits, before, after)
    ensures call.picked.Some? ==> Serves(call.pool, call.req, call.picked.value)
    ensures call.picked.None? && Sees(call.req, |call.pool.accounts|, DecidingSweep(call, before)) ==>
              NoneServes(call.pool, call.req)
  {
    var from := Turn(before.cursor, call.gaps);
    if call.key.None? {
      ChosenServes(call.pool, call.req, from, after.cursor, call.picked);
    } else if !Hits(call, before.sticky) {
      PicksServe(call.pool, call.req, Busy(call, before.sticky), call.preferIdle, from, after.cursor, call.picked);
    }
  }

  /** A session that asks for an idle account gets one whenever one may serve, given that its first sweep sees it. */
  lemma AnswerPrefersIdle(call: Call, limits: Limits, before: Spot, after: Spot)
    requires PoolOk(call.pool) && Answered(call, limits, before, after)
    requires call.preferIdle && call.key.Some? && !Hits(call, before.sticky)
    requires Sees(call.req, |call.pool.accounts|, Turn(before.cursor, call.gaps))
    requires !NoneServes(call.pool, Avoiding(call.req, Busy(call, before.sticky)))
    ensures call.picked.Some? && call.picked.value.id !in Busy(call, before.sticky)
  {
    PicksServe(call.pool, call.req, Busy(call, before.sticky), call.preferIdle, Turn(before.cursor, call.gaps),
               after.cursor, call.picked);
  }

  /** What the router knows and what others do determine whom a call gets and where it leaves the cursor. */
  lemma AnswerIsUnique(call: Call, other: Option<Account>, limits: Limits, before: Spot, after: Spot, after1: Spot)
    requires Answered(call, limits, before, after) && Answered(call.(picked := other), limits, before, after1)
    ensures call.picked == other && after.cursor == after1.cursor
  {
    var from := Turn(before.cursor, call.gaps);
    if call.key.None? {
      ChosenIsUnique(call.pool, call.req, from, after.cursor, after1.cursor, call.picked, other);
    } else if !Hits(call, before.sticky) {
      PicksAreUnique(call.pool, call.req, Busy(call, before.sticky), call.preferIdle, from,
                     after.cursor, after1.cursor, call.picked, other);
    }
  }

  /** n accounts of which nothing is known and only the i-th is enabled. */
  function LonelyPool(n: nat, i: nat): Pool {
    Pool(seq(n, k requires 0 <= k < n => Account(k, "", k == i)), map[], map[], map[])
  }

  /** A call without route, session or exclusion that is refused. */
  function Refusal(n: nat, i: nat, gaps: seq<nat>): Call {
    Call(LonelyPool(n, i), Request(None, {}, 0), None, false, gaps, None)
  }

  lemma LonelyIsMissed(n: nat, i: nat, from: Turn)
    requires i < n && !Looked(from, n, i)
    ensures UniqueIds(LonelyPool(n, i).accounts)
    ensures NoneVisited(LonelyPool(n, i), Request(None, {}, 0), from, n)
    ensures !NoneServes(LonelyPool(n, i), Request(None, {}, 0))
  {
    var pool, req := LonelyPool(n, i), Request(None, {}, 0);
    forall j: nat | j < n ensures !Fit(pool.accounts[Look(from, n, j)], pool.health, req) {
      assert Look(from, n, j) != i;
    }
    assert pool.accounts[i] in pool.accounts && Serves(pool, req, pool.accounts[i]);
  }

  /** A call whose sweep misses the only fit account is refused, although that account may serve. */
  lemma MissedIsRefused(n: nat, i: nat, limits: Limits, before: Spot, gaps: seq<nat>)
    requires i < n <= WORD && !Looked(Turn(before.cursor, gaps), n, i)
    ensures var call, from := Refusal(n, i, gaps), Turn(before.cursor, gaps);
            && Answered(call, limits, before, Spot(NextTurn(from, n).cursor, before.sticky))
            && PoolOk(call.pool) && !NoneServes(call.pool, call.req)
  {
    var call, from := Refusal(n, i, gaps), Turn(before.cursor, gaps);
    LonelyIsMissed(n, i, from);
    assert PoolChoiceBy(call.pool, call.req, from, NextTurn(from, n).cursor, None, None, None);
  }

  /** Whatever the pool of n accounts, an unrouted call without a session that gets nobody could get nobody. */
  ghost predicate Complete(limits: Limits, before: Spot, gaps: seq<nat>, n: nat) {
    forall call: Call, after: Spot :: Answered(call, limits, before, after) && Refused(call, gaps, n) ==>
      NoneServes(call.pool, call.req)
  }

  ghost predicate Refused(call: Call, gaps: seq<nat>, n: nat) {
    && call.key.None? && call.req.candidates.None? && call.gaps == gaps && call.picked.None?
    && |call.pool.accounts| == n && PoolOk(call.pool)
  }

  /** Such calls are complete if and only if the sweep looks at every account. */
  lemma CompleteIffCovers(limits: Limits, before: Spot, gaps: seq<nat>, n: nat)
    requires n <= WORD
    ensures Complete(limits, before, gaps, n) <==> n == 0 || Covers(Turn(before.cursor, gaps), n)
  {
    var from := Turn(before.cursor, gaps);
    if n == 0 || Covers(from, n) {
      forall call: Call, after: Spot | Answered(call, limits, before, after) && Refused(call, gaps, n)
        ensures NoneServes(call.pool, call.req)
      {
        AnswerServes(call, limits, before, after);
      }
    } else {
      var i: nat :| i < n && !Looked(from, n, i);
      MissedIsRefused(n, i, limits, before, gaps);
      var call, after := Refusal(n, i, gaps), Spot(NextTurn(from, n).cursor, before.sticky);
      assert Answered(call, limits, before, after) && Refused(call, gaps, n);
    }
  }

  /** Alone on the cursor they are complete if and only if the sweep is aligned. */
  lemma CompleteAloneIffAligned(limits: Limits, before: Spot, n: nat)
    requires n <= WORD && before.cursor < WORD
    ensures Complete(limits, before, [], n) <==> n == 0 || SweepAligned(before.cursor, n)
  {
    CompleteIffCovers(limits, before, [], n);
    if n > 0 {
      AloneCoversIffAligned(before.cursor, n);
    }
  }

  ghost predicate AlwaysComplete(limits: Limits, before: Spot, n: nat, m: nat)
    requires n > 0
  {
    forall gaps: seq<nat> :: Placement(gaps, n, m) ==> Complete(limits, before, gaps, n)
  }

  /** With m ticks of other calls in between they are sure to be complete if and only if the ticks are harmless. */
  lemma AlwaysCompleteIffHarmless(limits: Limits, before: Spot, n: nat, m: nat)
    requires 0 < n <= WORD && Unwrapped(before.cursor, n, n + m)
    ensures AlwaysComplete(limits, before, n, m) <==> Harmless(n, m)
  {
    AlwaysCoversIffHarmless(before.cursor, n, m);
    forall gaps: seq<nat> ensures Complete(limits, before, gaps, n) <==> Covers(Turn(before.cursor, gaps), n) {
      CompleteIffCovers(limits, before, gaps, n);
    }
  }

  /**
   * One other call in between is enough: after the first tick of a call on n accounts, it takes the only fit
   * account with one tick of its own, and the first call passes that account over and is refused.
   */
  lemma OneTickRefuses(n: nat, limits: Limits, before: Spot)
    requires 2 <= n <= WORD && Unwrapped(before.cursor, n, n + 1)
    ensures var i, sticky := (before.cursor + 1) % n, before.sticky;
            var call, from := Refusal(n, i, [1]), Turn(before.cursor, [1]);
            && PoolOk(call.pool) && !NoneServes(call.pool, call.req)
            && Answered(call, limits, before, Spot(NextTurn(from, n).cursor, sticky))
            && Answered(call.(gaps := [], picked := Some(call.pool.accounts[i])), limits,
                        Spot(Advance(before.cursor, 1), sticky), Spot(Advance(before.cursor, 2), sticky))
  {
    OneTickMisses(before.cursor, n);
    MissedIsRefused(n, (before.cursor + 1) % n, limits, before, [1]);
    NextTakesIt(n, limits, before);
  }

  lemma VisitLater(cursor: nat, n: nat, j: nat)
    requires n > 0
    ensures Visit(Advance(cursor, j), n, 0) == Visit(cursor, n, j)
  {
    AdvanceAdds(cursor, j, 0);
  }

  lemma NextTakesIt(n: nat, limits: Limits, before: Spot)
    requires 2 <= n <= WORD && Unwrapped(before.cursor, n, n + 1)
    ensures var i, sticky := (before.cursor + 1) % n, before.sticky;
            Answered(Refusal(n, i, []).(picked := Some(LonelyPool(n, i).accounts[i])), limits,
                     Spot(Advance(before.cursor, 1), sticky), Spot(Advance(before.cursor, 2), sticky))
  {
    var i, from, to := (before.cursor + 1) % n, Turn(Advance(before.cursor, 1), []), Advance(before.cursor, 2);
    var pool, req := LonelyPool(n, i), Request(None, {}, 0);
    VisitIsMod(before.cursor, n, 1);
    VisitLater(before.cursor, n, 1);
    AdvanceAdds(before.cursor, 1, 1);
    assert Place([], 0) == 0 && Look(from, n, 0) == i;
    assert FitAt(pool, req, from, to, pool.accounts[i], 0);
    assert PoolChoiceBy(pool, req, from, to, Some(pool.accounts[i]), None, None);
  }

  /** The same without the model's terms: enabled, not cooling down, not excluded and on the route. */
  lemma AnswerIsEligible(call: Call, limits: Limits, before: Spot, after: Spot)
    requires PoolOk(call.pool) && Answered(call, limits, before, after)
    ensures call.picked.Some? ==>
              var p, req := call.picked.value, call.req;
              && p in call.pool.accounts && p.enabled && p.id !in req.excluded
              && (p.id in call.pool.health ==> call.pool.health[p.id] <= req.now)
              && (req.candidates.Some? ==> p.id in req.candidates.value)
    ensures call.picked.None? && Sees(call.req, |call.pool.accounts|, DecidingSweep(call, before)) ==>
              forall a :: a in call.pool.accounts ==>
                || !a.enabled || a.id in call.req.excluded
                || (a.id in call.pool.health && call.pool.health[a.id] > call.req.now)
                || (call.req.candidates.Some? && a.id !in call.req.candidates.value)
  {
    AnswerServes(call, limits, before, after);
    if call.picked.None? && Sees(call.req, |call.pool.accounts|, DecidingSweep(call, before)) {
      forall a | a in call.pool.accounts ensures !Serves(call.pool, call.req, a) {
      }
    }
  }

  /** No other live session is bound to the account. */
  ghost predicate Idle(call: Call, sticky: Sessions, id: Id) {
    forall k :: k in sticky && sticky[k].expiresAt > call.req.now && call.key != Some(k) ==> sticky[k].account != id
  }

  lemma IdleIffNotBusy(call: Call, sticky: Sessions, id: Id)
    requires call.key.Some?
    ensures Idle(call, sticky, id) <==> id !in Busy(call, sticky)
  {
  }

  /** If any account may serve that no other live session uses, a session that asks for it gets such an account. */
  lemma AnswerAvoidsOthers(call: Call, limits: Limits, before: Spot, after: Spot, a: Account)
    requires PoolOk(call.pool) && Answered(call, limits, before, after)
    requires call.preferIdle && call.key.Some? && !Hits(call, before.sticky)
    requires Sees(call.req, |call.pool.accounts|, Turn(before.cursor, call.gaps))
    requires Serves(call.pool, call.req, a) && Idle(call, before.sticky, a.id)
    ensures call.picked.Some? && Idle(call, before.sticky, call.picked.value.id)
  {
    IdleIffNotBusy(call, before.sticky, a.id);
    assert Serves(call.pool, Avoiding(call.req, Busy(call, before.sticky)), a);
    AnswerPrefersIdle(call, limits, before, after);
    IdleIffNotBusy(call, before.sticky, call.picked.value.id);
  }

  /** A session that asks for an idle account, and has no binding to keep. */
  predicate SeeksIdle(call: Call, sticky: Sessions) { call.preferIdle && call.key.Some? && !Hits(call, sticky) }

  /** With a route it gets the first candidate that may serve and is idle, whatever succeeded or was probed last. */
  lemma AnswerIsFirstIdle(call: Call, limits: Limits, before: Spot, after: Spot, ids: seq<Id>, a: Account, i: nat)
    requires PoolOk(call.pool) && Answered(call, limits, before, after) && SeeksIdle(call, before.sticky)
    requires call.req.candidates == Some(ids) && i < |ids| && a.id == ids[i]
    requires Serves(call.pool, call.req, a) && Idle(call, before.sticky, a.id)
    requires forall b, j :: Serves(call.pool, call.req, b) && Idle(call, before.sticky, b.id) && 0 <= j < i ==>
               b.id != ids[j]
    ensures call.picked == Some(a)
  {
    var away := Avoiding(call.req, Busy(call, before.sticky));
    var mid, idle :| ChosenIdle(call.pool, call.req, Busy(call, before.sticky), Turn(before.cursor, call.gaps), mid,
                                after.cursor, idle, call.picked);
    ServesAwayIff(call, before.sticky, a);
    forall b, j | Serves(call.pool, away, b) && 0 <= j < i ensures b.id != ids[j] {
      ServesAwayIff(call, before.sticky, b);
    }
    FirstServingIsFirst(call.pool, away, ids, a, i);
    FirstInOrderIsUnique(call.pool, away, ids, idle, Some(a));
  }

  lemma ServesAwayIff(call: Call, sticky: Sessions, a: Account)
    requires call.key.Some?
    ensures Serves(call.pool, Avoiding(call.req, Busy(call, sticky)), a)
       <==> Serves(call.pool, call.req, a) && Idle(call, sticky, a.id)
  {
    IdleIffNotBusy(call, sticky, a.id);
  }

  /** The account d places after the cursor may serve and is idle, and nobody between is so. */
  ghost predicate NextIdle(call: Call, before: Spot, d: nat) {
    && d < |call.pool.accounts| && Serves(call.pool, call.req, Ahead(call.pool, before.cursor, d))
    && Idle(call, before.sticky, Ahead(call.pool, before.cursor, d).id)
    && forall e: nat :: e < d ==>
         !Serves(call.pool, call.req, Ahead(call.pool, before.cursor, e))
         || !Idle(call, before.sticky, Ahead(call.pool, before.cursor, e).id)
  }

  /** Without one it gets the next in turn that may serve and is idle, if it is alone on the cursor. */
  lemma AnswerIsNextIdle(call: Call, limits: Limits, before: Spot, after: Spot, d: nat)
    requires PoolOk(call.pool) && Answered(call, limits, before, after) && SeeksIdle(call, before.sticky)
    requires call.req.candidates.None? && call.gaps == [] && NextIdle(call, before, d)
    requires Unwrapped(before.cursor, |call.pool.accounts|, |call.pool.accounts|)
    ensures call.picked == Some(Ahead(call.pool, before.cursor, d)) && after.cursor == Advance(before.cursor, d + 1)
  {
    var pool, from, away := call.pool, Turn(before.cursor, []), Avoiding(call.req, Busy(call, before.sticky));
    var mid, idle :| ChosenIdle(pool, call.req, Busy(call, before.sticky), from, mid, after.cursor, idle, call.picked);
    forall e: nat | e <= d
      ensures Fit(Ahead(pool, before.cursor, e), pool.health, away)
         <==> && Serves(pool, call.req, Ahead(pool, before.cursor, e))
              && Idle(call, before.sticky, Ahead(pool, before.cursor, e).id)
    {
      ServesAwayIff(call, before.sticky, Ahead(pool, before.cursor, e));
    }
    NextIsVisited(pool, away, before.cursor, d);
    FirstVisitedIsUnique(pool, away, from, mid, Advance(before.cursor, d + 1), idle,
                         Some(Ahead(pool, before.cursor, d)));
  }

  /** A call hits if and only if its session's binding is alive and its account may serve. */
  lemma HitsIff(call: Call, sticky: Sessions)
    requires PoolOk(call.pool) && call.key.Some?
    ensures Hits(call, sticky) <==>
              && call.key.value in sticky && sticky[call.key.value].expiresAt > call.req.now
              && exists a :: Serves(call.pool, call.req, a) && a.id == sticky[call.key.value].account
  {
    if call.key.value in sticky {
      UsableIff(call.pool, call.req, sticky[call.key.value].account);
    }
  }

  /** A call that chooses without regard to other sessions: it has none, or one without a binding to keep. */
  predicate ChoosesFreely(call: Call, sticky: Sessions) {
    call.key.None? || (!Hits(call, sticky) && !call.preferIdle)
  }

  lemma FreeAnswerIsChosen(call: Call, limits: Limits, before: Spot, after: Spot)
    requires Answered(call, limits, before, after) && ChoosesFreely(call, before.sticky)
    ensures Chosen(call.pool, call.req, Turn(before.cursor, call.gaps), after.cursor, call.picked)
  {
  }

  /**
   * Main preference, without a route: of the accounts that may serve, the one that succeeded last is picked, the
   * larger id on a tie; if no success is known of them, the one probed freshest and then latest.
   */
  lemma AnswerIsMostRecent(call: Call, limits: Limits, before: Spot, after: Spot, a: Account)
    requires PoolOk(call.pool) && Answered(call, limits, before, after) && ChoosesFreely(call, before.sticky)
    requires call.req.candidates.None? && Serves(call.pool, call.req, a)
    ensures var recent := call.pool.recent;
            a.id in recent ==>
              && call.picked.Some? && call.picked.value.id in recent
              && var p := call.picked.value.id;
                 recent[a.id] < recent[p] || (recent[a.id] == recent[p] && a.id <= p)
    ensures var traits := call.pool.traits;
            (forall b :: Serves(call.pool, call.req, b) ==> b.id !in call.pool.recent)
            && a.id in traits && Probed(traits[a.id]) ==>
              && call.picked.Some? && call.picked.value.id in traits
              && var p := call.picked.value.id;
                 && Probed(traits[p]) && ProbedNoBetter(traits[a.id], traits[p])
                 && (traits[a.id] == traits[p] ==> a.id <= p)
  {
    var from := Turn(before.cursor, call.gaps);
    FreeAnswerIsChosen(call, limits, before, after);
    if a.id in call.pool.recent {
      ChosenSucceededLast(call.pool, call.req, from, after.cursor, call.picked, a);
    } else if && (forall b :: Serves(call.pool, call.req, b) ==> b.id !in call.pool.recent)
              && a.id in call.pool.traits && Probed(call.pool.traits[a.id]) {
      ChosenProbedBest(call.pool, call.req, from, after.cursor, call.picked, a);
    }
  }

  /** If nothing is known of them, the next in turn is picked, by a call alone on the cursor. */
  lemma AnswerIsNext(call: Call, limits: Limits, before: Spot, after: Spot, d: nat)
    requires PoolOk(call.pool) && Answered(call, limits, before, after) && ChoosesFreely(call, before.sticky)
    requires call.req.candidates.None? && call.gaps == [] && Unranked(call.pool, call.req)
    requires NextFit(call.pool, call.req, before.cursor, d)
    requires Unwrapped(before.cursor, |call.pool.accounts|, |call.pool.accounts|)
    ensures call.picked == Some(Ahead(call.pool, before.cursor, d))
    ensures after.cursor == Advance(before.cursor, d + 1)
  {
    FreeAnswerIsChosen(call, limits, before, after);
    ChosenIsNext(call.pool, call.req, before.cursor, after.cursor, call.picked, d);
  }

  /** The candidate that a routed call should get: the last success, else the best probe, else the first to serve. */
  ghost predicate FirstChoice(pool: Pool, req: Request, ids: seq<Id>, a: Account) {
    && Serves(pool, req, a)
    && (SucceededLast(pool, req, ids, a.id)
        || ((forall b :: Serves(pool, req, b) ==> !SucceededLast(pool, req, ids, b.id))
            && (ProbedBest(pool, req, ids, a.id)
                || ((forall b :: Serves(pool, req, b) ==> !ProbedBest(pool, req, ids, b.id))
                    && exists i :: 0 <= i < |ids| && ids[i] == a.id
                                   && forall b, j :: Serves(pool, req, b) && 0 <= j < i ==> b.id != ids[j]))))
  }

  /** Main preference, with a route. */
  lemma AnswerIsFirstChoice(call: Call, limits: Limits, before: Spot, after: Spot, ids: seq<Id>, a: Account)
    requires PoolOk(call.pool) && Answered(call, limits, before, after) && ChoosesFreely(call, before.sticky)
    requires call.req.candidates == Some(ids) && FirstChoice(call.pool, call.req, ids, a)
    ensures call.picked == Some(a)
  {
    var pool, req, from := call.pool, call.req, Turn(before.cursor, call.gaps);
    FreeAnswerIsChosen(call, limits, before, after);
    if SucceededLast(pool, req, ids, a.id) {
      RoutedSucceededLast(pool, req, ids, from, after.cursor, call.picked, a);
    } else if ProbedBest(pool, req, ids, a.id) {
      RoutedProbedBest(pool, req, ids, from, after.cursor, call.picked, a);
    } else {
      var i :| 0 <= i < |ids| && ids[i] == a.id && forall b, j :: Serves(pool, req, b) && 0 <= j < i ==> b.id != ids[j];
      RoutedIsFirst(pool, req, ids, from, after.cursor, call.picked, a, i);
    }
  }

  /** Afterwards the session's binding is as of now: just used, and to expire a lifetime later. */
  lemma AnswerRenews(call: Call, limits: Limits, before: Spot, after: Spot)
    requires PoolOk(call.pool) && Answered(call, limits, before, after) && call.key.Some?
    ensures call.key.value in after.sticky <==> call.picked.Some?
    ensures call.picked.Some? ==>
              after.sticky[call.key.value] == StickyEntry(call.picked.value.id, call.req.now + limits.ttl, call.req.now)
  {
  }

  /** Whatever is evicted was used no later than whatever stays. */
  lemma AnswerEvictsOldest(call: Call, limits: Limits, before: Spot, after: Spot, lost: string, kept: string)
    requires Answered(call, limits, before, after) && call.key.Some? && call.key != Some(lost) && call.key != Some(kept)
    requires lost in before.sticky && before.sticky[lost].expiresAt > call.req.now && lost !in after.sticky
    requires kept in after.sticky
    ensures kept in before.sticky && before.sticky[lost].lastUsedAt <= before.sticky[kept].lastUsedAt
  {
    AnswerKeepsOthers(call, limits, before, after, kept);
    if !Hits(call, before.sticky) && call.picked.Some? {
      var live := Pruned(before.sticky, call.req.now) - {call.key.value};
      InsertEvictsOldest(live, after.sticky, call.key.value,
                         NewBinding(call.picked.value.id, call.req.now, limits.ttl), limits.max, lost, kept);
    }
  }

  /** Afterwards the session is bound to exactly whom it got. */
  lemma AnswerBinds(call: Call, limits: Limits, before: Spot, after: Spot)
    requires Answered(call, limits, before, after) && call.key.Some? && limits.ttl >= 1
    ensures Bound(after.sticky, call.key.value, call.req.now) == IdOf(call.picked)
  {
  }

  /** Another session's binding is never changed, and is evicted only for want of room. */
  lemma AnswerKeepsOthers(call: Call, limits: Limits, before: Spot, after: Spot, k: string)
    requires Answered(call, limits, before, after) && call.key != Some(k)
    ensures k in after.sticky ==> k in before.sticky && after.sticky[k] == before.sticky[k]
    ensures k in after.sticky && call.key.Some? ==> before.sticky[k].expiresAt > call.req.now
    ensures k in before.sticky && (call.key.None? || before.sticky[k].expiresAt > call.req.now)
            && (call.key.None? || |Pruned(before.sticky, call.req.now) - {call.key.value}| < limits.max)
            ==> k in after.sticky
  {
  }

  /** A call evicts at most one live session of another key. */
  lemma AnswerEvictsAtMostOne(call: Call, limits: Limits, before: Spot, after: Spot)
    requires Answered(call, limits, before, after) && call.key.Some? && |before.sticky| <= limits.max
    ensures |Lost(Pruned(before.sticky, call.req.now), after.sticky, call.key.value)| <= 1
  {
    var key, now := call.key.value, call.req.now;
    var live := Pruned(before.sticky, now);
    if !Hits(call, before.sticky) && call.picked.Some? {
      SubmapSize(live - {key}, before.sticky);
      var entry := NewBinding(call.picked.value.id, now, limits.ttl);
      InsertEvictsAtMostOne(live - {key}, after.sticky, key, entry, limits.max);
    }
    LostOfOthers(live, after.sticky, key);
  }

  /** Capacity and references survive every call. */
  lemma AnswerIsSound(call: Call, limits: Limits, before: Spot, after: Spot)
    requires PoolOk(call.pool) && Answered(call, limits, before, after)
    requires BoundWithin(before.sticky, Ids(call.pool.accounts)) && |before.sticky| <= limits.max
    ensures BoundWithin(after.sticky, Ids(call.pool.accounts)) && |after.sticky| <= limits.max
  {
    if call.key.Some? {
      var key, now := call.key.value, call.req.now;
      TouchedIsSound(before.sticky, key, now, limits.ttl, Ids(call.pool.accounts));
      TouchedOrDropped(before.sticky, key, now, limits.ttl);
      if !Hits(call, before.sticky) && call.picked.Some? {
        AnswerServes(call, limits, before, after);
        var live, entry := Pruned(before.sticky, now) - {key}, NewBinding(call.picked.value.id, now, limits.ttl);
        InsertIsSound(live, after.sticky, key, entry, limits.max, Ids(call.pool.accounts));
      }
    }
  }

  // ---------------------------------------------------------------------------------------------
  // Runs of calls.
  // ---------------------------------------------------------------------------------------------

  ghost predicate Runs(calls: seq<Call>, limits: Limits, spots: seq<Spot>) {
    |spots| == |calls| + 1 && forall i :: 0 <= i < |calls| ==> AnsweredAt(calls, limits, spots, i)
  }

  ghost predicate AnsweredAt(calls: seq<Call>, limits: Limits, spots: seq<Spot>, i: nat)
    requires i < |calls| && |spots| == |calls| + 1
  {
    Answered(calls[i], limits, spots[i], spots[i + 1])
  }

  /** When a session's binding runs out before the i-th call: its own calls extend it. */
  function Expiry(calls: seq<Call>, key: string, ttl: int, start: int, i: nat): int
    requires i <= |calls|
  {
    if i == 0 then start
    else if calls[i - 1].key == Some(key) then calls[i - 1].req.now + ttl
    else Expiry(calls, key, ttl, start, i - 1)
  }

  /** The session may go on with its account: it asks in time, and the account may serve it each time. */
  ghost predicate Steady(calls: seq<Call>, key: string, id: Id, ttl: int, start: int) {
    forall i :: 0 <= i < |calls| ==> SteadyAt(calls, key, id, ttl, start, i)
  }

  ghost predicate SteadyAt(calls: seq<Call>, key: string, id: Id, ttl: int, start: int, i: nat)
    requires i < |calls|
  {
    calls[i].key.Some? ==>
      && calls[i].req.now < Expiry(calls, key, ttl, start, i)
      && (calls[i].key == Some(key) ==> CanKeep(calls[i], id))
  }

  /** The account may serve the call. */
  ghost predicate CanKeep(call: Call, id: Id) {
    PoolOk(call.pool) && exists a :: Serves(call.pool, call.req, a) && a.id == id
  }

  ghost predicate KeysWithin(calls: seq<Call>, keys: set<string>) {
    forall i :: 0 <= i < |calls| && calls[i].key.Some? ==> calls[i].key.value in keys
  }

  lemma RoomForAll(sticky: Sessions, now: int, key: string, keys: set<string>, max: nat)
    requires sticky.Keys <= keys && key in keys && |keys| <= max
    ensures |Pruned(sticky, now) - {key}| < max
  {
    SubsetSize((Pruned(sticky, now) - {key}).Keys, keys - {key});
  }

  /** The session is bound to the account until the given time, and no session is strange. */
  ghost predicate Holds(spot: Spot, key: string, id: Id, expiry: int, keys: set<string>) {
    && spot.sticky.Keys <= keys && key in spot.sticky
    && spot.sticky[key].account == id && spot.sticky[key].expiresAt == expiry
  }

  /** One call leaves a steady session where it was. */
  lemma HoldsOnce(
    call: Call, limits: Limits, before: Spot, after: Spot, key: string, id: Id, expiry: int, keys: set<string>)
    requires Answered(call, limits, before, after) && Holds(before, key, id, expiry, keys)
    requires |keys| <= limits.max && (call.key.Some? ==> call.key.value in keys && call.req.now < expiry)
    requires call.key == Some(key) ==> Usable(call.pool, call.req, Some(id))
    ensures Holds(after, key, id, if call.key == Some(key) then call.req.now + limits.ttl else expiry, keys)
    ensures call.key == Some(key) ==> IdOf(call.picked) == Some(id)
  {
    if call.key.Some? {
      RoomForAll(before.sticky, call.req.now, call.key.value, keys, limits.max);
      forall k | k in after.sticky ensures k in keys {
        if call.key != Some(k) {
          AnswerKeepsOthers(call, limits, before, after, k);
        }
      }
      if call.key != Some(key) {
        AnswerKeepsOthers(call, limits, before, after, key);
      }
    }
  }

  lemma SessionStep(
    calls: seq<Call>, limits: Limits, spots: seq<Spot>, key: string, id: Id, start: int, keys: set<string>, i: nat)
    requires Runs(calls, limits, spots) && KeysWithin(calls, keys) && |keys| <= limits.max
    requires Steady(calls, key, id, limits.ttl, start)
    requires i < |calls| && Holds(spots[i], key, id, Expiry(calls, key, limits.ttl, start, i), keys)
    ensures Holds(spots[i + 1], key, id, Expiry(calls, key, limits.ttl, start, i + 1), keys)
    ensures calls[i].key == Some(key) ==> IdOf(calls[i].picked) == Some(id)
  {
    assert SteadyAt(calls, key, id, limits.ttl, start, i) && AnsweredAt(calls, limits, spots, i);
    if calls[i].key == Some(key) {
      UsableIff(calls[i].pool, calls[i].req, id);
    }
    HoldsOnce(calls[i], limits, spots[i], spots[i + 1], key, id, Expiry(calls, key, limits.ttl, start, i), keys);
  }

  lemma {:induction false} SessionHolds(
    calls: seq<Call>, limits: Limits, spots: seq<Spot>, key: string, id: Id, start: int, keys: set<string>, i: nat)
    requires Runs(calls, limits, spots) && KeysWithin(calls, keys) && |keys| <= limits.max
    requires Steady(calls, key, id, limits.ttl, start)
    requires i <= |calls| && Holds(spots[0], key, id, start, keys)
    ensures Holds(spots[i], key, id, Expiry(calls, key, limits.ttl, start, i), keys)
    decreases i
  {
    if i > 0 {
      SessionHolds(calls, limits, spots, key, id, start, keys, i - 1);
      SessionStep(calls, limits, spots, key, id, start, keys, i - 1);
    }
  }

  /**
   * Stickiness, over every run of calls: with no more sessions than there is room for, a session that
   * asks again in time and whose account may serve it gets that same account every time.
   */
  lemma SessionKeepsItsAccount(
    calls: seq<Call>, limits: Limits, spots: seq<Spot>, key: string, id: Id, start: int, keys: set<string>)
    requires Runs(calls, limits, spots) && KeysWithin(calls, keys) && |keys| <= limits.max
    requires Steady(calls, key, id, limits.ttl, start)
    requires Holds(spots[0], key, id, start, keys)
    ensures forall i :: 0 <= i < |calls| && calls[i].key == Some(key) ==> IdOf(calls[i].picked) == Some(id)
    ensures Holds(spots[|calls|], key, id, Expiry(calls, key, limits.ttl, start, |calls|), keys)
  {
    forall i | 0 <= i < |calls| && calls[i].key == Some(key) ensures IdOf(calls[i].picked) == Some(id) {
      SessionHolds(calls, limits, spots, key, id, start, keys, i);
      SessionStep(calls, limits, spots, key, id, start, keys, i);
    }
    SessionHolds(calls, limits, spots, key, id, start, keys, |calls|);
  }

  /** The last of the first i calls that the session made. */
  function LastCall(calls: seq<Call>, key: string, i: nat): (last: Option<nat>)
    requires i <= |calls|
    ensures last.Some? ==> last.value < i && calls[last.value].key == Some(key)
    ensures forall j :: (if last.Some? then last.value + 1 else 0) <= j < i ==> calls[j].key != Some(key)
  {
    if i == 0 then None
    else if calls[i - 1].key == Some(key) then Some(i - 1)
    else LastCall(calls, key, i - 1)
  }

  /** The binding dates from the session's last call: its account, its time and its lifetime. */
  ghost predicate Dated(calls: seq<Call>, limits: Limits, spots: seq<Spot>, key: string, i: nat)
    requires i <= |calls| && |spots| == |calls| + 1
  {
    key in spots[i].sticky ==>
      var last := LastCall(calls, key, i);
      if last.None? then key in spots[0].sticky && spots[i].sticky[key] == spots[0].sticky[key]
      else
        var call := calls[last.value];
        && call.picked.Some?
        && spots[i].sticky[key] == StickyEntry(call.picked.value.id, call.req.now + limits.ttl, call.req.now)
  }

  lemma DatedNext(calls: seq<Call>, limits: Limits, spots: seq<Spot>, key: string, i: nat)
    requires i < |calls| && |spots| == |calls| + 1 && PoolOk(calls[i].pool)
    requires Dated(calls, limits, spots, key, i) && AnsweredAt(calls, limits, spots, i)
    ensures Dated(calls, limits, spots, key, i + 1)
  {
    if calls[i].key == Some(key) {
      AnswerRenews(calls[i], limits, spots[i], spots[i + 1]);
    } else {
      AnswerKeepsOthers(calls[i], limits, spots[i], spots[i + 1], key);
    }
  }

  /** Over every run, every binding dates from its session's last call. */
  lemma {:induction false} BindingsAreDated(calls: seq<Call>, limits: Limits, spots: seq<Spot>, key: string, i: nat)
    requires Runs(calls, limits, spots) && i <= |calls|
    requires forall j :: 0 <= j < |calls| ==> PoolOk(calls[j].pool)
    ensures Dated(calls, limits, spots, key, i)
    decreases i
  {
    if i > 0 {
      BindingsAreDated(calls, limits, spots, key, i - 1);
      assert AnsweredAt(calls, limits, spots, i - 1);
      DatedNext(calls, limits, spots, key, i - 1);
    }
  }

  /**
   * Eviction, over every run from no sessions: when a call evicts a live session, that session's last call was
   * no later than the last call of any other session that stays.
   */
  lemma EvictedWasUsedLeastRecently(
    calls: seq<Call>, limits: Limits, spots: seq<Spot>, i: nat, lost: string, kept: string)
    requires Runs(calls, limits, spots) && i < |calls| && spots[0].sticky == map[]
    requires forall j :: 0 <= j < |calls| ==> PoolOk(calls[j].pool)
    requires calls[i].key.Some? && calls[i].key != Some(lost) && calls[i].key != Some(kept)
    requires lost in spots[i].sticky && spots[i].sticky[lost].expiresAt > calls[i].req.now
    requires lost !in spots[i + 1].sticky && kept in spots[i + 1].sticky
    ensures var x, y := LastCall(calls, lost, i), LastCall(calls, kept, i);
            x.Some? && y.Some? && calls[x.value].req.now <= calls[y.value].req.now
  {
    assert AnsweredAt(calls, limits, spots, i);
    AnswerEvictsOldest(calls[i], limits, spots[i], spots[i + 1], lost, kept);
    BindingsAreDated(calls, limits, spots, lost, i);
    BindingsAreDated(calls, limits, spots, kept, i);
  }

  /** A call without route, session or exclusion, while everyone is fit and nothing is known of anyone. */
  ghost predicate Plain(call: Call, accounts: seq<Account>) {
    && call.key.None? && call.req.candidates.None? && call.pool.accounts == accounts
    && (forall a :: a in accounts ==> Fit(a, call.pool.health, call.req))
    && call.pool.recent == map[] && (forall id :: id in call.pool.traits ==> !Probed(call.pool.traits[id]))
  }

  lemma PlainTakesNext(call: Call, limits: Limits, before: Spot, after: Spot, accounts: seq<Account>)
    requires Plain(call, accounts) && accounts != [] && Answered(call, limits, before, after)
    ensures call.picked == Some(accounts[Visit(before.cursor, |accounts|, 0)])
    ensures after.cursor == Advance(before.cursor, 1)
  {
    var from := Turn(before.cursor, call.gaps);
    var r, p :| PoolChoiceBy(call.pool, call.req, from, after.cursor, call.picked, r, p);
    assert r.None? && p.None?;
    assert Place(call.gaps, 0) == 0;
    var first := accounts[Look(from, |accounts|, 0)];
    assert Fit(first, call.pool.health, call.req);
    assert call.picked.Some?;
    var at: nat :| FitAt(call.pool, call.req, from, after.cursor, call.picked.value, at);
    assert at == 0;
  }

  lemma {:induction false} TurnByTurn(
    calls: seq<Call>, limits: Limits, spots: seq<Spot>, accounts: seq<Account>, i: nat)
    requires Runs(calls, limits, spots) && accounts != [] && spots[0].cursor < WORD && i <= |calls|
    requires forall j :: 0 <= j < |calls| ==> Plain(calls[j], accounts)
    ensures spots[i].cursor == Advance(spots[0].cursor, i)
    ensures forall j :: 0 <= j < i ==> calls[j].picked == Some(accounts[Visit(spots[0].cursor, |accounts|, j)])
    decreases i
  {
    if i > 0 {
      AdvanceAdds(spots[0].cursor, i - 1, 1);
      TurnByTurn(calls, limits, spots, accounts, i - 1);
      assert AnsweredAt(calls, limits, spots, i - 1);
      PlainTakesNext(calls[i - 1], limits, spots[i - 1], spots[i], accounts);
      VisitLater(spots[0].cursor, |accounts|, i - 1);
    }
  }

  /** Fairness: in as many consecutive plain calls as there are accounts, each account is picked exactly once. */
  lemma EveryoneGetsATurn(calls: seq<Call>, limits: Limits, spots: seq<Spot>, accounts: seq<Account>)
    requires Runs(calls, limits, spots) && UniqueIds(accounts) && 0 < |accounts| == |calls| <= WORD
    requires spots[0].cursor < WORD && SweepAligned(spots[0].cursor, |accounts|)
    requires forall j :: 0 <= j < |calls| ==> Plain(calls[j], accounts)
    ensures forall a :: a in accounts ==> exists i :: 0 <= i < |calls| && calls[i].picked == Some(a)
    ensures forall i, j :: 0 <= i < j < |calls| ==> calls[i].picked != calls[j].picked
  {
    var c, n := spots[0].cursor, |accounts|;
    TurnByTurn(calls, limits, spots, accounts, n);
    AlignedCovers(c, n);
    forall a | a in accounts ensures exists i :: 0 <= i < |calls| && calls[i].picked == Some(a) {
      var x :| 0 <= x < n && accounts[x] == a;
      assert Visited(c, n, x);
      var i: nat :| i < n && Visit(c, n, i) == x;
      assert calls[i].picked == Some(a);
    }
    forall i, j | 0 <= i < j < |calls| ensures calls[i].picked != calls[j].picked {
      AlignedVisitsDistinct(c, n, i, j);
    }
  }

  // ---------------------------------------------------------------------------------------------
  // The router.
  // ---------------------------------------------------------------------------------------------

  class RoundRobinRouter {
    var accounts: seq<Account>
    var traits: map<Id, Traits>
    var plan: Option<ModelRoutes.Plan>
    var cursor: nat
    var health: map<Id, int>
    var recentSuccess: map<Id, int>
    var sticky: Sessions
    const ttl: int
    const maxEntries: nat
    var sessions: nat
    var hits: nat
    var misses: nat
    var rebinds: nat

    ghost predicate Valid()
      reads this
    {
      && UniqueIds(accounts) && |accounts| <= WORD && cursor < WORD
      && ttl >= 1 && maxEntries >= 1 && |sticky| <= maxEntries
      && BoundWithin(sticky, Ids(accounts))
    }

    /** Every session request so far was a hit or a miss. */
    ghost predicate Counted()
      reads this
    {
      hits + misses == sessions
    }

    function View(): Pool
      reads this
    {
      Pool(accounts, health, recentSuccess, traits)
    }

    ghost function Now(): Spot
      reads this
    {
      Spot(cursor, sticky)
    }

    constructor (accounts: seq<Account>, ttl: int, maxEntries: nat)
      requires UniqueIds(accounts) && |accounts| <= WORD
      ensures Valid() && Counted() && View() == Pool(accounts, map[], map[], map[]) && Now() == Spot(0, map[])
      ensures plan == None && sessions == 0 && rebinds == 0
      ensures this.ttl == (if ttl < 1 then 1 else ttl) && this.maxEntries == if maxEntries < 1 then 1 else maxEntries
    {
      this.accounts := accounts;
      traits, plan, cursor, health, recentSuccess, sticky := map[], None, 0, map[], map[], map[];
      this.ttl := if ttl < 1 then 1 else ttl;
      this.maxEntries := if maxEntries < 1 then 1 else maxEntries;
      sessions, hits, misses, rebinds := 0, 0, 0, 0;
    }

    // Keeping the pool.

    /** Keep what is remembered about the given accounts only. */
    method RememberOnly(valid: set<Id>)
      requires Valid()
      modifies this`health, this`traits, this`recentSuccess
      ensures Valid() && health == Within(old(health), valid)
      ensures traits == Within(old(traits), valid) && recentSuccess == Within(old(recentSuccess), valid)
    {
      traits, health, recentSuccess := Within(traits, valid), Within(health, valid), Within(recentSuccess, valid);
    }

    /** The accounts, with the sessions bound to them; the turn restarts. */
    method PutPool(next: seq<Account>)
      requires Valid() && UniqueIds(next) && |next| <= WORD
      modifies this`accounts, this`cursor, this`sticky
      ensures Valid() && accounts == next && cursor == 0 && sticky == BoundTo(old(sticky), Ids(next))
    {
      var bound := BoundTo(sticky, Ids(next));
      accounts, cursor, sticky := next, 0, bound;
    }

    /** A new pool: nothing remembered may name an account that is gone. */
    method ReplaceAccounts(next: seq<Account>)
      requires Valid() && UniqueIds(next) && |next| <= WORD
      modifies this`accounts, this`cursor, this`sticky, this`health, this`traits, this`recentSuccess
      ensures Valid() && accounts == next && cursor == 0 && sticky == BoundTo(old(sticky), Ids(next))
      ensures health == Within(old(health), Ids(next)) && traits == Within(old(traits), Ids(next))
      ensures recentSuccess == Within(old(recentSuccess), Ids(next))
    {
      PutPool(next);
      RememberOnly(Ids(next));
    }

    /** Drop what is remembered about one account. */
    method ForgetAccount(id: Id)
      requires Valid()
      modifies this`health, this`traits, this`recentSuccess
      ensures Valid()
      ensures health == Forget(old(health), id, true) && traits == Forget(old(traits), id, true)
      ensures recentSuccess == Forget(old(recentSuccess), id, true)
    {
      health, traits := Forget(health, id, true), Forget(traits, id, true);
      recentSuccess := Forget(recentSuccess, id, true);
    }

    /** The account and every session bound to it. */
    method RemoveAccount(id: Id) returns (removed: bool)
      requires Valid()
      modifies this`accounts, this`sticky
      ensures Valid() && removed == (id in Ids(old(accounts)))
      ensures accounts == Others(old(accounts), id) && sticky == Unbound(old(sticky), id)
    {
      DeletingIsSound(accounts, sticky, id);
      var kept, bound := Others(accounts, id), Unbound(sticky, id);
      removed := |kept| != |accounts|;
      accounts := kept;
      if removed {
        sticky := bound;
      }
    }

    /** Removing an account also removes every session bound to it and all that is remembered of it. */
    method DeleteAccount(id: Id) returns (removed: bool)
      requires Valid()
      modifies this`accounts, this`sticky, this`health, this`traits, this`recentSuccess
      ensures Valid() && removed == (id in Ids(old(accounts)))
      ensures accounts == Others(old(accounts), id) && sticky == Unbound(old(sticky), id)
      ensures health == Forget(old(health), id, removed) && traits == Forget(old(traits), id, removed)
      ensures recentSuccess == Forget(old(recentSuccess), id, removed)
    {
      removed := RemoveAccount(id);
      if removed {
        ForgetAccount(id);
      }
    }

    /** Replace an account in its place, or append it and restart the turn; a disabled one loses its sessions. */
    method PutAccount(a: Account)
      requires Valid() && |accounts| < WORD
      modifies this`accounts, this`cursor, this`sticky
      ensures Valid() && accounts == Upserted(old(accounts), a)
      ensures sticky == if a.enabled then old(sticky) else Unbound(old(sticky), a.id)
      ensures cursor == if a.id in Ids(old(accounts)) then old(cursor) else 0
    {
      UpsertIsSound(accounts, sticky, a);
      var known, next, bound := FindAccount(accounts, a.id).Some?, Upserted(accounts, a), Unbound(sticky, a.id);
      accounts := next;
      if !known {
        cursor := 0;
      }
      if !a.enabled {
        sticky := bound;
      }
    }

    /** Insert or replace an account; disabling one also forgets what was remembered of it. */
    method UpsertAccount(a: Account)
      requires Valid() && |accounts| < WORD
      modifies this`accounts, this`cursor, this`sticky, this`health, this`traits, this`recentSuccess
      ensures Valid() && accounts == Upserted(old(accounts), a)
      ensures sticky == if a.enabled then old(sticky) else Unbound(old(sticky), a.id)
      ensures cursor == if a.id in Ids(old(accounts)) then old(cursor) else 0
      ensures health == Forget(old(health), a.id, !a.enabled) && traits == Forget(old(traits), a.id, !a.enabled)
      ensures recentSuccess == Forget(old(recentSuccess), a.id, !a.enabled)
    {
      PutAccount(a);
      if !a.enabled {
        ForgetAccount(a.id);
      }
    }

    /** Only an enabled account of the pool is remembered as successful. */
    method RecordSuccess(id: Id, now: int)
      requires Valid()
      modifies this`recentSuccess
      ensures Valid()
      ensures recentSuccess
           == if exists a :: a in accounts && a.id == id && a.enabled then old(recentSuccess)[id := now]
              else old(recentSuccess)
    {
      var found := FindAccount(accounts, id);
      if found.Some? && found.value.enabled {
        recentSuccess := recentSuccess[id := now];
      }
    }

    method MarkUnhealthy(id: Id, cooldown: nat, now: int)
      requires Valid()
      modifies this`health
      ensures Valid() && health == if cooldown == 0 then old(health) else old(health)[id := now + cooldown]
      ensures cooldown > 0 ==> forall t :: Alive(health, id, t) <==> now + cooldown <= t
    {
      if cooldown == 0 {
        return;
      }
      health := health[id := now + cooldown];
    }

    // Choosing.

    /** `fetch_add`, and the place it gives. */
    method Tick() returns (index: nat)
      requires accounts != []
      modifies this`cursor
      ensures cursor == Advance(old(cursor), 1) && index == old(cursor) % |accounts|
    {
      index := cursor % |accounts|;
      cursor := Advance(cursor, 1);
    }

    /** The round robin proper.  `gaps` are the ticks of other calls after each tick of this one. */
    method Sweep(req: Request, gaps: seq<nat>) returns (picked: Option<Account>)
      requires Valid()
      modifies this`cursor
      ensures Valid() && FirstVisited(View(), req, Turn(old(cursor), gaps), cursor, picked)
    {
      ghost var pool, from := View(), Turn(cursor, gaps);
      NoneVisitedYet(pool, req, from);
      AtStart(from);
      for j := 0 to |accounts|
        invariant View() == pool && cursor == At(from, j)
        invariant NoneVisited(pool, req, from, j)
      {
        OwnTick(from, j);
        AtLooks(from, |accounts|, j);
        var index := Tick();
        if Fit(accounts[index], health, req) {
          VisitedFirst(pool, req, from, cursor, accounts[index], j);
          return Some(accounts[index]);
        }
        OneMoreVisited(pool, req, from, j);
        cursor := Advance(cursor, Gap(gaps, j));
      }
      picked := None;
    }

    /** Any account of the pool: the latest success, else the freshest probe, else the sweep. */
    method PickExcluding(req: Request, gaps: seq<nat>) returns (picked: Option<Account>)
      requires Valid() && req.candidates.None?
      modifies this`cursor
      ensures Valid() && Chosen(View(), req, Turn(old(cursor), gaps), cursor, picked)
    {
      ghost var from := Turn(cursor, gaps);
      var r := Preferred(View(), req, SuccessRanks(recentSuccess));
      if r.Some? {
        ghost var p := TopExists(FitIds(accounts, health, req), ProbeRanks(traits));
        picked := FindAccount(accounts, r.value);
        assert PoolChoiceBy(View(), req, from, cursor, picked, r, p);
        return;
      }
      var p := Preferred(View(), req, ProbeRanks(traits));
      if p.Some? {
        picked := FindAccount(accounts, p.value);
      } else {
        picked := Sweep(req, gaps);
      }
      assert PoolChoiceBy(View(), req, from, cursor, picked, r, p);
    }

    /** The first usable account of an ordered list of ids. */
    method FirstUsable(ids: seq<Id>, req: Request) returns (picked: Option<Account>)
      ensures FirstInOrder(View(), req, ids, picked)
    {
      for i := 0 to |ids|
        invariant forall j :: 0 <= j < i ==> Offer(View(), req, Some(ids[j])).None?
      {
        picked := Offer(View(), req, Some(ids[i]));
        if picked.Some? {
          return;
        }
      }
      picked := None;
    }

    /** A routed request: the latest success or freshest probe among the candidates, else their order. */
    method PickCandidate(ids: seq<Id>, req: Request) returns (picked: Option<Account>)
      requires req.candidates == Some(ids)
      ensures forall gaps: seq<nat> :: Chosen(View(), req, Turn(cursor, gaps), cursor, picked)
    {
      var open := NotExcluded(ids, req.excluded);
      var r := Best(open, SuccessRanks(recentSuccess));
      picked := Offer(View(), req, r);
      if picked.Some? {
        ghost var p := TopExists(open, ProbeRanks(traits));
        assert CandidateChoiceBy(View(), req, ids, picked, r, p);
        return;
      }
      var p := Best(open, ProbeRanks(traits));
      picked := Offer(View(), req, p);
      if picked.None? {
        picked := FirstUsable(ids, req);
      }
      assert CandidateChoiceBy(View(), req, ids, picked, r, p);
    }

    method PickFrom(req: Request, gaps: seq<nat>) returns (picked: Option<Account>)
      requires Valid()
      modifies this`cursor
      ensures Valid() && Chosen(View(), req, Turn(old(cursor), gaps), cursor, picked)
    {
      match req.candidates
      case None => picked := PickExcluding(req, gaps);
      case Some(ids) => picked := PickCandidate(ids, req);
    }

    /** The next in turn, or the first candidate, away from the accounts that other live sessions use. */
    method PickAvoiding(req: Request, busy: set<Id>, gaps: seq<nat>) returns (picked: Option<Account>)
      requires Valid()
      modifies this`cursor
      ensures Valid() && InTurn(View(), Avoiding(req, busy), Turn(old(cursor), gaps), cursor, picked)
    {
      var away := Avoiding(req, busy);
      match req.candidates
      case None => picked := Sweep(away, gaps);
      case Some(ids) => picked := FirstUsable(ids, away);
    }

    /** Pick for a session without a usable binding, preferring idle accounts if asked to. */
    method Choose(req: Request, busy: set<Id>, preferIdle: bool, gaps: seq<nat>) returns (picked: Option<Account>)
      requires Valid()
      modifies this`cursor
      ensures Valid() && Picks(View(), req, busy, preferIdle, Turn(old(cursor), gaps), cursor, picked)
    {
      if !preferIdle {
        picked := PickFrom(req, gaps);
        return;
      }
      ghost var from := Turn(cursor, gaps);
      var idle := PickAvoiding(req, busy, gaps);
      ghost var mid := cursor;
      picked := idle;
      if idle.None? {
        picked := PickFrom(req, Later(gaps, |accounts|));
      }
      assert ChosenIdle(View(), req, busy, from, mid, cursor, idle, picked);
    }

    // Sessions.

    /** `get_sticky_account_id`: the live binding of a session, whose life it extends. */
    method GetSticky(key: string, now: int) returns (id: Option<Id>)
      requires Valid()
      modifies this`sticky
      ensures Valid() && id == Bound(old(sticky), key, now) && sticky == Touched(old(sticky), key, now, ttl)
    {
      TouchedIsSound(sticky, key, now, ttl, Ids(accounts));
      sticky := Pruned(sticky, now);
      if key !in sticky {
        return None;
      }
      id := Some(sticky[key].account);
      sticky := sticky[key := NewBinding(sticky[key].account, now, ttl)];
    }

    /** `insert_sticky_mapping`: prune, make room by evicting the least recently used, then bind. */
    method InsertSticky(key: string, id: Id, now: int) returns (rebind: bool)
      requires Valid() && id in Ids(accounts)
      modifies this`sticky
      ensures Valid() && LruInsert(Pruned(old(sticky), now), sticky, key, NewBinding(id, now, ttl), maxEntries)
      ensures var live := Pruned(old(sticky), now);
              && (rebind ==> key in live && live[key].account != id)
              && (|live| < maxEntries && key in live && live[key].account != id ==> rebind)
    {
      var live := Pruned(sticky, now);
      var kept := EnforceCapacity(live, maxEntries);
      var entry := NewBinding(id, now, ttl);
      rebind := key in kept && kept[key].account != id;
      EvictThenInsert(live, kept, key, entry, maxEntries);
      InsertIsSound(live, kept[key := entry], key, entry, maxEntries, Ids(accounts));
      sticky := kept[key := entry];
    }

    /** Bind a session by hand; refused for a blank key or an account that cannot serve. */
    method BindSticky(sessionKey: string, id: Id, now: int) returns (done: bool)
      requires Valid()
      modifies this`sticky, this`rebinds
      ensures Valid()
      ensures done == (Trim(sessionKey) != [] && Offer(View(), Request(None, {}, now), Some(id)).Some?)
      ensures !done ==> sticky == old(sticky) && rebinds == old(rebinds)
      ensures done ==> Inserted(Pruned(old(sticky), now), sticky, Trim(sessionKey), id, now, rebinds - old(rebinds))
    {
      var key := Trim(sessionKey);
      if key == [] || Offer(View(), Request(None, {}, now), Some(id)).None? {
        return false;
      }
      Insert(key, id, now);
      done := true;
    }

    /** The binding is inserted, and counted as a rebind only if it moves the session. */
    ghost predicate Inserted(live: Sessions, after: Sessions, key: string, id: Id, now: int, counted: int)
      reads this
    {
      && LruInsert(live, after, key, NewBinding(id, now, ttl), maxEntries)
      && (counted == 0 || (counted == 1 && key in live && live[key].account != id))
      && (|live| < maxEntries && key in live && live[key].account != id ==> counted == 1)
    }

    method Insert(key: string, id: Id, now: int)
      requires Valid() && id in Ids(accounts)
      modifies this`sticky, this`rebinds
      ensures Valid() && Inserted(Pruned(old(sticky), now), sticky, key, id, now, rebinds - old(rebinds))
    {
      var rebind := InsertSticky(key, id, now);
      if rebind {
        rebinds := rebinds + 1;
      }
    }

    /** Drop a binding that the request cannot use. */
    method DropSticky(key: string)
      requires Valid()
      modifies this`sticky
      ensures Valid() && sticky == old(sticky) - {key}
    {
      SubmapSize(sticky - {key}, sticky);
      sticky := sticky - {key};
    }

    /** The session's live binding if the request can use it; one that it cannot use is dropped. */
    method KeepBinding(req: Request, key: string) returns (picked: Option<Account>)
      requires Valid()
      modifies this`sticky
      ensures Valid()
      ensures var bound := Bound(old(sticky), key, req.now);
              if Usable(View(), req, bound) then
                picked.Some? && picked == Offer(View(), req, bound)
                && sticky == Pruned(old(sticky), req.now)[key := NewBinding(bound.value, req.now, ttl)]
              else picked.None? && sticky == Pruned(old(sticky), req.now) - {key}
    {
      var bound := GetSticky(key, req.now);
      TouchedOrDropped(old(sticky), key, req.now, ttl);
      if Usable(View(), req, bound) {
        picked := Offer(View(), req, bound);
        return;
      }
      if bound.Some? {
        DropSticky(key);
      }
      picked := None;
    }

    /** Pick for a session that has no binding left, and bind it; that never counts as a rebind. */
    method ChooseAndBind(req: Request, key: string, preferIdle: bool, gaps: seq<nat>)
      returns (picked: Option<Account>)
      requires Valid() && key !in sticky && Pruned(sticky, req.now) == sticky
      modifies this`cursor, this`sticky, this`rebinds
      ensures Valid() && rebinds == old(rebinds)
      ensures Picks(View(), req, Conflicts(old(sticky), key, req.now), preferIdle,
                    Turn(old(cursor), gaps), cursor, picked)
      ensures Rebound(old(sticky), sticky, key, IdOf(picked), req.now, ttl, maxEntries)
    {
      var busy := Conflicts(sticky, key, req.now);
      picked := Choose(req, busy, preferIdle, gaps);
      if picked.Some? {
        PicksServe(View(), req, busy, preferIdle, Turn(old(cursor), gaps), cursor, picked);
        Insert(key, picked.value.id, req.now);
      }
    }

    method Count(hit: bool)
      requires Valid() && Counted()
      modifies this`sessions, this`hits, this`misses
      ensures Valid() && Counted() && sessions == old(sessions) + 1
      ensures hits == old(hits) + if hit then 1 else 0
    {
      sessions := sessions + 1;
      if hit {
        hits := hits + 1;
      } else {
        misses := misses + 1;
      }
    }

    /** The answer to a session that keeps its binding. */
    method AnswerHit(req: Request, key: string, ghost preferIdle: bool, ghost gaps: seq<nat>)
      returns (picked: Option<Account>)
      requires Valid() && Usable(View(), req, Bound(sticky, key, req.now))
      modifies this`sticky
      ensures Valid()
      ensures Answered(Call(View(), req, Some(key), preferIdle, gaps, picked), Limits(ttl, maxEntries),
                       old(Now()), Now())
    {
      picked := KeepBinding(req, key);
      AnsweredByBinding(Call(View(), req, Some(key), preferIdle, gaps, picked), Limits(ttl, maxEntries),
                        old(Now()), Now());
    }

    /** The answer to a session whose binding, if it had one, was just dropped. */
    method BindAnew(req: Request, key: string, preferIdle: bool, gaps: seq<nat>, ghost before: Sessions)
      returns (picked: Option<Account>)
      requires Valid() && !Usable(View(), req, Bound(before, key, req.now))
      requires sticky == Pruned(before, req.now) - {key}
      modifies this`cursor, this`sticky, this`rebinds
      ensures Valid() && rebinds == old(rebinds)
      ensures Answered(Call(View(), req, Some(key), preferIdle, gaps, picked), Limits(ttl, maxEntries),
                       Spot(old(cursor), before), Now())
    {
      PrunedAgain(before, key, req.now);
      ghost var from, mid := Spot(cursor, before), sticky;
      picked := ChooseAndBind(req, key, preferIdle, gaps);
      AnsweredByPick(Call(View(), req, Some(key), preferIdle, gaps, picked), Limits(ttl, maxEntries), from, mid, Now());
    }

    /** The answer to a session without a usable binding. */
    method AnswerMiss(req: Request, key: string, preferIdle: bool, gaps: seq<nat>)
      returns (picked: Option<Account>)
      requires Valid() && !Usable(View(), req, Bound(sticky, key, req.now))
      modifies this`cursor, this`sticky, this`rebinds
      ensures Valid() && rebinds == old(rebinds)
      ensures Answered(Call(View(), req, Some(key), preferIdle, gaps, picked), Limits(ttl, maxEntries),
                       old(Now()), Now())
    {
      ghost var before := sticky;
      picked := KeepBinding(req, key);
      picked := BindAnew(req, key, preferIdle, gaps, before);
    }

    /** A request of a session: keep its account while that is usable, else pick and bind. */
    method AnswerSession(req: Request, key: string, preferIdle: bool, gaps: seq<nat>)
      returns (picked: Option<Account>)
      requires Valid()
      modifies this`cursor, this`sticky, this`rebinds
      ensures Valid() && rebinds == old(rebinds)
      ensures Answered(Call(View(), req, Some(key), preferIdle, gaps, picked), Limits(ttl, maxEntries),
                       old(Now()), Now())
    {
      if Usable(View(), req, Bound(sticky, key, req.now)) {
        picked := AnswerHit(req, key, preferIdle, gaps);
      } else {
        picked := AnswerMiss(req, key, preferIdle, gaps);
      }
    }

    /** The counting around it. */
    method PickForSession(req: Request, key: string, preferIdle: bool, gaps: seq<nat>)
      returns (picked: Option<Account>)
      requires Valid() && Counted()
      modifies this`cursor, this`sticky, this`rebinds, this`sessions, this`hits, this`misses
      ensures Valid() && Counted() && rebinds == old(rebinds) && sessions == old(sessions) + 1
      ensures Answered(Call(View(), req, Some(key), preferIdle, gaps, picked), Limits(ttl, maxEntries),
                       old(Now()), Now())
      ensures hits == old(hits) + if old(Usable(View(), req, Bound(sticky, key, req.now))) then 1 else 0
    {
      Count(Usable(View(), req, Bound(sticky, key, req.now)));
      picked := AnswerSession(req, key, preferIdle, gaps);
    }

    /** `pick_for_model`, with and without a compiled route and with and without a session. */
    method PickForModel(
      model: Option<string>, sessionKey: Option<string>, excluded: set<Id>, preferIdle: bool, now: int,
      gaps: seq<nat>)
      returns (picked: Option<Account>)
      requires Valid() && Counted()
      modifies this`cursor, this`sticky, this`rebinds, this`sessions, this`hits, this`misses
      ensures Valid() && Counted() && rebinds == old(rebinds)
      ensures var req := Request(ModelRoutes.Candidates(plan, model), excluded, now);
              Answered(Call(View(), req, Key(sessionKey), preferIdle, gaps, picked), Limits(ttl, maxEntries),
                       old(Now()), Now())
      ensures Key(sessionKey).None? ==> sessions == old(sessions) && hits == old(hits)
      ensures Key(sessionKey).Some? ==>
                var req, key := Request(ModelRoutes.Candidates(plan, model), excluded, now), Key(sessionKey).value;
                && sessions == old(sessions) + 1
                && hits == old(hits) + if old(Usable(View(), req, Bound(sticky, key, now))) then 1 else 0
    {
      var req, key := Request(ModelRoutes.Candidates(plan, model), excluded, now), Key(sessionKey);
      if key.None? {
        picked := PickFrom(req, gaps);
        return;
      }
      picked := PickForSession(req, key.value, preferIdle, gaps);
    }
  }
}
