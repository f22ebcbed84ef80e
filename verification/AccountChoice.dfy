/** How the router chooses an account for a request: who is chosen, whom it prefers, and that it is determined. */
module AccountChoice {
  import opened Text
  import opened StickySessions
  import opened WrappingSweep
  import opened SharedSweep
  import opened AccountPool

  // ---------------------------------------------------------------------------------------------
  // How a request chooses.
  // ---------------------------------------------------------------------------------------------

  function IdOf(picked: Option<Account>): Option<Id> { if picked.Some? then Some(picked.value.id) else None }

  /** The first usable account in the order of the ids. */
  ghost predicate FirstInOrder(pool: Pool, req: Request, ids: seq<Id>, picked: Option<Account>) {
    if picked.None? then forall id :: id in ids ==> Offer(pool, req, Some(id)).None?
    else exists i :: 0 <= i < |ids| && Offer(pool, req, Some(ids[i])) == picked
                     && forall j :: 0 <= j < i ==> Offer(pool, req, Some(ids[j])).None?
  }

  ghost predicate NoneVisited(pool: Pool, req: Request, from: Turn, count: nat) {
    var n := |pool.accounts|;
    forall i: nat :: i < count <= n ==> !Fit(pool.accounts[Look(from, n, i)], pool.health, req)
  }

  lemma OneMoreVisited(pool: Pool, req: Request, from: Turn, j: nat)
    requires j < |pool.accounts| && NoneVisited(pool, req, from, j)
    requires !Fit(pool.accounts[Look(from, |pool.accounts|, j)], pool.health, req)
    ensures NoneVisited(pool, req, from, j + 1)
  {
  }

  lemma NoneVisitedYet(pool: Pool, req: Request, from: Turn)
    ensures NoneVisited(pool, req, from, 0)
  {
  }

  /** The account of the sweep's own tick `at` is the first fit one, and the cursor is just past it. */
  ghost predicate FitAt(pool: Pool, req: Request, from: Turn, to: nat, a: Account, at: nat) {
    && at < |pool.accounts| && pool.accounts[Look(from, |pool.accounts|, at)] == a && Fit(a, pool.health, req)
    && to == Advance(from.cursor, Place(from.gaps, at) + 1) && NoneVisited(pool, req, from, at)
  }

  /** The first fit account that a sweep visits. */
  ghost predicate FirstVisited(pool: Pool, req: Request, from: Turn, to: nat, picked: Option<Account>) {
    var n := |pool.accounts|;
    if picked.None? then to == NextTurn(from, n).cursor && NoneVisited(pool, req, from, n)
    else exists at: nat :: FitAt(pool, req, from, to, picked.value, at)
  }

  lemma VisitedFirst(pool: Pool, req: Request, from: Turn, to: nat, a: Account, j: nat)
    requires FitAt(pool, req, from, to, a, j)
    ensures FirstVisited(pool, req, from, to, Some(a))
  {
  }

  /** With r and p the best by success and by probe among the fit accounts. */
  ghost predicate PoolChoiceBy(
    pool: Pool, req: Request, from: Turn, to: nat, picked: Option<Account>, r: Option<Id>, p: Option<Id>)
  {
    var ids := FitIds(pool.accounts, pool.health, req);
    && Top(ids, SuccessRanks(pool.recent), r) && Top(ids, ProbeRanks(pool.traits), p)
    && (if r.Some? then picked == FindAccount(pool.accounts, r.value) && to == from.cursor
        else if p.Some? then picked == FindAccount(pool.accounts, p.value) && to == from.cursor
        else FirstVisited(pool, req, from, to, picked))
  }

  /** With r and p the best by success and by probe among the candidates that are not excluded. */
  ghost predicate CandidateChoiceBy(
    pool: Pool, req: Request, ids: seq<Id>, picked: Option<Account>, r: Option<Id>, p: Option<Id>)
  {
    var open := NotExcluded(ids, req.excluded);
    && Top(open, SuccessRanks(pool.recent), r) && Top(open, ProbeRanks(pool.traits), p)
    && (if Offer(pool, req, r).Some? then picked == Offer(pool, req, r)
        else if Offer(pool, req, p).Some? then picked == Offer(pool, req, p)
        else FirstInOrder(pool, req, ids, picked))
  }

  /**
   * Without a route: the fit account that succeeded last, else the fit account with the freshest and
   * latest probe, else the next fit one in turn.  With a route: the last success among the candidates,
   * else the best probe, else their order.  There recency ranks the candidates before usability is
   * tested, so a last success that cannot be used now is not replaced by the one before it.
   */
  ghost predicate Chosen(pool: Pool, req: Request, from: Turn, to: nat, picked: Option<Account>) {
    match req.candidates
    case None => exists r, p :: PoolChoiceBy(pool, req, from, to, picked, r, p)
    case Some(ids) => to == from.cursor && exists r, p :: CandidateChoiceBy(pool, req, ids, picked, r, p)
  }

  /** The next in turn, or the first candidate, without regard to recency. */
  ghost predicate InTurn(pool: Pool, req: Request, from: Turn, to: nat, picked: Option<Account>) {
    match req.candidates
    case None => FirstVisited(pool, req, from, to, picked)
    case Some(ids) => to == from.cursor && FirstInOrder(pool, req, ids, picked)
  }

  /** An account that no other session uses, in turn; only if there is none, as without sessions. */
  ghost predicate ChosenIdle(
    pool: Pool, req: Request, busy: set<Id>, from: Turn, mid: nat, to: nat,
    idle: Option<Account>, picked: Option<Account>)
  {
    && InTurn(pool, Avoiding(req, busy), from, mid, idle)
    && if idle.Some? then picked == idle && to == mid
       else Chosen(pool, req, Turn(mid, Later(from.gaps, |pool.accounts|)), to, picked)
  }

  ghost predicate Picks(
    pool: Pool, req: Request, busy: set<Id>, preferIdle: bool, from: Turn, to: nat, picked: Option<Account>)
  {
    if preferIdle then exists mid, idle :: ChosenIdle(pool, req, busy, from, mid, to, idle, picked)
    else Chosen(pool, req, from, to, picked)
  }

  /**
   * A routed request never sweeps; any other sees every account if its sweep covers the pool, which
   * `SharedSweep` characterises.
   */
  ghost predicate Sees(req: Request, n: nat, from: Turn) { req.candidates.Some? || n == 0 || Covers(from, n) }

  lemma VisitedServes(pool: Pool, req: Request, from: Turn, to: nat, picked: Option<Account>)
    requires req.candidates.None? && FirstVisited(pool, req, from, to, picked) && picked.Some?
    ensures Serves(pool, req, picked.value)
  {
    var at: nat :| FitAt(pool, req, from, to, picked.value, at);
  }

  /** If no visited account is fit and the sweep covers the pool, no account is fit. */
  lemma NothingFit(pool: Pool, req: Request, from: Turn)
    requires pool.accounts == [] || Covers(from, |pool.accounts|)
    requires NoneVisited(pool, req, from, |pool.accounts|)
    ensures NoneServes(pool, req)
  {
    var n := |pool.accounts|;
    forall a | a in pool.accounts ensures !Fit(a, pool.health, req) {
      var i :| 0 <= i < n && pool.accounts[i] == a;
      assert Looked(from, n, i);
      var j: nat :| j < n && Look(from, n, j) == i;
    }
  }

  lemma OrderedServes(pool: Pool, req: Request, ids: seq<Id>, picked: Option<Account>)
    requires UniqueIds(pool.accounts) && req.candidates == Some(ids) && FirstInOrder(pool, req, ids, picked)
    ensures picked.Some? ==> Serves(pool, req, picked.value)
    ensures picked.None? ==> NoneServes(pool, req)
  {
    if picked.None? {
      forall a | a in pool.accounts && a.id in ids ensures !Fit(a, pool.health, req) {
        if Fit(a, pool.health, req) {
          OfferFinds(pool, req, a);
        }
      }
    }
  }

  lemma InTurnServes(pool: Pool, req: Request, from: Turn, to: nat, picked: Option<Account>)
    requires UniqueIds(pool.accounts) && InTurn(pool, req, from, to, picked)
    ensures picked.Some? ==> Serves(pool, req, picked.value)
    ensures picked.None? && Sees(req, |pool.accounts|, from) ==> NoneServes(pool, req)
    ensures picked.None? && req.candidates.None? ==> to == NextTurn(from, |pool.accounts|).cursor
  {
    match req.candidates
    case None =>
      if picked.Some? {
        VisitedServes(pool, req, from, to, picked);
      } else if Sees(req, |pool.accounts|, from) {
        NothingFit(pool, req, from);
      }
    case Some(ids) => OrderedServes(pool, req, ids, picked);
  }

  lemma PoolChoiceServes(
    pool: Pool, req: Request, from: Turn, to: nat, picked: Option<Account>, r: Option<Id>, p: Option<Id>)
    requires UniqueIds(pool.accounts) && req.candidates.None?
    requires PoolChoiceBy(pool, req, from, to, picked, r, p)
    ensures picked.Some? ==> Serves(pool, req, picked.value)
    ensures picked.None? && Sees(req, |pool.accounts|, from) ==> NoneServes(pool, req)
  {
    if r.Some? {
      TopIsFit(pool, req, SuccessRanks(pool.recent), r);
    } else if p.Some? {
      TopIsFit(pool, req, ProbeRanks(pool.traits), p);
    } else {
      InTurnServes(pool, req, from, to, picked);
    }
  }

  lemma CandidateChoiceServes(
    pool: Pool, req: Request, ids: seq<Id>, picked: Option<Account>, r: Option<Id>, p: Option<Id>)
    requires UniqueIds(pool.accounts) && req.candidates == Some(ids)
    requires CandidateChoiceBy(pool, req, ids, picked, r, p)
    ensures picked.Some? ==> Serves(pool, req, picked.value)
    ensures picked.None? ==> NoneServes(pool, req)
  {
    if Offer(pool, req, r).None? && Offer(pool, req, p).None? {
      OrderedServes(pool, req, ids, picked);
    }
  }

  /** Whoever is chosen may serve, and nobody is chosen only if nobody may, given that the sweep sees everyone. */
  lemma ChosenServes(pool: Pool, req: Request, from: Turn, to: nat, picked: Option<Account>)
    requires UniqueIds(pool.accounts) && Chosen(pool, req, from, to, picked)
    ensures picked.Some? ==> Serves(pool, req, picked.value)
    ensures picked.None? && Sees(req, |pool.accounts|, from) ==> NoneServes(pool, req)
  {
    match req.candidates
    case None =>
      var r, p :| PoolChoiceBy(pool, req, from, to, picked, r, p);
      PoolChoiceServes(pool, req, from, to, picked, r, p);
    case Some(ids) =>
      var r, p :| CandidateChoiceBy(pool, req, ids, picked, r, p);
      CandidateChoiceServes(pool, req, ids, picked, r, p);
  }

  /** The sweep that decides that nobody may serve: the second one, after one for idle accounts. */
  function LastSweep(from: Turn, n: nat, preferIdle: bool): Turn { if preferIdle then NextTurn(from, n) else from }

  lemma ChosenIdleServes(
    pool: Pool, req: Request, busy: set<Id>, from: Turn, mid: nat, to: nat,
    idle: Option<Account>, picked: Option<Account>)
    requires UniqueIds(pool.accounts) && ChosenIdle(pool, req, busy, from, mid, to, idle, picked)
    ensures picked.Some? ==> Serves(pool, req, picked.value)
    ensures picked.None? && Sees(req, |pool.accounts|, NextTurn(from, |pool.accounts|)) ==> NoneServes(pool, req)
    ensures Sees(req, |pool.accounts|, from) && !NoneServes(pool, Avoiding(req, busy)) ==>
              picked.Some? && picked.value.id !in busy
  {
    InTurnServes(pool, Avoiding(req, busy), from, mid, idle);
    if idle.None? {
      ChosenServes(pool, req, Turn(mid, Later(from.gaps, |pool.accounts|)), to, picked);
    }
  }

  /**
   * Whoever is picked may serve.  Nobody is picked only if nobody may, given that the deciding sweep
   * sees everyone; and an idle account is picked whenever asked for and possible, given that the first does.
   */
  lemma PicksServe(
    pool: Pool, req: Request, busy: set<Id>, preferIdle: bool, from: Turn, to: nat, picked: Option<Account>)
    requires UniqueIds(pool.accounts) && Picks(pool, req, busy, preferIdle, from, to, picked)
    ensures picked.Some? ==> Serves(pool, req, picked.value)
    ensures picked.None? && Sees(req, |pool.accounts|, LastSweep(from, |pool.accounts|, preferIdle)) ==>
              NoneServes(pool, req)
    ensures preferIdle && Sees(req, |pool.accounts|, from) && !NoneServes(pool, Avoiding(req, busy)) ==>
              picked.Some? && picked.value.id !in busy
  {
    if preferIdle {
      var mid, idle :| ChosenIdle(pool, req, busy, from, mid, to, idle, picked);
      ChosenIdleServes(pool, req, busy, from, mid, to, idle, picked);
    } else {
      ChosenServes(pool, req, from, to, picked);
    }
  }

  // ---------------------------------------------------------------------------------------------
  // Whom the choice prefers.
  // ---------------------------------------------------------------------------------------------

  /** Without a route, nobody fit has succeeded later than the account chosen. */
  lemma ChosenSucceededLast(pool: Pool, req: Request, from: Turn, to: nat, picked: Option<Account>, a: Account)
    requires UniqueIds(pool.accounts) && req.candidates.None? && Chosen(pool, req, from, to, picked)
    requires Serves(pool, req, a) && a.id in pool.recent
    ensures picked.Some? && picked.value.id in pool.recent
    ensures var p := picked.value.id;
            pool.recent[a.id] < pool.recent[p] || (pool.recent[a.id] == pool.recent[p] && a.id <= p)
  {
    var r, p :| PoolChoiceBy(pool, req, from, to, picked, r, p);
    var i :| 0 <= i < |pool.accounts| && pool.accounts[i] == a;
    assert a.id in FitIds(pool.accounts, pool.health, req) && a.id in SuccessRanks(pool.recent);
    TopIsFit(pool, req, SuccessRanks(pool.recent), r);
  }

  /** If no success is known of the fit, nobody fit has been probed better. */
  lemma ChosenProbedBest(pool: Pool, req: Request, from: Turn, to: nat, picked: Option<Account>, a: Account)
    requires UniqueIds(pool.accounts) && req.candidates.None? && Chosen(pool, req, from, to, picked)
    requires forall b :: Serves(pool, req, b) ==> b.id !in pool.recent
    requires Serves(pool, req, a) && a.id in pool.traits && Probed(pool.traits[a.id])
    ensures picked.Some? && picked.value.id in pool.traits && Probed(pool.traits[picked.value.id])
    ensures var p := picked.value.id;
            && ProbedNoBetter(pool.traits[a.id], pool.traits[p])
            && (pool.traits[a.id] == pool.traits[p] ==> a.id <= p)
  {
    var r, p :| PoolChoiceBy(pool, req, from, to, picked, r, p);
    NobodyTop(pool, req, SuccessRanks(pool.recent), r);
    var i :| 0 <= i < |pool.accounts| && pool.accounts[i] == a;
    assert a.id in FitIds(pool.accounts, pool.health, req);
    RankedIffProbed(pool.traits, a.id);
    TopIsFit(pool, req, ProbeRanks(pool.traits), p);
    RankedIffProbed(pool.traits, p.value);
    ProbeOrder(pool.traits, a.id, p.value);
  }

  lemma NobodyTop(pool: Pool, req: Request, ranks: map<Id, Rank>, best: Option<Id>)
    requires UniqueIds(pool.accounts) && req.candidates.None?
    requires Top(FitIds(pool.accounts, pool.health, req), ranks, best)
    requires forall b :: Serves(pool, req, b) ==> b.id !in ranks
    ensures best.None?
  {
    if best.Some? {
      TopIsFit(pool, req, ranks, best);
      assert Serves(pool, req, FindAccount(pool.accounts, best.value).value);
    }
  }

  /** Nothing is known of the fit accounts. */
  ghost predicate Unranked(pool: Pool, req: Request) {
    forall b :: Serves(pool, req, b) ==>
      b.id !in pool.recent && (b.id in pool.traits ==> !Probed(pool.traits[b.id]))
  }

  /** The account e places after the cursor. */
  function Ahead(pool: Pool, cursor: nat, e: nat): Account
    requires pool.accounts != []
  {
    pool.accounts[(cursor + e) % |pool.accounts|]
  }

  /** The account d places after the cursor is fit and nobody between is. */
  ghost predicate NextFit(pool: Pool, req: Request, cursor: nat, d: nat) {
    && d < |pool.accounts| && Fit(Ahead(pool, cursor, d), pool.health, req)
    && forall e: nat :: e < d ==> !Fit(Ahead(pool, cursor, e), pool.health, req)
  }

  /** Then, alone on the cursor, the next fit account in turn is chosen and the cursor moves just past it. */
  lemma ChosenIsNext(pool: Pool, req: Request, cursor: nat, to: nat, picked: Option<Account>, d: nat)
    requires UniqueIds(pool.accounts) && req.candidates.None? && Chosen(pool, req, Turn(cursor, []), to, picked)
    requires Unranked(pool, req) && NextFit(pool, req, cursor, d) && Unwrapped(cursor, |pool.accounts|, |pool.accounts|)
    ensures picked == Some(Ahead(pool, cursor, d)) && to == Advance(cursor, d + 1)
  {
    var from := Turn(cursor, []);
    var r, p :| PoolChoiceBy(pool, req, from, to, picked, r, p);
    NobodyTop(pool, req, SuccessRanks(pool.recent), r);
    NobodyTop(pool, req, ProbeRanks(pool.traits), p);
    NextIsVisited(pool, req, cursor, d);
    FirstVisitedIsUnique(pool, req, from, to, Advance(cursor, d + 1), picked, Some(Ahead(pool, cursor, d)));
  }

  lemma AheadIsLooked(pool: Pool, cursor: nat, e: nat)
    requires e < |pool.accounts| && Unwrapped(cursor, |pool.accounts|, |pool.accounts|)
    ensures Place([], e) == e && pool.accounts[Look(Turn(cursor, []), |pool.accounts|, e)] == Ahead(pool, cursor, e)
  {
    NoForeign([], e);
    VisitIsMod(cursor, |pool.accounts|, e);
  }

  lemma NextIsVisited(pool: Pool, req: Request, cursor: nat, d: nat)
    requires NextFit(pool, req, cursor, d) && Unwrapped(cursor, |pool.accounts|, |pool.accounts|)
    ensures FirstVisited(pool, req, Turn(cursor, []), Advance(cursor, d + 1), Some(Ahead(pool, cursor, d)))
  {
    var from, n := Turn(cursor, []), |pool.accounts|;
    AheadIsLooked(pool, cursor, d);
    forall e: nat | e < d ensures !Fit(pool.accounts[Look(from, n, e)], pool.health, req) {
      AheadIsLooked(pool, cursor, e);
      assert !Fit(Ahead(pool, cursor, e), pool.health, req);
    }
    assert NoneVisited(pool, req, from, d);
    assert FitAt(pool, req, from, Advance(cursor, d + 1), Ahead(pool, cursor, d), d);
  }

  /** A candidate that is not excluded and succeeded last of those. */
  ghost predicate SucceededLast(pool: Pool, req: Request, ids: seq<Id>, id: Id) {
    && id in ids && id !in req.excluded && id in pool.recent
    && forall other :: other in ids && other !in req.excluded && other in pool.recent ==>
         pool.recent[other] < pool.recent[id] || (pool.recent[other] == pool.recent[id] && other <= id)
  }

  /** A candidate that is not excluded and was probed best of those. */
  ghost predicate ProbedBest(pool: Pool, req: Request, ids: seq<Id>, id: Id) {
    && id in ids && id !in req.excluded && id in pool.traits && Probed(pool.traits[id])
    && forall other :: other in ids && other !in req.excluded && other in pool.traits && Probed(pool.traits[other]) ==>
         && ProbedNoBetter(pool.traits[other], pool.traits[id])
         && (pool.traits[other] == pool.traits[id] ==> other <= id)
  }

  lemma TopSucceededLast(pool: Pool, req: Request, ids: seq<Id>, r: Option<Id>)
    requires Top(NotExcluded(ids, req.excluded), SuccessRanks(pool.recent), r)
    ensures r.Some? ==> SucceededLast(pool, req, ids, r.value)
    ensures forall id: Id :: SucceededLast(pool, req, ids, id) ==> r == Some(id)
  {
  }

  lemma TopProbedBest(pool: Pool, req: Request, ids: seq<Id>, p: Option<Id>)
    requires Top(NotExcluded(ids, req.excluded), ProbeRanks(pool.traits), p)
    ensures p.Some? ==> ProbedBest(pool, req, ids, p.value)
    ensures forall id: Id :: ProbedBest(pool, req, ids, id) ==> p == Some(id)
  {
    var traits := pool.traits;
    if p.Some? {
      RankedIffProbed(traits, p.value);
      forall other: Id | other in ids && other !in req.excluded && other in traits && Probed(traits[other])
        ensures ProbedNoBetter(traits[other], traits[p.value])
        ensures traits[other] == traits[p.value] ==> other <= p.value
      {
        ProbeOrder(traits, other, p.value);
      }
    }
    forall id: Id | ProbedBest(pool, req, ids, id) ensures p == Some(id) {
      RankedIffProbed(traits, id);
      ProbeOrder(traits, id, p.value);
      ProbeOrder(traits, p.value, id);
    }
  }

  /** With a route, the candidate that succeeded last is chosen if it may serve. */
  lemma RoutedSucceededLast(
    pool: Pool, req: Request, ids: seq<Id>, from: Turn, to: nat, picked: Option<Account>, a: Account)
    requires UniqueIds(pool.accounts) && req.candidates == Some(ids) && Chosen(pool, req, from, to, picked)
    requires Serves(pool, req, a) && SucceededLast(pool, req, ids, a.id)
    ensures picked == Some(a)
  {
    var r, p :| CandidateChoiceBy(pool, req, ids, picked, r, p);
    TopSucceededLast(pool, req, ids, r);
    OfferFinds(pool, req, a);
  }

  /** Else the candidate that was probed best, if that may serve. */
  lemma RoutedProbedBest(
    pool: Pool, req: Request, ids: seq<Id>, from: Turn, to: nat, picked: Option<Account>, a: Account)
    requires UniqueIds(pool.accounts) && req.candidates == Some(ids) && Chosen(pool, req, from, to, picked)
    requires forall b :: Serves(pool, req, b) ==> !SucceededLast(pool, req, ids, b.id)
    requires Serves(pool, req, a) && ProbedBest(pool, req, ids, a.id)
    ensures picked == Some(a)
  {
    var r, p :| CandidateChoiceBy(pool, req, ids, picked, r, p);
    TopSucceededLast(pool, req, ids, r);
    TopProbedBest(pool, req, ids, p);
    OfferServes(pool, req, ids, r);
    OfferFinds(pool, req, a);
  }

  lemma OfferServes(pool: Pool, req: Request, ids: seq<Id>, r: Option<Id>)
    requires req.candidates == Some(ids) && (r.Some? ==> r.value in ids)
    ensures var offer := Offer(pool, req, r);
            offer.Some? ==> Serves(pool, req, offer.value) && r == Some(offer.value.id)
  {
  }

  /** Else the first candidate that may serve. */
  lemma RoutedIsFirst(
    pool: Pool, req: Request, ids: seq<Id>, from: Turn, to: nat, picked: Option<Account>, a: Account, i: nat)
    requires UniqueIds(pool.accounts) && req.candidates == Some(ids) && Chosen(pool, req, from, to, picked)
    requires forall b :: Serves(pool, req, b) ==>
               !SucceededLast(pool, req, ids, b.id) && !ProbedBest(pool, req, ids, b.id)
    requires i < |ids| && a.id == ids[i] && Serves(pool, req, a)
    requires forall b, j :: Serves(pool, req, b) && 0 <= j < i ==> b.id != ids[j]
    ensures picked == Some(a)
  {
    var r, p :| CandidateChoiceBy(pool, req, ids, picked, r, p);
    TopSucceededLast(pool, req, ids, r);
    TopProbedBest(pool, req, ids, p);
    OfferServes(pool, req, ids, r);
    OfferServes(pool, req, ids, p);
    FirstServingIsFirst(pool, req, ids, a, i);
    FirstInOrderIsUnique(pool, req, ids, picked, Some(a));
  }

  lemma FirstServingIsFirst(pool: Pool, req: Request, ids: seq<Id>, a: Account, i: nat)
    requires UniqueIds(pool.accounts) && req.candidates == Some(ids)
    requires i < |ids| && a.id == ids[i] && Serves(pool, req, a)
    requires forall b, j :: Serves(pool, req, b) && 0 <= j < i ==> b.id != ids[j]
    ensures FirstInOrder(pool, req, ids, Some(a))
  {
    OfferFinds(pool, req, a);
    forall j | 0 <= j < i ensures Offer(pool, req, Some(ids[j])).None? {
      if Offer(pool, req, Some(ids[j])).Some? {
        assert Serves(pool, req, Offer(pool, req, Some(ids[j])).value);
      }
    }
    assert Offer(pool, req, Some(ids[i])) == Some(a);
  }

  // ---------------------------------------------------------------------------------------------
  // The choice is determined.
  // ---------------------------------------------------------------------------------------------

  lemma FirstInOrderIsUnique(pool: Pool, req: Request, ids: seq<Id>, a: Option<Account>, b: Option<Account>)
    requires FirstInOrder(pool, req, ids, a) && FirstInOrder(pool, req, ids, b)
    ensures a == b
  {
  }

  lemma FirstVisitedIsUnique(
    pool: Pool, req: Request, from: Turn, to: nat, to1: nat, a: Option<Account>, b: Option<Account>)
    requires FirstVisited(pool, req, from, to, a) && FirstVisited(pool, req, from, to1, b)
    ensures a == b && to == to1
  {
    if a.Some? && b.Some? {
      var i: nat :| FitAt(pool, req, from, to, a.value, i);
      var j: nat :| FitAt(pool, req, from, to1, b.value, j);
      assert i == j;
    }
  }

  lemma InTurnIsUnique(
    pool: Pool, req: Request, from: Turn, to: nat, to1: nat, a: Option<Account>, b: Option<Account>)
    requires InTurn(pool, req, from, to, a) && InTurn(pool, req, from, to1, b)
    ensures a == b && to == to1
  {
    match req.candidates
    case None => FirstVisitedIsUnique(pool, req, from, to, to1, a, b);
    case Some(ids) => FirstInOrderIsUnique(pool, req, ids, a, b);
  }

  /** Pool, request and cursor determine whom the choice falls on and where it leaves the cursor. */
  lemma ChosenIsUnique(
    pool: Pool, req: Request, from: Turn, to: nat, to1: nat, a: Option<Account>, b: Option<Account>)
    requires Chosen(pool, req, from, to, a) && Chosen(pool, req, from, to1, b)
    ensures a == b && to == to1
  {
    match req.candidates
    case None =>
      var ids := FitIds(pool.accounts, pool.health, req);
      var r, p :| PoolChoiceBy(pool, req, from, to, a, r, p);
      var r1, p1 :| PoolChoiceBy(pool, req, from, to1, b, r1, p1);
      TopIsUnique(ids, ids, SuccessRanks(pool.recent), r, r1);
      TopIsUnique(ids, ids, ProbeRanks(pool.traits), p, p1);
      if r.None? && p.None? {
        FirstVisitedIsUnique(pool, req, from, to, to1, a, b);
      }
    case Some(ids) =>
      var open := NotExcluded(ids, req.excluded);
      var r, p :| CandidateChoiceBy(pool, req, ids, a, r, p);
      var r1, p1 :| CandidateChoiceBy(pool, req, ids, b, r1, p1);
      TopIsUnique(open, open, SuccessRanks(pool.recent), r, r1);
      TopIsUnique(open, open, ProbeRanks(pool.traits), p, p1);
      if Offer(pool, req, r).None? && Offer(pool, req, p).None? {
        FirstInOrderIsUnique(pool, req, ids, a, b);
      }
  }

  /** The same of a pick that may prefer idle accounts. */
  lemma PicksAreUnique(
    pool: Pool, req: Request, busy: set<Id>, preferIdle: bool, from: Turn, to: nat, to1: nat,
    a: Option<Account>, b: Option<Account>)
    requires Picks(pool, req, busy, preferIdle, from, to, a) && Picks(pool, req, busy, preferIdle, from, to1, b)
    ensures a == b && to == to1
  {
    if preferIdle {
      var mid, idle :| ChosenIdle(pool, req, busy, from, mid, to, idle, a);
      var mid1, idle1 :| ChosenIdle(pool, req, busy, from, mid1, to1, idle1, b);
      InTurnIsUnique(pool, Avoiding(req, busy), from, mid, mid1, idle, idle1);
      if idle.None? {
        ChosenIsUnique(pool, req, Turn(mid, Later(from.gaps, |pool.accounts|)), to, to1, a, b);
      }
    } else {
      ChosenIsUnique(pool, req, from, to, to1, a, b);
    }
  }
}
