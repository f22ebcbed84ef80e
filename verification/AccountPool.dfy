/** The accounts that the router knows: who is in the pool, who may serve a request, and who did so last. */
module AccountPool {
  import opened Text
  import opened Sets
  import opened StickySessions

  datatype Account = Account(id: Id, name: string, enabled: bool)

  datatype Freshness = Fresh | Stale | Unknown

  /** What the last probe of an account found, and when. */
  datatype Traits = Traits(freshness: Option<Freshness>, lastProbeAt: Option<int>)

  /** What the router knows about accounts: the pool, running cool-downs, last successes and probes. */
  datatype Pool = Pool(accounts: seq<Account>, health: map<Id, int>, recent: map<Id, int>, traits: map<Id, Traits>)

  /** What a request allows: the candidates of its route, if it has one, and no excluded account. */
  datatype Request = Request(candidates: Option<seq<Id>>, excluded: set<Id>, now: int)

  // ---------------------------------------------------------------------------------------------
  // Accounts.
  // ---------------------------------------------------------------------------------------------

  ghost predicate UniqueIds(accounts: seq<Account>) {
    forall i, j :: 0 <= i < j < |accounts| ==> accounts[i].id != accounts[j].id
  }

  function Ids(accounts: seq<Account>): set<Id> { set a | a in accounts :: a.id }

  function FindAccount(accounts: seq<Account>, id: Id): (found: Option<Account>)
    ensures found.Some? ==> found.value in accounts && found.value.id == id
    ensures found.None? ==> id !in Ids(accounts)
  {
    if accounts == [] then None
    else if accounts[0].id == id then Some(accounts[0])
    else FindAccount(accounts[1..], id)
  }

  lemma FindUnique(accounts: seq<Account>, a: Account)
    requires UniqueIds(accounts) && a in accounts
    ensures FindAccount(accounts, a.id) == Some(a)
  {
    var b := FindAccount(accounts, a.id).value;
    var i :| 0 <= i < |accounts| && accounts[i] == a;
    var j :| 0 <= j < |accounts| && accounts[j] == b;
    assert i == j;
  }

  /** The accounts with another id. */
  function Others(accounts: seq<Account>, id: Id): seq<Account> {
    if accounts == [] then []
    else if accounts[0].id == id then Others(accounts[1..], id)
    else [accounts[0]] + Others(accounts[1..], id)
  }

  lemma {:induction false} OthersMembers(accounts: seq<Account>, id: Id)
    ensures forall a :: a in Others(accounts, id) <==> a in accounts && a.id != id
  {
    if accounts != [] {
      OthersMembers(accounts[1..], id);
      assert accounts == [accounts[0]] + accounts[1..];
    }
  }

  lemma {:induction false} OthersUnique(accounts: seq<Account>, id: Id)
    requires UniqueIds(accounts)
    ensures UniqueIds(Others(accounts, id)) && |Others(accounts, id)| <= |accounts|
  {
    if accounts != [] {
      var rest := accounts[1..];
      OthersUnique(rest, id);
      OthersMembers(rest, id);
    }
  }

  lemma {:induction false} OthersShrink(accounts: seq<Account>, id: Id)
    ensures |Others(accounts, id)| <= |accounts|
    ensures |Others(accounts, id)| != |accounts| <==> exists i :: 0 <= i < |accounts| && accounts[i].id == id
  {
    if accounts != [] {
      OthersShrink(accounts[1..], id);
    }
  }

  /** Deleting an account leaves exactly the others, and exactly the sessions bound to them. */
  lemma DeletingIsSound(accounts: seq<Account>, sticky: map<string, StickyEntry>, id: Id)
    requires UniqueIds(accounts) && BoundWithin(sticky, Ids(accounts))
    ensures var kept, bound := Others(accounts, id), Unbound(sticky, id);
            && UniqueIds(kept) && |kept| <= |accounts| && (|kept| != |accounts| <==> id in Ids(accounts))
            && Ids(kept) == Ids(accounts) - {id}
            && bound == BoundTo(sticky, Ids(kept)) && BoundWithin(bound, Ids(kept)) && |bound| <= |sticky|
            && (|kept| == |accounts| ==> bound == sticky)
  {
    var kept := Others(accounts, id);
    OthersUnique(accounts, id);
    OthersShrink(accounts, id);
    OthersMembers(accounts, id);
    assert Ids(kept) == Ids(accounts) - {id};
    BoundToDropsOne(sticky, Ids(accounts), id);
    if |kept| == |accounts| {
      assert Ids(kept) == Ids(accounts);
      BoundToIsFixed(sticky, Ids(accounts));
    }
  }

  /** The account in the place of the one with its id, or at the end. */
  function Upserted(accounts: seq<Account>, a: Account): seq<Account> {
    if accounts == [] then [a]
    else if accounts[0].id == a.id then [a] + accounts[1..]
    else [accounts[0]] + Upserted(accounts[1..], a)
  }

  lemma {:induction false} UpsertedMembers(accounts: seq<Account>, a: Account)
    requires UniqueIds(accounts)
    ensures forall b :: b in Upserted(accounts, a) <==> b == a || (b in accounts && b.id != a.id)
  {
    if accounts != [] {
      var rest := accounts[1..];
      assert accounts == [accounts[0]] + rest;
      UpsertedMembers(rest, a);
    }
  }

  lemma {:induction false} UpsertedUnique(accounts: seq<Account>, a: Account)
    requires UniqueIds(accounts)
    ensures |accounts| <= |Upserted(accounts, a)| <= |accounts| + 1
    ensures UniqueIds(Upserted(accounts, a))
  {
    if accounts != [] && accounts[0].id != a.id {
      UpsertedMembers(accounts[1..], a);
      UpsertedUnique(accounts[1..], a);
    }
  }

  /** An upsert keeps every place, and gives the account its own. */
  lemma {:induction false} UpsertedPlaces(accounts: seq<Account>, a: Account, i: nat)
    requires UniqueIds(accounts) && i < |accounts|
    ensures i < |Upserted(accounts, a)|
    ensures Upserted(accounts, a)[i] == if accounts[i].id == a.id then a else accounts[i]
    decreases |accounts|
  {
    if accounts[0].id != a.id && i > 0 {
      UpsertedPlaces(accounts[1..], a, i - 1);
    }
  }

  /** Without a place it goes to the end. */
  lemma {:induction false} UpsertedEnd(accounts: seq<Account>, a: Account)
    requires forall i :: 0 <= i < |accounts| ==> accounts[i].id != a.id
    ensures Upserted(accounts, a) == accounts + [a]
  {
    if accounts != [] {
      UpsertedEnd(accounts[1..], a);
      assert accounts == [accounts[0]] + accounts[1..];
    }
  }

  /** Deletion keeps the order of the others. */
  lemma {:induction false} OthersJoin(x: seq<Account>, y: seq<Account>, id: Id)
    ensures Others(x + y, id) == Others(x, id) + Others(y, id)
  {
    if x == [] {
      assert x + y == y;
    } else {
      assert (x + y)[1..] == x[1..] + y;
      OthersJoin(x[1..], y, id);
    }
  }

  /** An upsert changes one account and breaks no session. */
  lemma UpsertIsSound(accounts: seq<Account>, sticky: map<string, StickyEntry>, a: Account)
    requires UniqueIds(accounts) && BoundWithin(sticky, Ids(accounts))
    ensures var next := Upserted(accounts, a);
            && UniqueIds(next) && |next| <= |accounts| + 1 && Ids(next) == Ids(accounts) + {a.id}
            && BoundWithin(sticky, Ids(next)) && BoundWithin(Unbound(sticky, a.id), Ids(next))
            && |Unbound(sticky, a.id)| <= |sticky|
  {
    UpsertedMembers(accounts, a);
    UpsertedUnique(accounts, a);
    SubmapSize(Unbound(sticky, a.id), sticky);
    assert a in Upserted(accounts, a);
  }

  function Within<V>(m: map<Id, V>, valid: set<Id>): map<Id, V> { map id | id in m && id in valid :: m[id] }

  function Forget<V>(m: map<Id, V>, id: Id, gone: bool): map<Id, V> { if gone then m - {id} else m }

  /** What is remembered is remembered of the accounts that remain, as it was, and of no other. */
  lemma RemembersExactly<V>(m: map<Id, V>, valid: set<Id>, id: Id)
    ensures id in Within(m, valid) <==> id in m && id in valid
    ensures id in m && id in valid ==> Within(m, valid)[id] == m[id]
  {
  }

  lemma ForgetsExactly<V>(m: map<Id, V>, id: Id, other: Id)
    ensures id !in Forget(m, id, true) && Forget(m, id, false) == m
    ensures other != id ==> (other in Forget(m, id, true) <==> other in m)
    ensures other != id && other in m ==> Forget(m, id, true)[other] == m[other]
  {
  }

  // ---------------------------------------------------------------------------------------------
  // Who may serve.
  // ---------------------------------------------------------------------------------------------

  /** No cool-down is running for the account. */
  predicate Alive(health: map<Id, int>, id: Id, now: int) { id !in health || health[id] <= now }

  /** An account that may serve a request, wherever its route leads. */
  predicate Fit(a: Account, health: map<Id, int>, req: Request) {
    a.enabled && Alive(health, a.id, req.now) && a.id !in req.excluded
  }

  predicate Allowed(candidates: Option<seq<Id>>, id: Id) { candidates.None? || id in candidates.value }

  /** An account of the pool that may serve this request. */
  ghost predicate Serves(pool: Pool, req: Request, a: Account) {
    a in pool.accounts && Fit(a, pool.health, req) && Allowed(req.candidates, a.id)
  }

  ghost predicate NoneServes(pool: Pool, req: Request) {
    forall a :: a in pool.accounts ==> !Serves(pool, req, a)
  }

  /** The request with further accounts excluded. */
  function Avoiding(req: Request, busy: set<Id>): Request { req.(excluded := req.excluded + busy) }

  /** `pick_specific`, for an id that is not excluded. */
  function Offer(pool: Pool, req: Request, id: Option<Id>): (picked: Option<Account>)
    ensures picked.Some? ==> id == Some(picked.value.id) && picked.value in pool.accounts
    ensures picked.Some? ==> Fit(picked.value, pool.health, req)
  {
    if id.None? || id.value in req.excluded then None
    else
      var found := FindAccount(pool.accounts, id.value);
      if found.Some? && found.value.enabled && Alive(pool.health, id.value, req.now) then found else None
  }

  lemma OfferFinds(pool: Pool, req: Request, a: Account)
    requires UniqueIds(pool.accounts) && a in pool.accounts && Fit(a, pool.health, req)
    ensures Offer(pool, req, Some(a.id)) == Some(a)
  {
    FindUnique(pool.accounts, a);
  }

  /** A bound session may keep its account: on the route, not excluded, enabled and healthy. */
  predicate Usable(pool: Pool, req: Request, bound: Option<Id>) {
    bound.Some? && Allowed(req.candidates, bound.value) && Offer(pool, req, bound).Some?
  }

  lemma UsableIff(pool: Pool, req: Request, id: Id)
    requires UniqueIds(pool.accounts)
    ensures Usable(pool, req, Some(id)) <==> exists a :: Serves(pool, req, a) && a.id == id
  {
    if Usable(pool, req, Some(id)) {
      assert Serves(pool, req, Offer(pool, req, Some(id)).value);
    }
    if a :| Serves(pool, req, a) && a.id == id {
      OfferFinds(pool, req, a);
    }
  }

  function FitIds(accounts: seq<Account>, health: map<Id, int>, req: Request): (ids: seq<Id>)
    ensures forall id :: id in ids <==>
              exists i :: 0 <= i < |accounts| && accounts[i].id == id && Fit(accounts[i], health, req)
  {
    if accounts == [] then []
    else
      var rest := FitIds(accounts[1..], health, req);
      if Fit(accounts[0], health, req) then [accounts[0].id] + rest else rest
  }

  function NotExcluded(ids: seq<Id>, excluded: set<Id>): (open: seq<Id>)
    ensures forall id :: id in open <==> id in ids && id !in excluded
  {
    if ids == [] then []
    else if ids[0] in excluded then NotExcluded(ids[1..], excluded)
    else [ids[0]] + NotExcluded(ids[1..], excluded)
  }

  // ---------------------------------------------------------------------------------------------
  // Recency.
  // ---------------------------------------------------------------------------------------------

  /** What the recency preferences compare: most significant first, the id last. */
  datatype Rank = Rank(major: int, minor: Option<int>, id: Id)

  /** The order of optional times: none comes before all. */
  predicate NoLater(a: Option<int>, b: Option<int>) { a.None? || (b.Some? && a.value <= b.value) }

  predicate AtMost(x: Rank, y: Rank) {
    x.major < y.major
    || (x.major == y.major
        && ((x.minor != y.minor && NoLater(x.minor, y.minor)) || (x.minor == y.minor && x.id <= y.id)))
  }

  /** `routing_health_freshness_rank`. */
  function FreshnessRank(freshness: Option<Freshness>): nat {
    match freshness
    case Some(Fresh) => 2
    case Some(Stale) => 1
    case _ => 0
  }

  /** The probe tells something. */
  predicate Probed(t: Traits) { t.freshness == Some(Fresh) || t.freshness == Some(Stale) }

  /** A probe that tells no more than another: stale before fresh, then by its time. */
  predicate ProbedNoBetter(t: Traits, u: Traits) {
    if t.freshness != u.freshness then u.freshness == Some(Fresh)
    else t.lastProbeAt.None? || (u.lastProbeAt.Some? && t.lastProbeAt.value <= u.lastProbeAt.value)
  }

  function SuccessRanks(recent: map<Id, int>): map<Id, Rank> {
    map id | id in recent :: Rank(recent[id], None, id)
  }

  function ProbeRanks(traits: map<Id, Traits>): map<Id, Rank> {
    map id | id in traits && FreshnessRank(traits[id].freshness) > 0 ::
      Rank(FreshnessRank(traits[id].freshness), traits[id].lastProbeAt, id)
  }

  lemma RankedIffProbed(traits: map<Id, Traits>, id: Id)
    ensures id in ProbeRanks(traits) <==> id in traits && Probed(traits[id])
  {
  }

  /** The probe ranks order by what the probes tell, and the ids only on a tie. */
  lemma ProbeOrder(traits: map<Id, Traits>, a: Id, b: Id)
    requires a in traits && b in traits && Probed(traits[a]) && Probed(traits[b])
    ensures a in ProbeRanks(traits) && b in ProbeRanks(traits)
    ensures AtMost(ProbeRanks(traits)[a], ProbeRanks(traits)[b]) <==>
              ProbedNoBetter(traits[a], traits[b]) && (traits[a] == traits[b] ==> a <= b)
  {
  }

  /** The highest-ranked of the given ids, if any of them has a rank. */
  ghost predicate Top(ids: seq<Id>, ranks: map<Id, Rank>, best: Option<Id>) {
    && (best.None? <==> forall id :: id in ids ==> id !in ranks)
    && (best.Some? ==>
          && best.value in ids && best.value in ranks
          && forall id :: id in ids && id in ranks ==> AtMost(ranks[id], ranks[best.value]))
  }

  /** The id breaks every tie, so there is only one top whatever the order of the ids. */
  lemma TopIsUnique(ids: seq<Id>, ids1: seq<Id>, ranks: map<Id, Rank>, a: Option<Id>, b: Option<Id>)
    requires forall id :: id in ranks ==> ranks[id].id == id
    requires forall id :: id in ids <==> id in ids1
    requires Top(ids, ranks, a) && Top(ids1, ranks, b)
    ensures a == b
  {
    if a.Some? && b.Some? {
      assert ranks[a.value].id == a.value && ranks[b.value].id == b.value;
    }
  }

  method Best(ids: seq<Id>, ranks: map<Id, Rank>) returns (best: Option<Id>)
    ensures Top(ids, ranks, best)
  {
    best := None;
    for i := 0 to |ids|
      invariant best.None? <==> forall j :: 0 <= j < i ==> ids[j] !in ranks
      invariant best.Some? ==> best.value in ids[..i] && best.value in ranks
      invariant best.Some? ==> forall j :: 0 <= j < i && ids[j] in ranks ==> AtMost(ranks[ids[j]], ranks[best.value])
    {
      if ids[i] in ranks && (best.None? || AtMost(ranks[best.value], ranks[ids[i]])) {
        best := Some(ids[i]);
      }
    }
  }

  lemma {:induction false} TopExists(ids: seq<Id>, ranks: map<Id, Rank>) returns (best: Option<Id>)
    ensures Top(ids, ranks, best)
    decreases |ids|
  {
    if ids == [] {
      best := None;
    } else {
      best := TopExists(ids[1..], ranks);
      assert ids == [ids[0]] + ids[1..];
      if ids[0] in ranks && (best.None? || AtMost(ranks[best.value], ranks[ids[0]])) {
        best := Some(ids[0]);
      }
    }
  }

  /** `preferred_recent_success_account_id` and `preferred_recent_probe_account_id`. */
  method Preferred(pool: Pool, req: Request, ranks: map<Id, Rank>) returns (best: Option<Id>)
    ensures Top(FitIds(pool.accounts, pool.health, req), ranks, best)
  {
    best := Best(FitIds(pool.accounts, pool.health, req), ranks);
  }

  /** The account that a preference names is fit. */
  lemma TopIsFit(pool: Pool, req: Request, ranks: map<Id, Rank>, best: Option<Id>)
    requires UniqueIds(pool.accounts) && best.Some? && Top(FitIds(pool.accounts, pool.health, req), ranks, best)
    ensures var a := FindAccount(pool.accounts, best.value); a.Some? && Fit(a.value, pool.health, req)
  {
    var i :| 0 <= i < |pool.accounts| && pool.accounts[i].id == best.value && Fit(pool.accounts[i], pool.health, req);
    FindUnique(pool.accounts, pool.accounts[i]);
  }
}
