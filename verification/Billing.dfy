/**
 * Tenant credit billing: holds, captures, releases and reconciliation.
 *
 * Every operation is one SQL transaction that locks the rows it touches, so it is modelled as a
 * function from the database before to the database after; a failed transaction is rolled back.
 * The locked lookup that they share is `Find` (`AuthorizationTable.LockedLookupFinds`).
 */
module Billing {
  import opened Text
  import opened Cost
  import opened AuthorizationTable

  datatype EventType = Recharge | AuthorizeHold | Capture | Release | Adjust

  /** A row of `tenant_credit_ledger`; `authorization` is the id that its metadata records. */
  datatype Entry = Entry(
    tenant: Tenant, event: EventType, delta: int, balanceAfter: int,
    requestId: Option<string>, authorization: Option<nat>)

  datatype Db = Db(accounts: map<Tenant, int>, rows: seq<Authorization>, ledger: seq<Entry>)

  /** What a billing call reports about the authorization it worked on. */
  datatype Receipt = Receipt(row: nat, status: Status, reserved: int, captured: int, amount: int, balance: int)

  const MIN_TTL := 30
  const MAX_TTL := 6 * 60 * 60

  function Balance(db: Db, t: Tenant): int { if t in db.accounts then db.accounts[t] else 0 }

  predicate HasRequest(ledger: seq<Entry>, t: Tenant, r: string) {
    exists e :: e in ledger && e.tenant == t && e.requestId == Some(r)
  }

  /** `apply_credit_delta_inner`: move a balance and append a ledger entry, or fail. */
  function ApplyDelta(db: Db, t: Tenant, event: EventType, delta: int, r: Option<string>, a: Option<nat>): Outcome<Db> {
    var next := Saturate(Balance(db, t) + delta);
    if next < 0 then Err(InsufficientCredits)
    else if r.Some? && HasRequest(db.ledger, t, r.value) then Err(DuplicateLedgerRequest)
    else Ok(Db(db.accounts[t := next], db.rows, db.ledger + [Entry(t, event, delta, next, r, a)]))
  }

  // ---------------------------------------------------------------------------------------------
  // The operations.
  // ---------------------------------------------------------------------------------------------

  function AdminRecharge(db: Db, t: Tenant, amount: i64): Outcome<Db> {
    if amount <= 0 then Err(NonPositiveAmount) else ApplyDelta(db, t, Recharge, amount, None, None)
  }

  /** Token counts as a client reports them; negative counts are clamped by the operations. */
  datatype Usage = Usage(input: i64, cached: i64, output: i64, reasoning: i64)

  function Charge(u: Usage, price: Price): (charged: int)
    ensures 0 <= charged <= I64_MAX
  {
    var input := Max(u.input, 0);
    EstimatedCost(input, Min(Max(u.cached, 0), input), Max(Max(u.output, 0), Max(u.reasoning, 0)), price)
  }

  /**
   * The exact price of reported counts, in millionths of a microcredit: the prompt that no cache served, the
   * part that one did, and the larger of completion and reasoning; negative counts and prices are nothing.
   */
  function ExactPrice(input: int, cached: int, output: int, reasoning: int, price: Price): int {
    var prompt := Max(input, 0);
    var served := Min(Max(cached, 0), prompt);
    (prompt - served) * Max(price.input, 0) + served * Max(price.cachedInput, 0)
    + Max(0, Max(output, reasoning)) * Max(price.output, 0)
  }

  /** The amount is the exact price to one and a half microcredits, or the largest amount and below it. */
  predicate Prices(amount: int, exact: int) {
    && 0 <= amount <= I64_MAX && 2 * (amount * SCALE - exact) <= 3 * SCALE
    && (amount < I64_MAX ==> 2 * (exact - amount * SCALE) <= 3 * SCALE)
  }

  predicate Is64(price: Price) { IsI64(price.input) && IsI64(price.cachedInput) && IsI64(price.output) }

  /** What a usage costs. */
  lemma ChargeIsPriced(u: Usage, price: Price)
    requires Is64(price)
    ensures Prices(Charge(u, price), ExactPrice(u.input, u.cached, u.output, u.reasoning, price))
  {
    var input := Max(u.input, 0);
    var cached := Min(Max(u.cached, 0), input);
    var output := Max(Max(u.output, 0), Max(u.reasoning, 0));
    CostWithinOneAndAHalf(input, cached, output, price);
    assert Exact(output, price.output) == output * Max(price.output, 0);
  }

  /** Take the hold of a new row from the balance and insert the row. */
  function Grant(db: Db, a: Authorization): Outcome<Db> {
    var db1 :- ApplyDelta(db, a.tenant, AuthorizeHold, -a.reserved, None, Some(|db.rows|));
    Ok(db1.(rows := db1.rows + [a]))
  }

  function Authorize(db: Db, t: Tenant, request: string, model: string, reserved: i64, ttl: int, priced: bool, now: int)
    : Outcome<(Db, Receipt)>
  {
    var r := Trim(request);
    if r == [] then Err(EmptyRequestId)
    else if Trim(model) == [] then Err(EmptyModel)
    else if reserved <= 0 then Err(NonPositiveAmount)
    else
      match Find(db.rows, t, r)
      case Some(i) =>
        var a := db.rows[i];
        if a.status != Authorized then Err(InvalidStatus)
        else Ok((db, Receipt(i, a.status, a.reserved, a.captured, 0, Balance(db, t))))
      case None =>
        if !priced then Err(PricingNotConfigured)
        else
          var expiresAt := now + Max(MIN_TTL, Min(MAX_TTL, ttl));
          var db1 :- Grant(db, Authorization(t, r, Trim(model), reserved, 0, Authorized, expiresAt, now));
          Ok((db1, Receipt(|db.rows|, Authorized, reserved, 0, 0, Balance(db1, t))))
  }

  /** Take what a charge needs beyond the reservation, and mark the row captured. */
  function CaptureRow(db: Db, i: nat, charged: int, now: int): Outcome<Db>
    requires i < |db.rows|
  {
    var a := db.rows[i];
    var extra := Max(Saturate(charged - a.reserved), 0);
    var db1 :- ApplyDelta(db, a.tenant, Capture, -extra, Some(a.requestId), Some(i));
    Ok(db1.(rows := db1.rows[i := a.(captured := charged, status := Captured, updatedAt := now)]))
  }

  function CaptureRequest(db: Db, t: Tenant, request: string, model: string, u: Usage, price: Option<Price>, now: int)
    : Outcome<(Db, Receipt)>
  {
    var r := Trim(request);
    if r == [] then Err(EmptyRequestId)
    else if Trim(model) == [] then Err(EmptyModel)
    else
      match Find(db.rows, t, r)
      case None => Err(NotFound)
      case Some(i) =>
        var a := db.rows[i];
        if a.status == Captured then
          Ok((db, Receipt(i, a.status, a.reserved, a.captured, a.captured, Balance(db, t))))
        else if a.status != Authorized then Err(InvalidStatus)
        else if price.None? then Err(PricingNotConfigured)
        else
          var charged := Charge(u, price.value);
          var db1 :- CaptureRow(db, i, charged, now);
          Ok((db1, Receipt(i, Captured, a.reserved, charged, charged, Balance(db1, t))))
  }

  /** What closing an authorization gives back. */
  function Refund(a: Authorization): int { Max(Saturate(a.reserved - a.captured), 0) }

  function Closed(a: Authorization, now: int): Authorization { a.(status := Released, updatedAt := now) }

  /** Give back what a row kept beyond its captured amount, and mark it released. */
  function CloseRow(db: Db, i: nat, event: EventType, now: int): Outcome<Db>
    requires i < |db.rows|
  {
    var a := db.rows[i];
    var db1 :- if Refund(a) > 0 then ApplyDelta(db, a.tenant, event, Refund(a), None, Some(i)) else Ok(db);
    Ok(db1.(rows := db1.rows[i := Closed(a, now)]))
  }

  function ReleaseRequest(db: Db, t: Tenant, request: string, now: int): Outcome<(Db, Receipt)> {
    var r := Trim(request);
    if r == [] then Err(EmptyRequestId)
    else
      match Find(db.rows, t, r)
      case None => Err(NotFound)
      case Some(i) =>
        var a := db.rows[i];
        if a.status == Released then
          Ok((db, Receipt(i, a.status, a.reserved, a.captured, Refund(a), Balance(db, t))))
        else
          var db1 :- CloseRow(db, i, Release, now);
          Ok((db1, Receipt(i, Released, a.reserved, a.captured, Refund(a), Balance(db1, t))))
  }

  /** The rows that the periodic reconcile query selects. */
  predicate Stale(a: Authorization, now: int, staleBefore: int) {
    (a.status == Authorized && a.expiresAt <= now) || (a.status == Captured && a.updatedAt <= staleBefore)
  }

  /** The periodic reconcile's treatment of one selected row. */
  function CloseStale(db: Db, i: nat, now: int): Outcome<Db>
    requires i < |db.rows|
  {
    CloseRow(db, i, Adjust, now)
  }

  /** Move the difference of two captured amounts and record the new one. */
  function AdjustRow(db: Db, i: nat, expected: int, now: int): Outcome<Db>
    requires i < |db.rows|
  {
    var a := db.rows[i];
    if a.captured == expected then Ok(db)
    else
      var delta := Saturate(a.captured - expected);
      var db1 :- if delta != 0 then ApplyDelta(db, a.tenant, Adjust, delta, None, Some(i)) else Ok(db);
      Ok(db1.(rows := db1.rows[i := a.(captured := expected, updatedAt := now)]))
  }

  /** `reconcile_adjust_captured_amount`: replace a captured amount by the one the request log implies. */
  function AdjustCaptured(db: Db, t: Tenant, r: string, u: Usage, price: Option<Price>, now: int): Outcome<Db> {
    match Find(db.rows, t, r)
    case None => Ok(db)
    case Some(i) =>
      if price.None? then Err(PricingNotConfigured) else AdjustRow(db, i, Charge(u, price.value), now)
  }

  // ---------------------------------------------------------------------------------------------
  // The books.
  // ---------------------------------------------------------------------------------------------

  /** The credits that an authorization keeps from the balance, by status. */
  function Hold(a: Authorization): int {
    match a.status
    case Authorized => a.reserved
    case Captured => Max(a.reserved, a.captured)
    case Released => a.captured
  }

  /** All ledger movements of a tenant. */
  function Total(ledger: seq<Entry>, t: Tenant): int {
    if ledger == [] then 0
    else
      var e := ledger[|ledger| - 1];
      Total(ledger[..|ledger| - 1], t) + if e.tenant == t then e.delta else 0
  }

  /** All ledger movements that one authorization caused. */
  function Net(ledger: seq<Entry>, i: nat): int {
    if ledger == [] then 0
    else
      var e := ledger[|ledger| - 1];
      Net(ledger[..|ledger| - 1], i) + if e.authorization == Some(i) then e.delta else 0
  }

  /** What a tenant paid in: the movements that no authorization caused. */
  function Deposited(ledger: seq<Entry>, t: Tenant): int {
    if ledger == [] then 0
    else
      var e := ledger[|ledger| - 1];
      Deposited(ledger[..|ledger| - 1], t) + if e.tenant == t && e.authorization.None? then e.delta else 0
  }

  /** The credits that a tenant's authorizations keep together. */
  function Held(rows: seq<Authorization>, t: Tenant): int {
    if rows == [] then 0
    else
      var a := rows[|rows| - 1];
      Held(rows[..|rows| - 1], t) + if a.tenant == t then Hold(a) else 0
  }

  predicate RowOk(a: Authorization) {
    0 < a.reserved <= I64_MAX && 0 <= a.captured <= I64_MAX && (a.status == Authorized ==> a.captured == 0)
  }

  predicate EntryOk(rows: seq<Authorization>, e: Entry) {
    && (e.authorization.Some? ==> e.authorization.value < |rows| && rows[e.authorization.value].tenant == e.tenant)
    && (e.authorization.None? ==> e.delta > 0)
    && (e.requestId.Some? ==>
          && e.authorization.Some?
          && rows[e.authorization.value].requestId == e.requestId.value
          && rows[e.authorization.value].status != Authorized)
  }

  ghost predicate TablesOk(db: Db) {
    && (forall i :: 0 <= i < |db.rows| ==> RowOk(db.rows[i]))
    && (forall i, j :: 0 <= i < j < |db.rows| ==>
          db.rows[i].tenant != db.rows[j].tenant || db.rows[i].requestId != db.rows[j].requestId)
    && (forall e :: e in db.ledger ==> EntryOk(db.rows, e))
    && AccountsOk(db.accounts)
  }

  ghost predicate AccountsOk(accounts: map<Tenant, int>) {
    forall t :: t in accounts ==> 0 <= accounts[t] <= I64_MAX
  }

  /** The ledger explains every balance and every authorization to the microcredit. */
  ghost predicate Balanced(db: Db) {
    && (forall t :: Total(db.ledger, t) == Balance(db, t))
    && (forall i :: 0 <= i < |db.rows| ==> Net(db.ledger, i) == -Hold(db.rows[i]))
  }

  ghost predicate Inv(db: Db) { TablesOk(db) && Balanced(db) }

  const EMPTY := Db(map[], [], [])

  lemma EmptyIsBalanced()
    ensures Inv(EMPTY)
  {
  }

  lemma Append(ledger: seq<Entry>, e: Entry)
    ensures forall t :: Total(ledger + [e], t) == Total(ledger, t) + if e.tenant == t then e.delta else 0
    ensures forall i: nat :: Net(ledger + [e], i) == Net(ledger, i) + if e.authorization == Some(i) then e.delta else 0
    ensures forall t :: Deposited(ledger + [e], t)
                     == Deposited(ledger, t) + if e.tenant == t && e.authorization.None? then e.delta else 0
  {
    assert (ledger + [e])[..|ledger|] == ledger;
  }

  lemma {:induction false} NetOfFreshRow(rows: seq<Authorization>, ledger: seq<Entry>, i: nat)
    requires i >= |rows| && forall e :: e in ledger ==> EntryOk(rows, e)
    ensures Net(ledger, i) == 0
    decreases |ledger|
  {
    if ledger != [] {
      assert ledger[|ledger| - 1] in ledger;
      NetOfFreshRow(rows, ledger[..|ledger| - 1], i);
    }
  }

  /** Summing authorization by authorization or entry by entry gives the same total. */
  lemma {:induction false} TotalByAuthorization(rows: seq<Authorization>, ledger: seq<Entry>, t: Tenant)
    requires forall e :: e in ledger ==> EntryOk(rows, e)
    ensures Total(ledger, t) == Deposited(ledger, t) + NetOfTenant(rows, ledger, t)
    decreases |ledger|
  {
    if ledger == [] {
      NetOfNothing(rows, t);
    } else {
      var front, e := ledger[..|ledger| - 1], ledger[|ledger| - 1];
      assert ledger == front + [e] && e in ledger;
      TotalByAuthorization(rows, front, t);
      Append(front, e);
      NetAppend(rows, front, e, t);
    }
  }

  function NetOfTenant(rows: seq<Authorization>, ledger: seq<Entry>, t: Tenant): int {
    if rows == [] then 0
    else
      var i := |rows| - 1;
      NetOfTenant(rows[..i], ledger, t) + if rows[i].tenant == t then Net(ledger, i) else 0
  }

  lemma {:induction false} NetOfNothing(rows: seq<Authorization>, t: Tenant)
    ensures NetOfTenant(rows, [], t) == 0
  {
    if rows != [] {
      NetOfNothing(rows[..|rows| - 1], t);
    }
  }

  lemma {:induction false} NetAppend(rows: seq<Authorization>, ledger: seq<Entry>, e: Entry, t: Tenant)
    ensures NetOfTenant(rows, ledger + [e], t) == NetOfTenant(rows, ledger, t)
         + if e.authorization.Some? && e.authorization.value < |rows| && rows[e.authorization.value].tenant == t
           then e.delta else 0
  {
    if rows != [] {
      Append(ledger, e);
      NetAppend(rows[..|rows| - 1], ledger, e, t);
    }
  }

  lemma {:induction false} HeldIsNet(rows: seq<Authorization>, ledger: seq<Entry>, t: Tenant)
    requires forall i :: 0 <= i < |rows| ==> Net(ledger, i) == -Hold(rows[i])
    ensures NetOfTenant(rows, ledger, t) == -Held(rows, t)
  {
    if rows != [] {
      HeldIsNet(rows[..|rows| - 1], ledger, t);
    }
  }

  lemma {:induction false} HeldNonNegative(rows: seq<Authorization>, t: Tenant)
    requires forall i :: 0 <= i < |rows| ==> RowOk(rows[i])
    ensures Held(rows, t) >= 0
  {
    if rows != [] {
      HeldNonNegative(rows[..|rows| - 1], t);
    }
  }

  /** Conservation: what a tenant paid in is what is on the balance plus what authorizations keep. */
  lemma Conservation(db: Db, t: Tenant)
    requires Inv(db)
    ensures Balance(db, t) + Held(db.rows, t) == Deposited(db.ledger, t)
    ensures 0 <= Balance(db, t) <= Deposited(db.ledger, t)
  {
    TotalByAuthorization(db.rows, db.ledger, t);
    HeldIsNet(db.rows, db.ledger, t);
    HeldNonNegative(db.rows, t);
  }

  // ---------------------------------------------------------------------------------------------
  // Single steps.
  // ---------------------------------------------------------------------------------------------

  /** A credit delta of authorization i together with the row change that explains it. */
  function Move(db: Db, i: nat, event: EventType, delta: int, r: Option<string>, a: Authorization): Db
    requires i < |db.rows|
  {
    var t := db.rows[i].tenant;
    var next := Saturate(Balance(db, t) + delta);
    Db(db.accounts[t := next], db.rows[i := a], db.ledger + [Entry(t, event, delta, next, r, Some(i))])
  }

  /** A row change on a well-formed database keeps the tables well-formed. */
  lemma RowChangeKeepsTables(db: Db, i: nat, a: Authorization)
    requires TablesOk(db) && i < |db.rows| && SameKey(a, db.rows[i]) && RowOk(a)
    requires a.status == Authorized ==> db.rows[i].status == Authorized
    ensures TablesOk(db.(rows := db.rows[i := a]))
  {
    forall e | e in db.ledger ensures EntryOk(db.rows[i := a], e) {
      assert EntryOk(db.rows, e);
    }
  }

  /** Books stay balanced exactly when the hold shrinks by the delta and the balance does not saturate. */
  lemma MoveBalanced(db: Db, i: nat, event: EventType, delta: int, r: Option<string>, a: Authorization)
    requires Inv(db) && i < |db.rows| && 0 <= Balance(db, db.rows[i].tenant) + delta
    ensures Balanced(Move(db, i, event, delta, r, a))
       <==> Balance(db, db.rows[i].tenant) + delta <= I64_MAX && Hold(a) == Hold(db.rows[i]) - delta
  {
    var t := db.rows[i].tenant;
    var db1 := Move(db, i, event, delta, r, a);
    var e := db1.ledger[|db.ledger|];
    Append(db.ledger, e);
    assert Total(db1.ledger, t) == Total(db.ledger, t) + delta;
    assert Net(db1.ledger, i) == Net(db.ledger, i) + delta;
    assert db1.rows[i] == a;
  }

  lemma MoveKeepsTables(db: Db, i: nat, event: EventType, delta: int, r: Option<string>, a: Authorization)
    requires Inv(db) && i < |db.rows| && 0 <= Balance(db, db.rows[i].tenant) + delta
    requires SameKey(a, db.rows[i]) && RowOk(a) && (a.status == Authorized ==> db.rows[i].status == Authorized)
    requires r.Some? ==> r.value == a.requestId && a.status != Authorized
    ensures TablesOk(Move(db, i, event, delta, r, a))
  {
    RowChangeKeepsTables(db, i, a);
  }

  lemma RechargeBalanced(db: Db, t: Tenant, amount: i64)
    requires Inv(db) && amount > 0
    ensures var db1 := AdminRecharge(db, t, amount);
            db1.Ok? && (Inv(db1.value) <==> Balance(db, t) + amount <= I64_MAX)
  {
    var db1 := AdminRecharge(db, t, amount).value;
    var e := db1.ledger[|db.ledger|];
    Append(db.ledger, e);
    assert Total(db1.ledger, t) == Total(db.ledger, t) + amount;
    forall i | 0 <= i < |db.rows| ensures Net(db1.ledger, i) == -Hold(db1.rows[i]) {
      assert Net(db1.ledger, i) == Net(db.ledger, i);
    }
  }

  lemma GrantKeepsTables(db: Db, a: Authorization)
    requires Inv(db) && RowOk(a) && Find(db.rows, a.tenant, a.requestId).None? && Grant(db, a).Ok?
    ensures TablesOk(Grant(db, a).value)
  {
    var db1 := Grant(db, a).value;
    forall x | x in db1.ledger ensures EntryOk(db1.rows, x) {
      if x in db.ledger {
        assert EntryOk(db.rows, x);
      }
    }
  }

  lemma GrantBalanced(db: Db, a: Authorization)
    requires Inv(db) && RowOk(a) && a.status == Authorized && Grant(db, a).Ok?
    ensures Balanced(Grant(db, a).value)
  {
    var db1, i := Grant(db, a).value, |db.rows|;
    Append(db.ledger, db1.ledger[|db.ledger|]);
    NetOfFreshRow(db.rows, db.ledger, i);
    forall j | 0 <= j < |db1.rows| ensures Net(db1.ledger, j) == -Hold(db1.rows[j]) {
      if j < i {
        assert db1.rows[j] == db.rows[j];
      }
    }
  }

  lemma GrantKeepsBooks(db: Db, a: Authorization)
    requires Inv(db) && RowOk(a) && a.status == Authorized && Find(db.rows, a.tenant, a.requestId).None?
    requires Grant(db, a).Ok?
    ensures Inv(Grant(db, a).value)
  {
    GrantKeepsTables(db, a);
    GrantBalanced(db, a);
  }

  lemma AuthorizeBalanced(
    db: Db, t: Tenant, request: string, model: string, reserved: i64, ttl: int, priced: bool, now: int)
    requires Inv(db)
    ensures var out := Authorize(db, t, request, model, reserved, ttl, priced, now);
            out.Ok? ==> Inv(out.value.0)
  {
    var out := Authorize(db, t, request, model, reserved, ttl, priced, now);
    var r := Trim(request);
    if out.Ok? && Find(db.rows, t, r).None? {
      var expiresAt := now + Max(MIN_TTL, Min(MAX_TTL, ttl));
      var a := Authorization(t, r, Trim(model), reserved, 0, Authorized, expiresAt, now);
      assert out.value.0 == Grant(db, a).value;
      GrantKeepsBooks(db, a);
    }
  }

  /** Taking the extra charge is one move of the books. */
  lemma CaptureRowIsMove(db: Db, i: nat, charged: int, now: int)
    requires i < |db.rows| && RowOk(db.rows[i]) && 0 <= charged <= I64_MAX && CaptureRow(db, i, charged, now).Ok?
    requires AccountsOk(db.accounts)
    ensures var a := db.rows[i];
            var delta := -Max(charged - a.reserved, 0);
            && 0 <= Balance(db, a.tenant) + delta
            && CaptureRow(db, i, charged, now).value
               == Move(db, i, Capture, delta, Some(a.requestId),
                       a.(captured := charged, status := Captured, updatedAt := now))
  {
  }

  lemma CaptureIsMove(db: Db, t: Tenant, request: string, model: string, u: Usage, price: Option<Price>, now: int)
    requires Inv(db)
    ensures var out, found := CaptureRequest(db, t, request, model, u, price, now), Find(db.rows, t, Trim(request));
            out.Ok? ==>
              && found.Some?
              && (out.value.0 == db
                  || (db.rows[found.value].status == Authorized && price.Some?
                      && var a, charged := db.rows[found.value], Charge(u, price.value);
                         var delta := -Max(charged - a.reserved, 0);
                         && 0 <= Balance(db, t) + delta
                         && out.value.0 == Move(db, found.value, Capture, delta, Some(a.requestId),
                                                a.(captured := charged, status := Captured, updatedAt := now))))
  {
    var out, found := CaptureRequest(db, t, request, model, u, price, now), Find(db.rows, t, Trim(request));
    if out.Ok? && db.rows[found.value].status == Authorized {
      assert RowOk(db.rows[found.value]);
      CaptureRowIsMove(db, found.value, Charge(u, price.value), now);
    }
  }

  lemma CaptureRowKeepsBooks(db: Db, i: nat, charged: int, now: int)
    requires Inv(db) && i < |db.rows| && db.rows[i].status == Authorized && 0 <= charged <= I64_MAX
    requires CaptureRow(db, i, charged, now).Ok?
    ensures Inv(CaptureRow(db, i, charged, now).value)
  {
    var a := db.rows[i];
    assert RowOk(a);
    var a1, delta := a.(captured := charged, status := Captured, updatedAt := now), -Max(charged - a.reserved, 0);
    CaptureRowIsMove(db, i, charged, now);
    MoveKeepsTables(db, i, Capture, delta, Some(a.requestId), a1);
    MoveBalanced(db, i, Capture, delta, Some(a.requestId), a1);
  }

  lemma CaptureBalanced(db: Db, t: Tenant, request: string, model: string, u: Usage, price: Option<Price>, now: int)
    requires Inv(db)
    ensures var out := CaptureRequest(db, t, request, model, u, price, now);
            out.Ok? ==> Inv(out.value.0)
  {
    var out, found := CaptureRequest(db, t, request, model, u, price, now), Find(db.rows, t, Trim(request));
    if out.Ok? && db.rows[found.value].status == Authorized {
      assert out.value.0 == CaptureRow(db, found.value, Charge(u, price.value), now).value;
      CaptureRowKeepsBooks(db, found.value, Charge(u, price.value), now);
    }
  }

  lemma OpenRowHasNoEntry(db: Db, i: nat)
    requires Inv(db) && i < |db.rows| && db.rows[i].status == Authorized
    ensures !HasRequest(db.ledger, db.rows[i].tenant, db.rows[i].requestId)
  {
    forall e | e in db.ledger ensures e.tenant != db.rows[i].tenant || e.requestId != Some(db.rows[i].requestId) {
      assert EntryOk(db.rows, e);
    }
  }

  /** The ledger's unique index is never violated: an authorized request has no entry of its own yet. */
  lemma NoDuplicateLedgerRequest(
    db: Db, t: Tenant, request: string, model: string, u: Usage, price: Option<Price>, now: int)
    requires Inv(db)
    ensures CaptureRequest(db, t, request, model, u, price, now) != Err(DuplicateLedgerRequest)
  {
    var found := Find(db.rows, t, Trim(request));
    if found.Some? && db.rows[found.value].status == Authorized {
      OpenRowHasNoEntry(db, found.value);
    }
  }

  /** Closing an open row, by release or by the periodic reconcile, balances unless the credit saturates. */
  lemma CloseBalanced(db: Db, i: nat, event: EventType, now: int)
    requires Inv(db) && i < |db.rows| && db.rows[i].status != Released
    ensures var a := db.rows[i];
            && Refund(a) == Max(a.reserved - a.captured, 0)
            && (Refund(a) > 0 ==>
                  (Inv(Move(db, i, event, Refund(a), None, Closed(a, now)))
                   <==> Balance(db, a.tenant) + Refund(a) <= I64_MAX))
            && (Refund(a) == 0 ==> Inv(db.(rows := db.rows[i := Closed(a, now)])))
  {
    var a := db.rows[i];
    RowChangeKeepsTables(db, i, Closed(a, now));
    if Refund(a) > 0 {
      MoveBalanced(db, i, event, Refund(a), None, Closed(a, now));
      if Balance(db, a.tenant) + Refund(a) <= I64_MAX {
        MoveKeepsTables(db, i, event, Refund(a), None, Closed(a, now));
      }
    }
  }

  /**
   * When an adjustment may be made: on a closed row, or on an open one whose old and new amounts
   * both use up the reservation.  Elsewhere the hold does not follow the captured amount.
   */
  predicate Adjustable(a: Authorization, expected: int) {
    a.status == Released || a.captured == expected || (a.captured >= a.reserved && expected >= a.reserved)
  }

  function Adjusted(a: Authorization, expected: int, now: int): Authorization {
    a.(captured := expected, updatedAt := now)
  }

  lemma AdjustBalanced(db: Db, i: nat, expected: int, now: int)
    requires Inv(db) && i < |db.rows| && db.rows[i].status != Authorized
    requires 0 <= expected <= I64_MAX && db.rows[i].captured != expected
    requires 0 <= Balance(db, db.rows[i].tenant) + db.rows[i].captured - expected
    ensures var a := db.rows[i];
            Inv(Move(db, i, Adjust, a.captured - expected, None, Adjusted(a, expected, now)))
            <==> Balance(db, a.tenant) + a.captured - expected <= I64_MAX && Adjustable(a, expected)
  {
    var a := db.rows[i];
    MoveBalanced(db, i, Adjust, a.captured - expected, None, Adjusted(a, expected, now));
    MoveKeepsTables(db, i, Adjust, a.captured - expected, None, Adjusted(a, expected, now));
  }

  // ---------------------------------------------------------------------------------------------
  // Reconciliation against a request-log fact.
  // ---------------------------------------------------------------------------------------------

  /** What the request log knows of a request. */
  datatype Fact = Fact(
    model: Option<string>, input: Option<i64>, cached: Option<i64>, output: Option<i64>, reasoning: Option<i64>)

  /** The logged model, else the model that the authorization was granted for. */
  function FactModel(fact: Fact, a: Record): Option<string> {
    if fact.model.Some? && Trim(fact.model.value) != [] then Some(Trim(fact.model.value))
    else if Trim(a.model) != [] then Some(Trim(a.model))
    else None
  }

  function Clamped(tokens: Option<i64>): i64 { if tokens.Some? then Max(tokens.value, 0) else 0 }

  /** The logged token counts; prompt and completion must both be known. */
  function FactUsage(fact: Fact): Option<Usage> {
    if fact.input.None? || fact.output.None? then None
    else Some(Usage(Clamped(fact.input), Clamped(fact.cached), Clamped(fact.output), Clamped(fact.reasoning)))
  }

  function Fst(out: Outcome<(Db, Receipt)>): Outcome<Db> {
    match out
    case Ok(v) => Ok(v.0)
    case Err(e) => Err(e)
  }

  /** The first transaction: capture an authorized row, adjust any other, or nothing without a price basis. */
  function FactFirst(db: Db, a: Record, fact: Fact, price: Option<Price>, now: int): Outcome<Db> {
    var model, u := FactModel(fact, a), FactUsage(fact);
    if model.None? || u.None? then Ok(db)
    else if a.status == Authorized then
      Fst(CaptureRequest(db, a.tenant, a.requestId, model.value, u.value, price, now))
    else AdjustCaptured(db, a.tenant, a.requestId, u.value, price, now)
  }

  /** The database that a fact leaves, which an error does not undo, and the error. */
  datatype FactResult = FactResult(db: Db, error: Option<Error>)

  /** The last transaction: release the row unless it is released. */
  function FactLast(db: Db, columns: set<Column>, t: Tenant, r: string, now: int): FactResult {
    match Lookup(db.rows, columns, t, r)
    case Err(e) => FactResult(db, Some(e))
    case Ok(None) => FactResult(db, None)
    case Ok(Some(latest)) =>
      if latest.status == Released then FactResult(db, None)
      else
        match ReleaseRequest(db, t, r, now)
        case Err(e) => FactResult(db, Some(e))
        case Ok(released) => FactResult(released.0, None)
  }

  /** `billing_reconcile_request_fact`, with the SELECT list of its unlocked lookup. */
  function ReconcileFact(
    db: Db, columns: set<Column>, t: Tenant, request: string, fact: Fact, price: Option<Price>, now: int): FactResult
  {
    var r := Trim(request);
    if r == [] then FactResult(db, None)
    else
      match Lookup(db.rows, columns, t, r)
      case Err(e) => FactResult(db, Some(e))
      case Ok(None) => FactResult(db, None)
      case Ok(Some(a)) =>
        match FactFirst(db, a, fact, price, now)
        case Err(e) => FactResult(db, Some(e))
        case Ok(db1) => FactLast(db1, columns, t, r, now)
  }

  /** As the query is written, a fact errs on every existing authorization, and never changes anything. */
  lemma FactNeverApplies(db: Db, t: Tenant, request: string, fact: Fact, price: Option<Price>, now: int)
    ensures ReconcileFact(db, UNLOCKED_COLUMNS, t, request, fact, price, now)
         == FactResult(db, if Trim(request) != [] && Find(db.rows, t, Trim(request)).Some?
                           then Some(ColumnNotFound(MetaJson)) else None)
  {
    UnlockedLookupFails(db.rows, t, Trim(request));
  }

  /** The same of every query that leaves out some column of the record. */
  lemma UncoveredFactNeverApplies(
    db: Db, columns: set<Column>, t: Tenant, request: string, fact: Fact, price: Option<Price>, now: int)
    requires !(RECORD_COLUMNS <= columns)
    ensures ReconcileFact(db, columns, t, request, fact, price, now).db == db
  {
    LookupFailsIff(db.rows, columns, t, Trim(request));
  }

  // ---------------------------------------------------------------------------------------------
  // Every step and every run.
  // ---------------------------------------------------------------------------------------------

  datatype Op =
    | OpRecharge(t: Tenant, amount: i64)
    | OpAuthorize(t: Tenant, request: string, model: string, reserved: i64, ttl: int, priced: bool, now: int)
    | OpCapture(t: Tenant, request: string, model: string, u: Usage, price: Option<Price>, now: int)
    | OpRelease(t: Tenant, request: string, now: int)
    | OpCloseStale(row: nat, now: int, staleBefore: int)
    | OpFact(t: Tenant, request: string, fact: Fact, price: Option<Price>, now: int)
    | OpAdjust(t: Tenant, request: string, u: Usage, price: Option<Price>, now: int)

  /** The row an operation addresses, if it exists. */
  function Addressed(db: Db, op: Op): Option<nat> {
    match op
    case OpRecharge(_, _) => None
    case OpAuthorize(t, request, _, _, _, _, _) => Find(db.rows, t, Trim(request))
    case OpCapture(t, request, _, _, _, _) => Find(db.rows, t, Trim(request))
    case OpRelease(t, request, _) => Find(db.rows, t, Trim(request))
    case OpCloseStale(i, _, _) => if i < |db.rows| then Some(i) else None
    case OpFact(t, request, _, _, _) => Find(db.rows, t, Trim(request))
    case OpAdjust(t, request, _, _, _) => Find(db.rows, t, request)
  }

  /**
   * One operation; the reconcile steps run only where their callers' guards let them.  A fact is the
   * operation as written.  An adjustment is not an operation of its own: it is the transaction that a
   * fact would run if its lookup did not fail, and `Public` leaves it out.
   */
  function Step(db: Db, op: Op): Outcome<Db> {
    match op
    case OpRecharge(t, amount) => AdminRecharge(db, t, amount)
    case OpAuthorize(t, request, model, reserved, ttl, priced, now) =>
      Fst(Authorize(db, t, request, model, reserved, ttl, priced, now))
    case OpCapture(t, request, model, u, price, now) => Fst(CaptureRequest(db, t, request, model, u, price, now))
    case OpRelease(t, request, now) => Fst(ReleaseRequest(db, t, request, now))
    case OpCloseStale(i, now, staleBefore) =>
      if i < |db.rows| && Stale(db.rows[i], now, staleBefore) then CloseStale(db, i, now) else Ok(db)
    case OpFact(t, request, fact, price, now) =>
      Ok(ReconcileFact(db, UNLOCKED_COLUMNS, t, request, fact, price, now).db)
    case OpAdjust(t, request, u, price, now) =>
      var i := Addressed(db, op);
      if i.Some? && db.rows[i.value].status != Authorized then AdjustCaptured(db, t, request, u, price, now) else Ok(db)
  }

  function After(db: Db, op: Op): Db {
    match Step(db, op)
    case Ok(db1) => db1
    case Err(_) => db
  }

  /** What a caller can check before an operation to know that the books will stay balanced. */
  predicate Safe(db: Db, op: Op) {
    match op
    case OpRecharge(t, amount) => Balance(db, t) + amount <= I64_MAX
    case OpAuthorize(_, _, _, _, _, _, _) => true
    case OpCapture(_, _, _, _, _, _) => true
    case OpRelease(t, request, _) =>
      var i := Addressed(db, op);
      Trim(request) == [] || i.None? || db.rows[i.value].status == Released || RefundFits(db, i.value)
    case OpCloseStale(i, now, staleBefore) =>
      i >= |db.rows| || !Stale(db.rows[i], now, staleBefore) || RefundFits(db, i)
    case OpFact(_, _, _, _, _) => true
    case OpAdjust(t, request, u, price, _) =>
      var i := Addressed(db, op);
      i.None? || db.rows[i.value].status == Authorized || price.None?
      || AdjustFits(db, i.value, Charge(u, price.value))
  }

  predicate RefundFits(db: Db, i: nat)
    requires i < |db.rows|
  {
    var a := db.rows[i];
    Balance(db, a.tenant) + Max(a.reserved - a.captured, 0) <= I64_MAX
  }

  /** The adjustment is a no-op, is refused for lack of credits, or is within bounds and adjustable. */
  predicate AdjustFits(db: Db, i: nat, expected: int)
    requires i < |db.rows|
  {
    var a := db.rows[i];
    var next := Balance(db, a.tenant) + a.captured - expected;
    a.captured == expected || next < 0 || (next <= I64_MAX && Adjustable(a, expected))
  }

  /** Closing never fails, and is one move of the books if it gives anything back. */
  lemma CloseRowIsMove(db: Db, i: nat, event: EventType, now: int)
    requires i < |db.rows| && RowOk(db.rows[i]) && AccountsOk(db.accounts)
    ensures var a := db.rows[i];
            CloseRow(db, i, event, now)
            == Ok(if Refund(a) > 0 then Move(db, i, event, Refund(a), None, Closed(a, now))
                  else db.(rows := db.rows[i := Closed(a, now)]))
  {
  }

  lemma CloseRowKeepsBooksIff(db: Db, i: nat, event: EventType, now: int)
    requires Inv(db) && i < |db.rows| && db.rows[i].status != Released
    ensures CloseRow(db, i, event, now).Ok? && (Inv(CloseRow(db, i, event, now).value) <==> RefundFits(db, i))
  {
    assert RowOk(db.rows[i]);
    CloseRowIsMove(db, i, event, now);
    CloseBalanced(db, i, event, now);
  }

  lemma ReleaseStep(db: Db, op: Op)
    requires Inv(db) && op.OpRelease?
    ensures Inv(After(db, op)) <==> Safe(db, op)
  {
    var found := Addressed(db, op);
    if Trim(op.request) != [] && found.Some? && db.rows[found.value].status != Released {
      CloseRowKeepsBooksIff(db, found.value, Release, op.now);
      assert After(db, op) == CloseRow(db, found.value, Release, op.now).value;
    }
  }

  lemma CloseStaleStep(db: Db, op: Op)
    requires Inv(db) && op.OpCloseStale?
    ensures Inv(After(db, op)) <==> Safe(db, op)
  {
    var i := op.row;
    if i < |db.rows| && Stale(db.rows[i], op.now, op.staleBefore) {
      CloseRowKeepsBooksIff(db, i, Adjust, op.now);
      assert After(db, op) == CloseRow(db, i, Adjust, op.now).value;
    }
  }

  lemma AdjustRowIsMove(db: Db, i: nat, expected: int, now: int)
    requires i < |db.rows| && RowOk(db.rows[i]) && 0 <= expected <= I64_MAX && AdjustRow(db, i, expected, now).Ok?
    ensures var a := db.rows[i];
            AdjustRow(db, i, expected, now).value
            == if a.captured == expected then db
               else Move(db, i, Adjust, a.captured - expected, None, Adjusted(a, expected, now))
  {
  }

  /** An adjustment succeeds if and only if it changes nothing or the balance covers it. */
  lemma AdjustSucceedsIff(db: Db, i: nat, expected: int, now: int)
    requires Inv(db) && i < |db.rows| && 0 <= expected <= I64_MAX
    ensures AdjustRow(db, i, expected, now).Ok? <==>
              db.rows[i].captured == expected || expected <= Balance(db, db.rows[i].tenant) + db.rows[i].captured
    ensures AdjustRow(db, i, expected, now).Ok? ==> AdjustRow(db, i, expected, now).value.rows[i].captured == expected
  {
    assert RowOk(db.rows[i]);
  }

  lemma AdjustRowStep(db: Db, i: nat, expected: int, now: int)
    requires Inv(db) && i < |db.rows| && db.rows[i].status != Authorized && 0 <= expected <= I64_MAX
    ensures AdjustRow(db, i, expected, now).Ok? ==>
              (Inv(AdjustRow(db, i, expected, now).value) <==> AdjustFits(db, i, expected))
    ensures AdjustRow(db, i, expected, now).Err? ==> AdjustFits(db, i, expected)
  {
    var a := db.rows[i];
    assert RowOk(a);
    if AdjustRow(db, i, expected, now).Ok? && a.captured != expected {
      AdjustRowIsMove(db, i, expected, now);
      AdjustBalanced(db, i, expected, now);
    }
  }

  lemma AdjustStep(db: Db, op: Op)
    requires Inv(db) && op.OpAdjust?
    ensures Inv(After(db, op)) <==> Safe(db, op)
  {
    var found := Addressed(db, op);
    if found.Some? && db.rows[found.value].status != Authorized && op.price.Some? {
      AdjustRowStep(db, found.value, Charge(op.u, op.price.value), op.now);
    }
  }

  /** Main step theorem: an operation keeps the books balanced if and only if it was safe. */
  lemma StepKeepsBooksIffSafe(db: Db, op: Op)
    requires Inv(db)
    ensures Inv(After(db, op)) <==> Safe(db, op)
  {
    match op
    case OpRecharge(t, amount) =>
      if amount > 0 {
        RechargeBalanced(db, t, amount);
      }
    case OpAuthorize(t, request, model, reserved, ttl, priced, now) =>
      AuthorizeBalanced(db, t, request, model, reserved, ttl, priced, now);
    case OpCapture(t, request, model, u, price, now) =>
      CaptureBalanced(db, t, request, model, u, price, now);
    case OpRelease(_, _, _) => ReleaseStep(db, op);
    case OpCloseStale(_, _, _) => CloseStaleStep(db, op);
    case OpFact(t, request, fact, price, now) => FactNeverApplies(db, t, request, fact, price, now);
    case OpAdjust(_, _, _, _, _) => AdjustStep(db, op);
  }

  /** What the service offers: everything but a bare adjustment. */
  predicate Public(op: Op) { !op.OpAdjust? }

  ghost predicate AllPublic(ops: seq<Op>) { forall op :: op in ops ==> Public(op) }

  function Run(db: Db, ops: seq<Op>): Db
    decreases |ops|
  {
    if ops == [] then db else Run(After(db, ops[0]), ops[1..])
  }

  predicate SafeRun(db: Db, ops: seq<Op>)
    decreases |ops|
  {
    ops == [] || (Safe(db, ops[0]) && SafeRun(After(db, ops[0]), ops[1..]))
  }

  lemma {:induction false} SafeRunKeepsBooks(db: Db, ops: seq<Op>)
    requires Inv(db) && SafeRun(db, ops)
    ensures Inv(Run(db, ops))
    decreases |ops|
  {
    if ops != [] {
      StepKeepsBooksIffSafe(db, ops[0]);
      SafeRunKeepsBooks(After(db, ops[0]), ops[1..]);
    }
  }

  function Deposit(op: Op, t: Tenant): int {
    if op.OpRecharge? && op.t == t && op.amount > 0 then op.amount else 0
  }

  /** What the recharges of a run would pay in for a tenant. */
  function Recharges(ops: seq<Op>, t: Tenant): int
    decreases |ops|
  {
    if ops == [] then 0 else Deposit(ops[0], t) + Recharges(ops[1..], t)
  }

  lemma {:induction false} RechargesNonNegative(ops: seq<Op>, t: Tenant)
    ensures Recharges(ops, t) >= 0
    decreases |ops|
  {
    if ops != [] {
      RechargesNonNegative(ops[1..], t);
    }
  }

  /** The event that an operation's ledger entry names. */
  function EventOf(op: Op): EventType {
    match op
    case OpRecharge(_, _) => Recharge
    case OpAuthorize(_, _, _, _, _, _, _) => AuthorizeHold
    case OpCapture(_, _, _, _, _, _) => Capture
    case OpRelease(_, _, _) => Release
    case _ => Adjust
  }

  /** Nothing is appended, or one entry that names the event and shows its tenant's new balance. */
  predicate Appends(db: Db, db1: Db, event: EventType, named: bool) {
    var l, l1 := db.ledger, db1.ledger;
    l1 == l || (&& |l1| == |l| + 1 && l1[..|l|] == l && l1[|l|].authorization.Some? == named && l1[|l|].event == event
                && l1[|l|].balanceAfter == Balance(db1, l1[|l|].tenant))
  }

  lemma CloseLedger(db: Db, op: Op)
    requires op.OpRelease? || op.OpCloseStale?
    ensures Appends(db, After(db, op), EventOf(op), true)
  {
  }

  lemma AuthorizeLedger(db: Db, op: Op)
    requires op.OpAuthorize?
    ensures Appends(db, After(db, op), EventOf(op), true)
  {
  }

  lemma CaptureLedger(db: Db, op: Op)
    requires Inv(db) && op.OpCapture?
    ensures Appends(db, After(db, op), EventOf(op), true)
  {
    CaptureIsMove(db, op.t, op.request, op.model, op.u, op.price, op.now);
  }

  lemma AdjustLedger(db: Db, op: Op)
    requires op.OpAdjust?
    ensures Appends(db, After(db, op), EventOf(op), true)
  {
  }

  /** Every operation's entry names the operation and shows the balance; only a recharge names no authorization. */
  lemma StepLedger(db: Db, op: Op)
    requires Inv(db)
    ensures Appends(db, After(db, op), EventOf(op), !op.OpRecharge?)
  {
    match op {
      case OpRecharge(u, amount) => if amount > 0 { RechargeBalanced(db, u, amount); }
      case OpAuthorize(_, _, _, _, _, _, _) => AuthorizeLedger(db, op);
      case OpCapture(_, _, _, _, _, _) => CaptureLedger(db, op);
      case OpFact(u, request, fact, price, now) => FactNeverApplies(db, u, request, fact, price, now);
      case OpAdjust(_, _, _, _, _) => AdjustLedger(db, op);
      case _ => CloseLedger(db, op);
    }
  }

  /** Every entry of the ledger shows the sum of its tenant's movements up to it. */
  ghost predicate Running(ledger: seq<Entry>) {
    forall k :: 0 <= k < |ledger| ==> ledger[k].balanceAfter == Total(ledger[..k + 1], ledger[k].tenant)
  }

  lemma RunningAppend(ledger: seq<Entry>, e: Entry)
    requires Running(ledger) && e.balanceAfter == Total(ledger + [e], e.tenant)
    ensures Running(ledger + [e])
  {
    var all := ledger + [e];
    forall k | 0 <= k < |all| ensures all[k].balanceAfter == Total(all[..k + 1], all[k].tenant) {
      if k < |ledger| {
        assert all[..k + 1] == ledger[..k + 1];
      } else {
        assert all[..k + 1] == all;
      }
    }
  }

  lemma StepKeepsRunning(db: Db, op: Op)
    requires Inv(db) && Inv(After(db, op)) && Running(db.ledger)
    ensures Running(After(db, op).ledger)
  {
    var l, db1 := db.ledger, After(db, op);
    StepLedger(db, op);
    if db1.ledger != l {
      var e := db1.ledger[|l|];
      assert db1.ledger == l + [e];
      assert Total(db1.ledger, e.tenant) == Balance(db1, e.tenant);
      RunningAppend(l, e);
    }
  }

  /** Over every safe run the ledger reads as a bank statement: each entry shows the balance it left. */
  lemma {:induction false} RunShowsBalances(db: Db, ops: seq<Op>)
    requires Inv(db) && SafeRun(db, ops) && Running(db.ledger)
    ensures Running(Run(db, ops).ledger)
    decreases |ops|
  {
    if ops != [] {
      StepKeepsBooksIffSafe(db, ops[0]);
      StepKeepsRunning(db, ops[0]);
      RunShowsBalances(After(db, ops[0]), ops[1..]);
    }
  }

  /** Only a recharge pays in. */
  lemma StepDeposits(db: Db, op: Op, t: Tenant)
    requires Inv(db)
    ensures Deposited(After(db, op).ledger, t) == Deposited(db.ledger, t) + Deposit(op, t)
  {
    var l, l1 := db.ledger, After(db, op).ledger;
    StepLedger(db, op);
    if op.OpRecharge? && op.amount > 0 {
      RechargeBalanced(db, op.t, op.amount);
    }
    if l1 != l {
      assert l1 == l + [l1[|l|]];
      Append(l, l1[|l|]);
    }
  }

  /** No public operation can saturate while a tenant's deposits fit in 64 bits. */
  lemma BoundedDepositsAreSafe(db: Db, op: Op)
    requires Inv(db) && Public(op)
    requires forall t :: Deposited(db.ledger, t) + Deposit(op, t) <= I64_MAX
    ensures Safe(db, op)
  {
    match op
    case OpRecharge(t, amount) =>
      Conservation(db, t);
      assert Deposited(db.ledger, t) + Deposit(op, t) <= I64_MAX;
    case OpRelease(t, request, _) =>
      var i := Addressed(db, op);
      if i.Some? && db.rows[i.value].status != Released {
        RefundWithinDeposits(db, i.value);
        assert Deposited(db.ledger, t) + Deposit(op, t) <= I64_MAX;
      }
    case OpCloseStale(i, now, staleBefore) =>
      if i < |db.rows| && Stale(db.rows[i], now, staleBefore) {
        RefundWithinDeposits(db, i);
        assert Deposited(db.ledger, db.rows[i].tenant) + Deposit(op, db.rows[i].tenant) <= I64_MAX;
      }
    case _ =>
  }

  lemma RefundWithinDeposits(db: Db, i: nat)
    requires Inv(db) && i < |db.rows| && db.rows[i].status != Released
    ensures Balance(db, db.rows[i].tenant) + Max(db.rows[i].reserved - db.rows[i].captured, 0)
         <= Deposited(db.ledger, db.rows[i].tenant)
  {
    Conservation(db, db.rows[i].tenant);
    HeldAtLeast(db.rows, i);
  }

  lemma {:induction false} HeldAtLeast(rows: seq<Authorization>, i: nat)
    requires i < |rows| && forall j :: 0 <= j < |rows| ==> RowOk(rows[j])
    ensures Held(rows, rows[i].tenant) >= Hold(rows[i])
  {
    var last := |rows| - 1;
    if i < last {
      HeldAtLeast(rows[..last], i);
    } else {
      HeldNonNegative(rows[..last], rows[i].tenant);
    }
  }

  /**
   * Main run theorem: over every run of the service's operations whose deposits fit in 64 bits, no credit
   * is created or lost: each balance plus its tenant's holds is what the tenant paid in.
   */
  lemma {:induction false} RunConservesCredits(db: Db, ops: seq<Op>, t: Tenant)
    requires Inv(db)
    requires AllPublic(ops)
    requires forall u :: Deposited(db.ledger, u) + Recharges(ops, u) <= I64_MAX
    ensures SafeRun(db, ops) && Inv(Run(db, ops))
    ensures var last := Run(db, ops);
            && Deposited(last.ledger, t) == Deposited(db.ledger, t) + Recharges(ops, t)
            && Balance(last, t) + Held(last.rows, t) == Deposited(last.ledger, t)
            && 0 <= Balance(last, t)
    decreases |ops|
  {
    if ops == [] {
      Conservation(db, t);
    } else {
      var op, rest := ops[0], ops[1..];
      assert op in ops && forall x :: x in rest ==> x in ops;
      forall u ensures Deposited(db.ledger, u) + Deposit(op, u) <= I64_MAX {
        RechargesNonNegative(rest, u);
        assert Deposited(db.ledger, u) + Recharges(ops, u) <= I64_MAX;
      }
      BoundedDepositsAreSafe(db, op);
      StepKeepsBooksIffSafe(db, op);
      forall u ensures Deposited(After(db, op).ledger, u) + Recharges(rest, u) <= I64_MAX {
        StepDeposits(db, op, u);
        assert Deposited(db.ledger, u) + Recharges(ops, u) <= I64_MAX;
      }
      StepDeposits(db, op, t);
      RunConservesCredits(After(db, op), rest, t);
    }
  }

  /** From the empty database, what every tenant ever recharged is on its balance or held. */
  lemma ServiceConservesCredits(ops: seq<Op>, t: Tenant)
    requires AllPublic(ops) && forall u :: Recharges(ops, u) <= I64_MAX
    ensures var last := Run(EMPTY, ops);
            Inv(last) && Balance(last, t) + Held(last.rows, t) == Recharges(ops, t) && 0 <= Balance(last, t)
  {
    EmptyIsBalanced();
    forall u ensures Deposited(EMPTY.ledger, u) + Recharges(ops, u) <= I64_MAX {
      assert Recharges(ops, u) <= I64_MAX;
    }
    RunConservesCredits(EMPTY, ops, t);
  }

  // ---------------------------------------------------------------------------------------------
  // The life of one authorization.
  // ---------------------------------------------------------------------------------------------

  function Rank(s: Status): nat {
    match s
    case Authorized => 0
    case Captured => 1
    case Released => 2
  }

  /** What no operation other than an adjustment may do to a row. */
  predicate Advances(a: Authorization, b: Authorization) {
    && SameKey(a, b) && Rank(a.status) <= Rank(b.status)
    && (a.status != Authorized ==> b.captured == a.captured)
  }

  predicate RowAdvances(db: Db, db1: Db, i: nat)
    requires i < |db.rows|
  {
    i < |db1.rows| && Advances(db.rows[i], db1.rows[i])
  }

  lemma CloseAdvances(db: Db, op: Op, i: nat)
    requires i < |db.rows| && (op.OpRelease? || op.OpCloseStale?)
    ensures RowAdvances(db, After(db, op), i)
  {
  }

  lemma AuthorizeAdvances(db: Db, op: Op, i: nat)
    requires i < |db.rows| && (op.OpAuthorize? || op.OpRecharge?)
    ensures RowAdvances(db, After(db, op), i)
  {
  }

  lemma CaptureAdvances(db: Db, op: Op, i: nat)
    requires Inv(db) && i < |db.rows| && op.OpCapture?
    ensures RowAdvances(db, After(db, op), i)
  {
    CaptureIsMove(db, op.t, op.request, op.model, op.u, op.price, op.now);
  }

  lemma StepAdvancesRows(db: Db, op: Op, i: nat)
    requires Inv(db) && i < |db.rows| && Public(op)
    ensures RowAdvances(db, After(db, op), i)
  {
    match op
    case OpRelease(_, _, _) => CloseAdvances(db, op, i);
    case OpCloseStale(_, _, _) => CloseAdvances(db, op, i);
    case OpCapture(_, _, _, _, _, _) => CaptureAdvances(db, op, i);
    case OpFact(t, request, fact, price, now) => FactNeverApplies(db, t, request, fact, price, now);
    case _ => AuthorizeAdvances(db, op, i);
  }

  /**
   * Over every conserving run an authorization only moves forward, its captured amount is fixed once
   * captured, and a released one has moved exactly its captured amount out of the balance.
   */
  lemma {:induction false} RunSettlesExactly(db: Db, ops: seq<Op>, i: nat)
    requires Inv(db) && i < |db.rows|
    requires AllPublic(ops)
    requires SafeRun(db, ops)
    ensures var last := Run(db, ops);
            && RowAdvances(db, last, i)
            && (last.rows[i].status == Released ==> Net(last.ledger, i) == -last.rows[i].captured)
    decreases |ops|
  {
    if ops != [] {
      var op, rest := ops[0], ops[1..];
      assert op in ops && forall x :: x in rest ==> x in ops;
      StepKeepsBooksIffSafe(db, op);
      StepAdvancesRows(db, op, i);
      RunSettlesExactly(After(db, op), rest, i);
    }
  }

  /** A receipt tells the row and the balance as the transaction left them. */
  ghost predicate Truthful(db: Db, t: Tenant, request: string, r: Receipt) {
    && r.row < |db.rows| && r.balance == Balance(db, t)
    && var a := db.rows[r.row];
       && a.tenant == t && a.requestId == Trim(request)
       && r.status == a.status && r.reserved == a.reserved && r.captured == a.captured
  }

  lemma AuthorizeReceipt(
    db: Db, t: Tenant, request: string, model: string, reserved: i64, ttl: int, priced: bool, now: int)
    ensures var out := Authorize(db, t, request, model, reserved, ttl, priced, now);
            out.Ok? ==> Truthful(out.value.0, t, request, out.value.1) && out.value.1.status == Authorized
  {
  }

  /**
   * A new request is granted if and only if its model has a price and the balance covers it.  Then
   * exactly the hold leaves the balance, and the new row lives between half a minute and six hours.
   */
  lemma AuthorizeGrantsIff(
    db: Db, t: Tenant, request: string, model: string, reserved: i64, ttl: int, priced: bool, now: int)
    requires Inv(db) && Trim(request) != [] && Trim(model) != [] && reserved > 0
    requires Find(db.rows, t, Trim(request)).None?
    ensures var out := Authorize(db, t, request, model, reserved, ttl, priced, now);
            && (out.Ok? <==> priced && reserved <= Balance(db, t))
            && (out.Ok? ==>
                  var db1, i := out.value.0, |db.rows|;
                  && |db1.rows| == i + 1 && db1.rows[..i] == db.rows && out.value.1.row == i
                  && db1.rows[i].status == Authorized && db1.rows[i].reserved == reserved && db1.rows[i].captured == 0
                  && db1.rows[i].model == Trim(model)
                  && now + MIN_TTL <= db1.rows[i].expiresAt <= now + MAX_TTL
                  && (MIN_TTL <= ttl <= MAX_TTL ==> db1.rows[i].expiresAt == now + ttl)
                  && Balance(db1, t) == Balance(db, t) - reserved
                  && forall u :: u != t ==> Balance(db1, u) == Balance(db, u))
  {
    assert t in db.accounts ==> 0 <= db.accounts[t] <= I64_MAX;
  }

  lemma GrantIsFound(db: Db, a: Authorization)
    requires Grant(db, a).Ok?
    ensures var rows := Grant(db, a).value.rows;
            Find(rows, a.tenant, a.requestId) == Some(|db.rows|) && rows[|db.rows|] == a
  {
  }

  /** Asking again for an open request, with whatever amount, holds nothing more. */
  lemma AuthorizeIsIdempotent(
    db: Db, t: Tenant, request: string, model: string, reserved: i64, ttl: int, priced: bool, now: int,
    model2: string, reserved2: i64, ttl2: int, priced2: bool, now2: int)
    requires Authorize(db, t, request, model, reserved, ttl, priced, now).Ok? && Trim(model2) != [] && reserved2 > 0
    ensures var first := Authorize(db, t, request, model, reserved, ttl, priced, now).value;
            Authorize(first.0, t, request, model2, reserved2, ttl2, priced2, now2) == Ok(first)
  {
    var r, expiresAt := Trim(request), now + Max(MIN_TTL, Min(MAX_TTL, ttl));
    if Find(db.rows, t, r).None? {
      GrantIsFound(db, Authorization(t, r, Trim(model), reserved, 0, Authorized, expiresAt, now));
    }
  }

  /** A capture reports the whole charge, and the part beyond the reservation is what left the balance. */
  lemma CaptureReceipt(db: Db, t: Tenant, request: string, model: string, u: Usage, price: Option<Price>, now: int)
    requires Inv(db)
    ensures var out := CaptureRequest(db, t, request, model, u, price, now);
            out.Ok? ==>
              && Truthful(out.value.0, t, request, out.value.1) && out.value.1.status == Captured
              && out.value.1.amount == out.value.1.captured
              && (out.value.0 == db ==> out.value.1.balance == Balance(db, t))
              && (out.value.0 != db ==>
                    && price.Some? && out.value.1.amount == Charge(u, price.value)
                    && (Is64(price.value) ==>
                          Prices(out.value.1.amount, ExactPrice(u.input, u.cached, u.output, u.reasoning, price.value)))
                    && out.value.1.balance == Balance(db, t) - Max(out.value.1.amount - out.value.1.reserved, 0))
  {
    CaptureIsMove(db, t, request, model, u, price, now);
    if price.Some? && Is64(price.value) {
      ChargeIsPriced(u, price.value);
    }
  }

  /**
   * A capture succeeds if and only if it names a request and a model, the request is known, and it is captured
   * already, or authorized, priced and covered by the hold and the balance.
   */
  lemma CaptureSucceedsIff(db: Db, t: Tenant, request: string, model: string, u: Usage, price: Option<Price>, now: int)
    requires Inv(db)
    ensures var found := Find(db.rows, t, Trim(request));
            CaptureRequest(db, t, request, model, u, price, now).Ok? <==>
              && !AllBlank(request, Blank) && !AllBlank(model, Blank) && found.Some?
              && var a := db.rows[found.value];
                 a.status == Captured
                 || (a.status == Authorized && price.Some? && Charge(u, price.value) <= Balance(db, t) + a.reserved)
  {
    TrimIsEmptyIff(request, Blank);
    TrimIsEmptyIff(model, Blank);
    NoDuplicateLedgerRequest(db, t, request, model, u, price, now);
    var found := Find(db.rows, t, Trim(request));
    if found.Some? {
      assert RowOk(db.rows[found.value]);
    }
  }

  /**
   * An authorization succeeds if and only if it names a request, a model and an amount, and the request is open
   * already, or new, priced and covered by the balance.
   */
  lemma AuthorizeSucceedsIff(
    db: Db, t: Tenant, request: string, model: string, reserved: i64, ttl: int, priced: bool, now: int)
    requires Inv(db)
    ensures var found := Find(db.rows, t, Trim(request));
            Authorize(db, t, request, model, reserved, ttl, priced, now).Ok? <==>
              && !AllBlank(request, Blank) && !AllBlank(model, Blank) && reserved > 0
              && if found.Some? then db.rows[found.value].status == Authorized
                 else priced && reserved <= Balance(db, t)
    ensures Authorize(db, t, request, model, reserved, ttl, priced, now) == Err(InsufficientCredits) <==>
              && !AllBlank(request, Blank) && !AllBlank(model, Blank) && reserved > 0
              && Find(db.rows, t, Trim(request)).None? && priced && reserved > Balance(db, t)
  {
    TrimIsEmptyIff(request, Blank);
    TrimIsEmptyIff(model, Blank);
    assert t in db.accounts ==> 0 <= db.accounts[t] <= I64_MAX;
  }

  /** A release changes one row and at most the balance of its tenant. */
  ghost predicate OnlyRow(db: Db, db1: Db, i: nat, t: Tenant) {
    && |db1.rows| == |db.rows| && (forall j :: 0 <= j < |db.rows| && j != i ==> db1.rows[j] == db.rows[j])
    && (forall u :: u != t ==> Balance(db1, u) == Balance(db, u))
  }

  /**
   * A release succeeds if and only if the request is known.  The row is released, nothing else changes, and an
   * open row gives back exactly what it kept beyond its captured amount, unless the balance saturates.
   */
  lemma ReleaseSucceedsIff(db: Db, t: Tenant, request: string, now: int)
    requires Inv(db)
    ensures var out, found := ReleaseRequest(db, t, request, now), Find(db.rows, t, Trim(request));
            && (out.Ok? <==> !AllBlank(request, Blank) && found.Some?)
            && (out.Ok? ==>
                  var db1, i := out.value.0, found.value;
                  var a, refund := db.rows[i], Max(db.rows[i].reserved - db.rows[i].captured, 0);
                  && OnlyRow(db, db1, i, t)
                  && db1.rows[i].status == Released && SameKey(db1.rows[i], a) && db1.rows[i].captured == a.captured
                  && (a.status == Released ==> db1 == db)
                  && (a.status != Released && Balance(db, t) + refund <= I64_MAX ==>
                        Balance(db1, t) == Balance(db, t) + refund))
  {
    TrimIsEmptyIff(request, Blank);
    var found := Find(db.rows, t, Trim(request));
    if found.Some? {
      assert RowOk(db.rows[found.value]);
      CloseRowIsMove(db, found.value, Release, now);
    }
  }

  /** A recharge succeeds if and only if it is positive, and then pays in exactly its amount, unless that saturates. */
  lemma RechargeSucceedsIff(db: Db, t: Tenant, amount: i64)
    requires Inv(db)
    ensures AdminRecharge(db, t, amount).Ok? <==> amount > 0
    ensures amount > 0 ==>
              var db1 := AdminRecharge(db, t, amount).value;
              && db1.rows == db.rows && (forall u :: u != t ==> Balance(db1, u) == Balance(db, u))
              && (Balance(db, t) + amount <= I64_MAX ==> Balance(db1, t) == Balance(db, t) + amount)
  {
    assert t in db.accounts ==> 0 <= db.accounts[t] <= I64_MAX;
  }

  // ---------------------------------------------------------------------------------------------
  // When the periodic reconcile selects a row.
  // ---------------------------------------------------------------------------------------------

  /** A granted request is stale from the end of its clamped lifetime on, and not before. */
  lemma GrantGoesStale(
    db: Db, t: Tenant, request: string, model: string, reserved: i64, ttl: int, priced: bool, now: int,
    later: int, staleBefore: int)
    requires Inv(db) && Find(db.rows, t, Trim(request)).None?
    requires Authorize(db, t, request, model, reserved, ttl, priced, now).Ok?
    ensures var db1 := Authorize(db, t, request, model, reserved, ttl, priced, now).value.0;
            && |db1.rows| == |db.rows| + 1
            && (Stale(db1.rows[|db.rows|], later, staleBefore)
                <==> later - now >= if ttl < 30 then 30 else if ttl > 21600 then 21600 else ttl)
  {
  }

  /** A captured request is stale from the horizon's passing its capture on, whatever its lifetime was. */
  lemma CaptureGoesStale(db: Db, i: nat, charged: int, now: int, later: int, staleBefore: int)
    requires i < |db.rows| && CaptureRow(db, i, charged, now).Ok?
    ensures var db1 := CaptureRow(db, i, charged, now).value;
            i < |db1.rows| && (Stale(db1.rows[i], later, staleBefore) <==> now <= staleBefore)
  {
  }

  /** A closed request is never stale again. */
  lemma ClosedIsNeverStale(db: Db, i: nat, event: EventType, now: int, later: int, staleBefore: int)
    requires i < |db.rows| && CloseRow(db, i, event, now).Ok?
    ensures var db1 := CloseRow(db, i, event, now).value;
            i < |db1.rows| && !Stale(db1.rows[i], later, staleBefore)
  {
  }

  /** A release of an open row reports exactly what came back, unless the balance saturates. */
  lemma ReleaseReceipt(db: Db, t: Tenant, request: string, now: int)
    requires Inv(db)
    ensures var out := ReleaseRequest(db, t, request, now);
            out.Ok? ==>
              && Truthful(out.value.0, t, request, out.value.1) && out.value.1.status == Released
              && (out.value.0 != db && Balance(db, t) + out.value.1.amount <= I64_MAX ==>
                    out.value.1.balance == Balance(db, t) + out.value.1.amount)
  {
    var found := Find(db.rows, t, Trim(request));
    if found.Some? {
      assert RowOk(db.rows[found.value]);
    }
  }

  /** A second capture, whatever usage it reports, charges nothing and repeats the first amount. */
  lemma CaptureIsIdempotent(
    db: Db, t: Tenant, request: string, model: string, u: Usage, price: Option<Price>, now: int,
    model2: string, u2: Usage, price2: Option<Price>, now2: int)
    requires Inv(db) && CaptureRequest(db, t, request, model, u, price, now).Ok? && Trim(model2) != []
    ensures var first := CaptureRequest(db, t, request, model, u, price, now).value;
            var second := CaptureRequest(first.0, t, request, model2, u2, price2, now2);
            second.Ok? && second.value.0 == first.0
            && second.value.1.amount == first.1.amount && second.value.1.balance == first.1.balance
  {
    var first := CaptureRequest(db, t, request, model, u, price, now).value;
    FoundAgain(db.rows, first.0.rows, t, Trim(request));
  }

  /** A second release changes nothing and reports the same refund. */
  lemma ReleaseIsIdempotent(db: Db, t: Tenant, request: string, now: int, now2: int)
    requires Inv(db) && ReleaseRequest(db, t, request, now).Ok?
    ensures var first := ReleaseRequest(db, t, request, now).value;
            ReleaseRequest(first.0, t, request, now2) == Ok(first)
  {
    var first := ReleaseRequest(db, t, request, now).value;
    FoundAgain(db.rows, first.0.rows, t, Trim(request));
  }

  // ---------------------------------------------------------------------------------------------
  // What a fact would do if its query covered the record.
  // ---------------------------------------------------------------------------------------------

  lemma NetAfterMove(db: Db, i: nat, event: EventType, delta: int, r: Option<string>, a: Authorization)
    requires i < |db.rows|
    ensures Net(Move(db, i, event, delta, r, a).ledger, i) == Net(db.ledger, i) + delta
  {
    Append(db.ledger, Move(db, i, event, delta, r, a).ledger[|db.ledger|]);
  }

  lemma ReleaseIsMove(db: Db, i: nat, now: int)
    requires Keyed(db, i) && db.rows[i].status != Released
    ensures var a := db.rows[i];
            var out := ReleaseRequest(db, a.tenant, a.requestId, now);
            out.Ok? ==>
              out.value.0 == if Refund(a) > 0 then Move(db, i, Release, Refund(a), None, Closed(a, now))
                             else db.(rows := db.rows[i := Closed(a, now)])
  {
  }

  /** What closing adds to a row's ledger movements. */
  lemma ReleaseNet(db: Db, i: nat, now: int)
    requires Keyed(db, i) && RowOk(db.rows[i]) && db.rows[i].status != Released
    requires ReleaseRequest(db, db.rows[i].tenant, db.rows[i].requestId, now).Ok?
    ensures var a := db.rows[i];
            var db1 := ReleaseRequest(db, a.tenant, a.requestId, now).value.0;
            && Net(db1.ledger, i) == Net(db.ledger, i) + Max(a.reserved - a.captured, 0)
            && db1.rows == db.rows[i := Closed(a, now)]
  {
    var a := db.rows[i];
    ReleaseIsMove(db, i, now);
    if Refund(a) > 0 {
      NetAfterMove(db, i, Release, Refund(a), None, Closed(a, now));
    }
  }

  /** What the first transaction leaves: the row priced as logged, and its ledger movements. */
  ghost predicate FirstDone(db: Db, dbm: Db, i: nat, captured: int, status: Status, delta: int)
    requires i < |db.rows|
  {
    && |dbm.rows| == |db.rows| && (forall j :: 0 <= j < |db.rows| ==> SameKey(db.rows[j], dbm.rows[j]))
    && RowOk(dbm.rows[i]) && dbm.rows[i].captured == captured && dbm.rows[i].status == status
    && Net(dbm.ledger, i) == -Hold(db.rows[i]) + delta
  }

  /** The row at i is the one its own key finds, under a trimmed request id. */
  ghost predicate Keyed(db: Db, i: nat) {
    && i < |db.rows| && Find(db.rows, db.rows[i].tenant, db.rows[i].requestId) == Some(i)
    && Trim(db.rows[i].requestId) == db.rows[i].requestId != []
  }

  /** The fact names a model and counts, so that the request has a logged price. */
  predicate Counted(db: Db, i: nat, fact: Fact)
    requires i < |db.rows|
  {
    (Trim(db.rows[i].model) != [] || (fact.model.Some? && Trim(fact.model.value) != [])) && FactUsage(fact).Some?
  }

  /** The logged counts cost what they cost, a missing cache or reasoning count being none. */
  lemma FactChargeIsPriced(fact: Fact, price: Price)
    requires Is64(price)
    ensures FactUsage(fact).Some? <==> fact.input.Some? && fact.output.Some?
    ensures FactUsage(fact).Some? ==>
              var cached := if fact.cached.Some? then fact.cached.value else 0;
              var reasoning := if fact.reasoning.Some? then fact.reasoning.value else 0;
              Prices(Charge(FactUsage(fact).value, price),
                     ExactPrice(fact.input.value, cached, fact.output.value, reasoning, price))
  {
    if FactUsage(fact).Some? {
      ChargeIsPriced(FactUsage(fact).value, price);
    }
  }

  lemma CountedModel(db: Db, i: nat, fact: Fact)
    requires i < |db.rows|
    ensures var model := FactModel(fact, RecordAt(db.rows, i));
            && (Counted(db, i, fact) <==> model.Some? && FactUsage(fact).Some?)
            && (model.Some? ==> Trim(model.value) == model.value != [])
  {
    TrimTrims(db.rows[i].model, Blank);
    TrimmedIsFixed(Trim(db.rows[i].model), Blank);
    if fact.model.Some? {
      TrimTrims(fact.model.value, Blank);
      TrimmedIsFixed(Trim(fact.model.value), Blank);
    }
  }

  lemma MoveKeepsKeys(db: Db, i: nat, event: EventType, delta: int, r: Option<string>, a: Authorization)
    requires i < |db.rows| && SameKey(db.rows[i], a)
    ensures var dbm := Move(db, i, event, delta, r, a);
            |dbm.rows| == |db.rows| && forall j :: 0 <= j < |db.rows| ==> SameKey(db.rows[j], dbm.rows[j])
  {
  }

  /** The fact's capture of an authorized row is that row's capture at the logged charge. */
  lemma FactCaptureIsRow(db: Db, i: nat, fact: Fact, price: Option<Price>, now: int)
    requires Keyed(db, i) && Counted(db, i, fact) && db.rows[i].status == Authorized
    ensures FactFirst(db, RecordAt(db.rows, i), fact, price, now)
         == if price.None? then Err(PricingNotConfigured)
            else CaptureRow(db, i, Charge(FactUsage(fact).value, price.value), now)
  {
    CountedModel(db, i, fact);
  }

  lemma CapturedRowDone(db: Db, i: nat, charged: int, now: int)
    requires Inv(db) && i < |db.rows| && db.rows[i].status == Authorized && 0 <= charged <= I64_MAX
    requires CaptureRow(db, i, charged, now).Ok?
    ensures FirstDone(db, CaptureRow(db, i, charged, now).value, i, charged, Captured,
                      -Max(charged - db.rows[i].reserved, 0))
  {
    var a := db.rows[i];
    assert RowOk(a);
    var a1, delta := a.(captured := charged, status := Captured, updatedAt := now), -Max(charged - a.reserved, 0);
    CaptureRowIsMove(db, i, charged, now);
    MoveKeepsKeys(db, i, Capture, delta, Some(a.requestId), a1);
    NetAfterMove(db, i, Capture, delta, Some(a.requestId), a1);
  }

  lemma FactCaptures(db: Db, i: nat, fact: Fact, price: Option<Price>, now: int)
    requires Inv(db) && Keyed(db, i) && Counted(db, i, fact) && db.rows[i].status == Authorized
    requires FactFirst(db, RecordAt(db.rows, i), fact, price, now).Ok?
    ensures price.Some?
    ensures var charged := Charge(FactUsage(fact).value, price.value);
            FirstDone(db, FactFirst(db, RecordAt(db.rows, i), fact, price, now).value, i, charged, Captured,
                      -Max(charged - db.rows[i].reserved, 0))
  {
    FactCaptureIsRow(db, i, fact, price, now);
    CapturedRowDone(db, i, Charge(FactUsage(fact).value, price.value), now);
  }

  /** The fact's adjustment of any other row is that row's adjustment to the logged charge. */
  lemma FactAdjustIsRow(db: Db, i: nat, fact: Fact, price: Option<Price>, now: int)
    requires Keyed(db, i) && Counted(db, i, fact) && db.rows[i].status != Authorized
    ensures FactFirst(db, RecordAt(db.rows, i), fact, price, now)
         == if price.None? then Err(PricingNotConfigured)
            else AdjustRow(db, i, Charge(FactUsage(fact).value, price.value), now)
  {
    CountedModel(db, i, fact);
  }

  lemma AdjustedRowDone(db: Db, i: nat, charged: int, now: int)
    requires Inv(db) && i < |db.rows| && db.rows[i].status != Authorized && 0 <= charged <= I64_MAX
    requires AdjustRow(db, i, charged, now).Ok?
    ensures FirstDone(db, AdjustRow(db, i, charged, now).value, i, charged, db.rows[i].status,
                      db.rows[i].captured - charged)
  {
    var a := db.rows[i];
    assert RowOk(a);
    AdjustRowIsMove(db, i, charged, now);
    if a.captured != charged {
      MoveKeepsKeys(db, i, Adjust, a.captured - charged, None, Adjusted(a, charged, now));
      NetAfterMove(db, i, Adjust, a.captured - charged, None, Adjusted(a, charged, now));
    }
  }

  lemma FactAdjusts(db: Db, i: nat, fact: Fact, price: Option<Price>, now: int)
    requires Inv(db) && Keyed(db, i) && Counted(db, i, fact) && db.rows[i].status != Authorized
    requires FactFirst(db, RecordAt(db.rows, i), fact, price, now).Ok?
    ensures price.Some?
    ensures var charged := Charge(FactUsage(fact).value, price.value);
            FirstDone(db, FactFirst(db, RecordAt(db.rows, i), fact, price, now).value, i, charged, db.rows[i].status,
                      db.rows[i].captured - charged)
  {
    FactAdjustIsRow(db, i, fact, price, now);
    AdjustedRowDone(db, i, Charge(FactUsage(fact).value, price.value), now);
  }

  lemma FactLeaves(db: Db, i: nat, fact: Fact, price: Option<Price>, now: int)
    requires Inv(db) && Keyed(db, i) && !Counted(db, i, fact)
    ensures FactFirst(db, RecordAt(db.rows, i), fact, price, now) == Ok(db)
    ensures FirstDone(db, db, i, db.rows[i].captured, db.rows[i].status, 0)
  {
    CountedModel(db, i, fact);
    assert RowOk(db.rows[i]);
  }

  /** What the request should cost in the end: the logged charge, else what was captured. */
  function Expected(db: Db, i: nat, fact: Fact, price: Option<Price>): int
    requires i < |db.rows|
  {
    if Counted(db, i, fact) && price.Some? then Charge(FactUsage(fact).value, price.value) else db.rows[i].captured
  }

  /** How the first transaction moves the tenant's credits. */
  function FirstDelta(db: Db, i: nat, fact: Fact, price: Option<Price>): int
    requires i < |db.rows|
  {
    var a, expected := db.rows[i], Expected(db, i, fact, price);
    if !Counted(db, i, fact) then 0
    else if a.status == Authorized then -Max(expected - a.reserved, 0)
    else a.captured - expected
  }

  lemma FactFirstDone(db: Db, i: nat, fact: Fact, price: Option<Price>, now: int)
    requires Inv(db) && Keyed(db, i) && FactFirst(db, RecordAt(db.rows, i), fact, price, now).Ok?
    ensures FirstDone(db, FactFirst(db, RecordAt(db.rows, i), fact, price, now).value, i, Expected(db, i, fact, price),
                      if db.rows[i].status == Authorized && Counted(db, i, fact) then Captured else db.rows[i].status,
                      FirstDelta(db, i, fact, price))
  {
    if !Counted(db, i, fact) {
      FactLeaves(db, i, fact, price, now);
    } else if db.rows[i].status == Authorized {
      FactCaptures(db, i, fact, price, now);
    } else {
      FactAdjusts(db, i, fact, price, now);
    }
  }

  /** A fact under a query that covers the record: a first transaction and then a release. */
  lemma FactInTwoSteps(
    db: Db, columns: set<Column>, i: nat, t: Tenant, request: string, fact: Fact, price: Option<Price>, now: int)
    requires Inv(db) && Trim(request) != [] && Find(db.rows, t, Trim(request)) == Some(i) && RECORD_COLUMNS <= columns
    requires ReconcileFact(db, columns, t, request, fact, price, now).error.None?
    ensures Keyed(db, i) && FactFirst(db, RecordAt(db.rows, i), fact, price, now).Ok?
    ensures var dbm := FactFirst(db, RecordAt(db.rows, i), fact, price, now).value;
            && Keyed(dbm, i)
            && if dbm.rows[i].status == Released then ReconcileFact(db, columns, t, request, fact, price, now).db == dbm
               else var out := ReleaseRequest(dbm, dbm.rows[i].tenant, dbm.rows[i].requestId, now);
                    out.Ok? && out.value.0 == ReconcileFact(db, columns, t, request, fact, price, now).db
  {
    TrimTrims(request, Blank);
    TrimmedIsFixed(Trim(request), Blank);
    CoveredRowReads(db.rows, i, columns);
    FactFirstDone(db, i, fact, price, now);
    var dbm := FactFirst(db, RecordAt(db.rows, i), fact, price, now).value;
    FoundAgain(db.rows, dbm.rows, t, Trim(request));
    assert SameKey(db.rows[i], dbm.rows[i]);
    CoveredRowReads(dbm.rows, i, columns);
  }

  /**
   * If the query covered the record, every fact that succeeds would close the authorization at the logged
   * price, or at the captured amount without one; but the tenant would have paid that if and only if there
   * is no logged price, or the row was not open after an earlier capture, or was adjustable.
   */
  lemma FactChargesLoggedPriceIff(
    db: Db, columns: set<Column>, i: nat, t: Tenant, request: string, fact: Fact, price: Option<Price>, now: int)
    requires Inv(db) && Trim(request) != [] && Find(db.rows, t, Trim(request)) == Some(i) && RECORD_COLUMNS <= columns
    requires ReconcileFact(db, columns, t, request, fact, price, now).error.None?
    ensures var a, expected := db.rows[i], Expected(db, i, fact, price);
            var db1 := ReconcileFact(db, columns, t, request, fact, price, now).db;
            && i < |db1.rows| && db1.rows[i].status == Released && db1.rows[i].captured == expected
            && (Net(db1.ledger, i) == -expected
                <==> !Counted(db, i, fact) || a.status != Captured || Adjustable(a, expected))
            && (Counted(db, i, fact) && a.status == Captured && a.captured < a.reserved && expected < a.reserved ==>
                  Net(db1.ledger, i) == a.captured - 2 * expected)
  {
    FactInTwoSteps(db, columns, i, t, request, fact, price, now);
    FactFirstDone(db, i, fact, price, now);
    var dbm := FactFirst(db, RecordAt(db.rows, i), fact, price, now).value;
    assert RowOk(db.rows[i]);
    if dbm.rows[i].status != Released {
      ReleaseNet(dbm, i, now);
    }
    NetIsExpected(db.rows[i], Counted(db, i, fact), Expected(db, i, fact, price));
  }

  /** The sums behind it. */
  lemma NetIsExpected(a: Authorization, counted: bool, expected: int)
    requires RowOk(a) && expected >= 0 && (!counted ==> expected == a.captured)
    ensures var delta := if !counted then 0 else if a.status == Authorized then -Max(expected - a.reserved, 0)
                         else a.captured - expected;
            var refund := if a.status == Released then 0 else Max(a.reserved - expected, 0);
            -Hold(a) + delta + refund == -expected
            <==> !counted || a.status != Captured || Adjustable(a, expected)
  {
  }

  /** A row that a request of tenant t holds 100 for. */
  function ExampleRow(t: Tenant, r: string, m: string, captured: int, status: Status, at: int): Authorization {
    Authorization(t, r, m, 100, captured, status, 930, at)
  }

  function ExampleLedger(t: Tenant, r: string): seq<Entry> {
    [Entry(t, Recharge, 1000, 1000, None, None), Entry(t, AuthorizeHold, -100, 900, None, Some(0)),
     Entry(t, Capture, 0, 900, Some(r), Some(0))]
  }

  function HeldExample(t: Tenant, r: string, m: string): Db {
    Db(map[t := 900], [ExampleRow(t, r, m, 0, Authorized, 30)], ExampleLedger(t, r)[..2])
  }

  /** A database after a recharge of 1000, a hold of 100 and a capture of 60 for one request. */
  function CapturedExample(t: Tenant, r: string, m: string): Db {
    Db(map[t := 900], [ExampleRow(t, r, m, 60, Captured, 30)], ExampleLedger(t, r))
  }

  predicate Plain(r: string, m: string) { Trim(r) == r != [] && Trim(m) == m != [] }

  const EXAMPLE_PRICE := Price(0, 0, 1_000_000)

  const EXAMPLE_FACT := Fact(None, Some(0), None, Some(70), None)

  /** At one credit a token, completion tokens cost their number. */
  lemma ChargeOfOutput(u: Usage)
    requires u.input == 0 && u.cached == 0 && u.reasoning == 0 && 0 <= u.output <= 100
    ensures Charge(u, EXAMPLE_PRICE) == u.output
  {
    assert (u.output * 1_000_000 + 500_000) / 1_000_000 == u.output;
  }

  lemma ExampleHolds(t: Tenant, r: string, m: string)
    requires Plain(r, m)
    ensures After(After(EMPTY, OpRecharge(t, 1000)), OpAuthorize(t, r, m, 100, 900, true, 30)) == HeldExample(t, r, m)
  {
    var recharged := After(EMPTY, OpRecharge(t, 1000));
    assert recharged == Db(map[t := 1000], [], ExampleLedger(t, r)[..1]);
    assert map[t := 1000][t := 900] == map[t := 900];
    assert ExampleLedger(t, r)[..1] + [ExampleLedger(t, r)[1]] == ExampleLedger(t, r)[..2];
    var row := ExampleRow(t, r, m, 0, Authorized, 30);
    assert recharged.rows + [row] == [row];
    assert Grant(recharged, row) == Ok(HeldExample(t, r, m));
  }

  /** Capturing an authorized row by its key is that row's capture. */
  lemma CaptureIsRow(db: Db, i: nat, model: string, u: Usage, price: Price, now: int)
    requires Keyed(db, i) && db.rows[i].status == Authorized && Trim(model) != []
    ensures Fst(CaptureRequest(db, db.rows[i].tenant, db.rows[i].requestId, model, u, Some(price), now))
         == CaptureRow(db, i, Charge(u, price), now)
  {
  }

  lemma ExampleRowCaptures(t: Tenant, r: string, m: string)
    ensures CaptureRow(HeldExample(t, r, m), 0, 60, 30) == Ok(CapturedExample(t, r, m))
  {
    var ledger := ExampleLedger(t, r);
    assert map[t := 900][t := 900] == map[t := 900];
    assert ledger[..2] + [ledger[2]] == ledger;
    assert HeldExample(t, r, m).rows[0 := ExampleRow(t, r, m, 60, Captured, 30)] == CapturedExample(t, r, m).rows;
  }

  lemma ExampleCaptures(t: Tenant, r: string, m: string)
    requires Plain(r, m)
    ensures After(HeldExample(t, r, m), OpCapture(t, r, m, Usage(0, 0, 60, 0), Some(EXAMPLE_PRICE), 30))
         == CapturedExample(t, r, m)
  {
    var db, u := HeldExample(t, r, m), Usage(0, 0, 60, 0);
    assert Find(db.rows, t, r) == Some(0);
    ChargeOfOutput(u);
    CaptureIsRow(db, 0, m, u, EXAMPLE_PRICE, 30);
    ExampleRowCaptures(t, r, m);
  }

  /** The example is reached from the empty database by these three operations, so its books are balanced. */
  lemma CapturedExampleReached(t: Tenant, r: string, m: string)
    requires Plain(r, m)
    ensures Run(EMPTY, [OpRecharge(t, 1000), OpAuthorize(t, r, m, 100, 900, true, 30),
                        OpCapture(t, r, m, Usage(0, 0, 60, 0), Some(EXAMPLE_PRICE), 30)]) == CapturedExample(t, r, m)
    ensures Inv(CapturedExample(t, r, m))
  {
    var recharge, hold := OpRecharge(t, 1000), OpAuthorize(t, r, m, 100, 900, true, 30);
    var capture := OpCapture(t, r, m, Usage(0, 0, 60, 0), Some(EXAMPLE_PRICE), 30);
    EmptyIsBalanced();
    StepKeepsBooksIffSafe(EMPTY, recharge);
    StepKeepsBooksIffSafe(After(EMPTY, recharge), hold);
    ExampleHolds(t, r, m);
    StepKeepsBooksIffSafe(HeldExample(t, r, m), capture);
    ExampleCaptures(t, r, m);
    RunOfThree(EMPTY, recharge, hold, capture);
  }

  lemma RunOfThree(db: Db, a: Op, b: Op, c: Op)
    ensures Run(db, [a, b, c]) == After(After(After(db, a), b), c)
  {
    assert [a, b, c][1..] == [b, c] && [b, c][1..] == [c] && [c][1..] == [];
    assert Run(After(After(db, a), b), [c]) == Run(After(After(After(db, a), b), c), []);
  }

  lemma ExampleAdjusts(t: Tenant, r: string, m: string)
    requires Plain(r, m)
    ensures var db := CapturedExample(t, r, m);
            var out := FactFirst(db, RecordAt(db.rows, 0), EXAMPLE_FACT, Some(EXAMPLE_PRICE), 40);
            && out.Ok? && Balance(out.value, t) == 890 && out.value.rows == [ExampleRow(t, r, m, 70, Captured, 40)]
  {
    var db := CapturedExample(t, r, m);
    assert Find(db.rows, t, r) == Some(0);
    ChargeOfOutput(FactUsage(EXAMPLE_FACT).value);
    FactAdjustIsRow(db, 0, EXAMPLE_FACT, Some(EXAMPLE_PRICE), 40);
    ExampleRowAdjusts(t, r, m);
  }

  lemma ExampleRowAdjusts(t: Tenant, r: string, m: string)
    ensures var out := AdjustRow(CapturedExample(t, r, m), 0, 70, 40);
            && out.Ok? && Balance(out.value, t) == 890 && out.value.rows == [ExampleRow(t, r, m, 70, Captured, 40)]
  {
    var row := CapturedExample(t, r, m).rows[0];
    assert [row][0 := ExampleRow(t, r, m, 70, Captured, 40)] == [ExampleRow(t, r, m, 70, Captured, 40)];
  }

  lemma ExampleReleases(db: Db, t: Tenant, r: string, m: string)
    requires Plain(r, m) && Balance(db, t) == 890 && db.rows == [ExampleRow(t, r, m, 70, Captured, 40)]
    ensures FactLast(db, LOCKED_COLUMNS, t, r, 40).error.None?
  {
    assert Find(db.rows, t, r) == Some(0);
    CoveredRowReads(db.rows, 0, LOCKED_COLUMNS);
    assert CloseRow(db, 0, Release, 40).Ok?;
  }

  lemma ExampleFactSucceeds(t: Tenant, r: string, m: string)
    requires Plain(r, m)
    ensures var db := CapturedExample(t, r, m);
            && Find(db.rows, t, Trim(r)) == Some(0)
            && ReconcileFact(db, LOCKED_COLUMNS, t, r, EXAMPLE_FACT, Some(EXAMPLE_PRICE), 40).error.None?
  {
    var db := CapturedExample(t, r, m);
    assert Find(db.rows, t, r) == Some(0);
    CoveredRowReads(db.rows, 0, LOCKED_COLUMNS);
    ExampleAdjusts(t, r, m);
    ExampleReleases(FactFirst(db, RecordAt(db.rows, 0), EXAMPLE_FACT, Some(EXAMPLE_PRICE), 40).value, t, r, m);
  }

  /** The failing family is real: after a hold of 100 and a capture of 60, a logged price of 70 takes 80. */
  lemma FactMischarges(t: Tenant, r: string, m: string)
    requires Plain(r, m)
    ensures var db := CapturedExample(t, r, m);
            var fact := ReconcileFact(db, LOCKED_COLUMNS, t, r, EXAMPLE_FACT, Some(EXAMPLE_PRICE), 40);
            && Inv(db) && fact.error.None? && |fact.db.rows| > 0
            && fact.db.rows[0].captured == 70 && Net(fact.db.ledger, 0) == -80
  {
    CapturedExampleReached(t, r, m);
    ExampleFactSucceeds(t, r, m);
    ChargeOfOutput(FactUsage(EXAMPLE_FACT).value);
    FactChargesLoggedPriceIff(
      CapturedExample(t, r, m), LOCKED_COLUMNS, 0, t, r, EXAMPLE_FACT, Some(EXAMPLE_PRICE), 40);
  }

  // ---------------------------------------------------------------------------------------------
  // The periodic reconcile.
  // ---------------------------------------------------------------------------------------------

  datatype Stats = Stats(scanned: nat, adjusted: nat, released: nat, adjustedTotal: int)

  function Refunds(rows: seq<Authorization>, picked: seq<nat>): int
    requires forall k :: 0 <= k < |picked| ==> picked[k] < |rows|
  {
    if picked == [] then 0
    else Refunds(rows, picked[..|picked| - 1]) + Refund(rows[picked[|picked| - 1]])
  }

  /** How many of the picked rows give something back. */
  function Refunding(rows: seq<Authorization>, picked: seq<nat>): nat
    requires forall k :: 0 <= k < |picked| ==> picked[k] < |rows|
  {
    if picked == [] then 0
    else Refunding(rows, picked[..|picked| - 1]) + if Refund(rows[picked[|picked| - 1]]) > 0 then 1 else 0
  }

  function Closings(picked: seq<nat>, now: int, staleBefore: int): seq<Op> {
    seq(|picked|, k requires 0 <= k < |picked| => OpCloseStale(picked[k], now, staleBefore))
  }

  lemma {:induction false} RunAppend(db: Db, ops: seq<Op>, op: Op)
    ensures Run(db, ops + [op]) == After(Run(db, ops), op)
    decreases |ops|
  {
    if ops == [] {
      assert (ops + [op])[1..] == [];
    } else {
      assert (ops + [op])[1..] == ops[1..] + [op];
      RunAppend(After(db, ops[0]), ops[1..], op);
    }
  }

  /** The loop body of `billing_reconcile_once`. */
  method CloseOne(db: Db, i: nat, now: int, staleBefore: int) returns (out: Db, release: int)
    requires i < |db.rows| && AccountsOk(db.accounts) && Stale(db.rows[i], now, staleBefore)
    ensures After(db, OpCloseStale(i, now, staleBefore)) == out && release == Refund(db.rows[i])
    ensures out.rows == db.rows[i := Closed(db.rows[i], now)]
    ensures AccountsOk(out.accounts)
  {
    var a := db.rows[i];
    release := Max(Saturate(a.reserved - a.captured), 0);
    var accounts, ledger := db.accounts, db.ledger;
    if release > 0 {
      var next := Saturate(Balance(db, a.tenant) + release);
      accounts := accounts[a.tenant := next];
      ledger := ledger + [Entry(a.tenant, Adjust, release, next, None, Some(i))];
    }
    out := Db(accounts, db.rows[i := a.(status := Released, updatedAt := now)], ledger);
  }

  lemma OnePickMore(db: Db, picked: seq<nat>, k: nat, now: int, staleBefore: int)
    requires k < |picked| && forall j :: 0 <= j < |picked| ==> picked[j] < |db.rows|
    ensures picked[..k + 1] == picked[..k] + [picked[k]]
    ensures Run(db, Closings(picked[..k + 1], now, staleBefore))
         == After(Run(db, Closings(picked[..k], now, staleBefore)), OpCloseStale(picked[k], now, staleBefore))
    ensures Refunds(db.rows, picked[..k + 1]) == Refunds(db.rows, picked[..k]) + Refund(db.rows[picked[k]])
    ensures Refunding(db.rows, picked[..k + 1])
         == Refunding(db.rows, picked[..k]) + if Refund(db.rows[picked[k]]) > 0 then 1 else 0
  {
    var op := OpCloseStale(picked[k], now, staleBefore);
    assert picked[..k + 1] == picked[..k] + [picked[k]] && picked[..k + 1][..k] == picked[..k];
    RunAppend(db, Closings(picked[..k], now, staleBefore), op);
    assert Closings(picked[..k + 1], now, staleBefore) == Closings(picked[..k], now, staleBefore) + [op];
  }

  /** The picked rows are released, the others are as they were. */
  ghost predicate OnlyClosed(before: seq<Authorization>, after: seq<Authorization>, picked: seq<nat>, now: int) {
    && |after| == |before|
    && forall i :: 0 <= i < |before| ==> after[i] == if i in picked then Closed(before[i], now) else before[i]
  }

  lemma OneMoreClosed(before: seq<Authorization>, mid: seq<Authorization>, picked: seq<nat>, i: nat, now: int)
    requires OnlyClosed(before, mid, picked, now) && i < |before| && i !in picked
    ensures OnlyClosed(before, mid[i := Closed(mid[i], now)], picked + [i], now)
  {
  }

  /**
   * `billing_reconcile_once` over the rows its query picked.  It never fails, it is the run of the
   * single closings, every picked row ends released and no other row changes.
   */
  method ReconcileOnce(db: Db, picked: seq<nat>, now: int, staleBefore: int) returns (out: Db, stats: Stats)
    requires AccountsOk(db.accounts)
    requires forall k :: 0 <= k < |picked| ==> picked[k] < |db.rows| && Stale(db.rows[picked[k]], now, staleBefore)
    requires forall k, l :: 0 <= k < l < |picked| ==> picked[k] != picked[l]
    ensures out == Run(db, Closings(picked, now, staleBefore))
    ensures OnlyClosed(db.rows, out.rows, picked, now)
    ensures stats.scanned == stats.released == |picked| && stats.adjusted == Refunding(db.rows, picked)
    ensures stats.adjustedTotal == Saturate(Refunds(db.rows, picked))
  {
    out, stats := db, Stats(0, 0, 0, 0);
    for k := 0 to |picked|
      invariant out == Run(db, Closings(picked[..k], now, staleBefore))
      invariant AccountsOk(out.accounts) && OnlyClosed(db.rows, out.rows, picked[..k], now)
      invariant stats.scanned == stats.released == k && stats.adjusted == Refunding(db.rows, picked[..k])
      invariant 0 <= Refunds(db.rows, picked[..k])
      invariant stats.adjustedTotal == Saturate(Refunds(db.rows, picked[..k]))
    {
      var i := picked[k];
      assert i !in picked[..k] && out.rows[i] == db.rows[i];
      OnePickMore(db, picked, k, now, staleBefore);
      var next, release := CloseOne(out, i, now, staleBefore);
      OneMoreClosed(db.rows, out.rows, picked[..k], i, now);
      out := next;
      if release > 0 {
        stats := stats.(adjusted := stats.adjusted + 1, adjustedTotal := Saturate(stats.adjustedTotal + release));
      }
      stats := stats.(scanned := stats.scanned + 1, released := stats.released + 1);
    }
    assert picked[..|picked|] == picked;
  }
}
