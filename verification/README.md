# Verified model of the codex-pool core

This project models the parts of the system where state, loops or arithmetic decide whether it is
correct, and proves what they promise for every input, every run or every reachable state.

- `Billing`, `AuthorizationTable` and `Cost`: tenant credits. Requests place a hold, are captured at
  their token price and are released; a periodic job closes stale authorizations and another replays
  the request log. The books (balances, holds, ledger) are one state machine over SQL transactions.
  `AuthorizationTable` holds the two lookup queries, column by column; `Cost` is the integer pricing
  with 64- and 128-bit saturation written out.
- `Router`, `AccountPool`, `AccountChoice`, `ModelRoutes`, `WrappingSweep`, `SharedSweep` and
  `StickySessions`: the data plane's account router with
  its wrapping round-robin cursor, recency preferences, model routes, cool-downs and
  least-recently-used sticky sessions. The cursor is shared: the ticks that concurrent calls make
  between a call's own are a parameter of the call. How a call is answered is one relation (`Router.Answered`); the class refines it, and the
  lemmas draw from it what single calls and runs of calls promise.
- `Spring`: the damped-spring number animation as a dynamical system over the reals.
- `EffortRouting` and `StableSort`: which of several colliding entries a normaliser keeps when it
  filters, stably sorts and rebuilds an object.
- `NumberFormat`: the compact number format with its unit choice, rounding and carry.
- `Decimal`, `UsernameRange`, `MarkdownTable`: the probe script's range expander and report printer.
- `AccountsPage`: pagination and selection of the accounts page.
- `Notification`: the notification bus and its pending queue.
- `Dashboard`: distributions, trends and rounded shares.

Code that updates state step by step is modelled by classes and loops (`SpringNumber`,
`RoundRobinRouter`, `NotificationBus`, `Accounts`, the script's loops), each proved against a
specification function or relation; the properties are lemmas about those specifications.

## Findings

Four promises turn out not to hold unconditionally. Each is kept as the code has it, with the exact
condition proved.

- Spring options: the hook comes to rest after every run of frames and target changes if and only if,
  per unit of mass, the damping is strictly between 0 and 120, the stiffness is positive, and stiffness
  plus 120 times the damping is below 14400 (`Spring.EveryRunEndsIffDamped`). Outside, a run from the
  mounted hook that never ends is given (`Spring.UndampedRun`). The defaults are inside
  (`Spring.DefaultsAreDamped`, `Spring.DefaultAlwaysEnds`).
- Round robin: a call over n accounts makes n ticks on a cursor that concurrent calls advance too. It
  looks at every account if and only if it looks at none twice (`SharedSweep.CoversIffDistinct`).
  Alone on the cursor, that is if and only if the 64-bit cursor does not wrap during the sweep or n
  divides 2^64 (`SharedSweep.AloneCoversIffAligned`). With m ticks of other calls in between, it is sure
  to if and only if n is 1, m is 0, or n is 2 and m is even (`SharedSweep.AlwaysCoversIffHarmless`). A
  call that misses an account may be refused although that account may serve; one other call in between
  is enough (`Router.CompleteIffCovers`, `Router.AlwaysCompleteIffHarmless`, `Router.OneTickRefuses`).
- Request-log facts: the unlocked lookup's query leaves out the metadata column that its reader asks
  for, so it fails on every existing authorization and a fact never changes anything
  (`AuthorizationTable.UnlockedLookupFails`, `Billing.FactNeverApplies`). The run theorems include
  facts as written.
- Billing adjustment, which a fact would make if its query were complete: replacing a captured amount
  on an authorization that is still open keeps the books balanced if and only if the old and the new
  amount both use up the reservation, or are equal (`Billing.AdjustBalanced`,
  `Billing.FactChargesLoggedPriceIff`). After a hold of 100 and a capture of 60, a logged price of 70
  would make the tenant pay 80 (`Billing.FactMischarges`).

Two smaller facts that the names and comments do not suggest: the rebind counter can grow only
through a manual binding, because a pick always drops an unusable binding before it binds anew
(`Router.RoundRobinRouter.PickForModel`, `Router.RoundRobinRouter.BindSticky`); and a value from
999.995 up to 1000 is displayed as 1000.00 without a unit, because the carry is not applied below
1000 (`NumberFormat.PlainThousand`).

## Model

| member | source | states |
|---|---|---|
| `Billing.StepKeepsBooksIffSafe` | services/control-plane/src/tenant/billing_reconcile.rs:26-929 | from balanced books, one recharge, authorize, capture, release, stale closing or adjustment leaves them balanced if and only if a condition checkable beforehand holds: no 64-bit saturation, and adjustments only where the hold follows the captured amount |
| `Billing.RunConservesCredits` | services/control-plane/src/tenant/billing_reconcile.rs:26-774 | over every run of the service's operations, request-log facts as written included, whose deposits fit in 64 bits, each balance plus the tenant's holds equals exactly what was paid in, and no balance is negative |
| `Billing.ServiceConservesCredits` | services/control-plane/src/tenant/billing_reconcile.rs:26-774 | the same from the empty database: what a tenant ever recharged is on its balance or held |
| `Billing.SafeRunKeepsBooks` | services/control-plane/src/tenant/billing_reconcile.rs:26-929 | every run of safe steps, adjustments included, keeps tables and books |
| `Billing.RunSettlesExactly` | services/control-plane/src/tenant/billing_reconcile.rs:206-774 | over every safe run of the service's operations an authorization's status only advances, its captured amount is fixed once captured, and once released it has taken exactly that amount |
| `Billing.Conservation` | services/control-plane/src/tenant/audit_and_utils.rs:621-704 | a ledger that explains every balance and every row implies balance + holds = deposits |
| `Billing.BoundedDepositsAreSafe` | services/control-plane/src/tenant/audit_and_utils.rs:621-704 | while deposits fit in 64 bits, no operation of the service can saturate |
| `Billing.StepDeposits` | services/control-plane/src/tenant/admin_ops.rs:180-221 | only a recharge changes what a tenant has paid in, by exactly its amount |
| `Billing.StepLedger` | services/control-plane/src/tenant/audit_and_utils.rs:621-704 | an operation appends at most one entry, which names the operation, shows the tenant's new balance, and names an authorization unless it is a recharge |
| `Billing.RunShowsBalances` | services/control-plane/src/tenant/audit_and_utils.rs:621-704 | over every safe run each ledger entry shows the sum of its tenant's movements up to it |
| `Billing.StepAdvancesRows` | services/control-plane/src/tenant/billing_reconcile.rs:26-774 | no operation but an adjustment moves a status backwards, changes a key or reservation, or changes a settled captured amount |
| `Billing.MoveBalanced` | services/control-plane/src/tenant/audit_and_utils.rs:621-704 | a credit delta with a row change balances if and only if the hold shrinks by the delta and the balance does not saturate |
| `Billing.RechargeBalanced` | services/control-plane/src/tenant/admin_ops.rs:180-221 | a positive recharge always succeeds, and balances if and only if it does not saturate |
| `Billing.RechargeSucceedsIff` | services/control-plane/src/tenant/admin_ops.rs:180-221 | a recharge succeeds if and only if it is positive, and pays exactly its amount to that tenant alone unless that saturates |
| `Billing.AuthorizeBalanced` | services/control-plane/src/tenant/billing_reconcile.rs:26-204 | every successful authorization keeps the books and the unique request ids |
| `Billing.AuthorizeGrantsIff` | services/control-plane/src/tenant/billing_reconcile.rs:93-204 | a new request is granted if and only if it is priced and covered; exactly the hold leaves that tenant's balance alone, and the expiry is the requested one clamped to 30 seconds and 6 hours |
| `Billing.AuthorizeSucceedsIff` | services/control-plane/src/tenant/billing_reconcile.rs:30-110 | over all inputs, an authorization succeeds if and only if request and model are not blank, the amount is positive, and the request is open already, or new, priced and covered; it is refused for want of credits exactly when only that is missing |
| `Billing.AuthorizeIsIdempotent` | services/control-plane/src/tenant/billing_reconcile.rs:60-92 | repeating an authorization with any amount changes nothing and repeats the receipt |
| `Billing.AuthorizeReceipt` | services/control-plane/src/tenant/billing_reconcile.rs:82-203 | the receipt is the row and the balance as left by the transaction |
| `Billing.CaptureIsMove` | services/control-plane/src/tenant/billing_reconcile.rs:206-413 | a successful capture is a repeat that changes nothing, or takes exactly the part of the charge beyond the reservation |
| `Billing.CaptureBalanced` | services/control-plane/src/tenant/billing_reconcile.rs:206-413 | every successful capture keeps the books |
| `Billing.CaptureSucceedsIff` | services/control-plane/src/tenant/billing_reconcile.rs:206-413 | a capture succeeds if and only if request and model are not blank, the request is known, and it is captured already, or authorized, priced and covered by balance and hold |
| `Billing.CaptureReceipt` | services/control-plane/src/tenant/billing_reconcile.rs:243-412 | the receipt reports the row, the exact change of balance, and an amount within 1.5 microcredits of the price of the reported usage |
| `Billing.CaptureIsIdempotent` | services/control-plane/src/tenant/billing_reconcile.rs:236-253 | a second capture, whatever usage it reports, charges nothing and repeats the first amount |
| `Billing.NoDuplicateLedgerRequest` | services/control-plane/src/store/postgres/impl_crud/bootstrap_schema.rs:323-397 | a capture never runs into the ledger's unique request index |
| `Billing.CloseBalanced` | services/control-plane/src/tenant/billing_reconcile.rs:415-543 | closing an open row gives back the unused reservation and balances if and only if that does not saturate |
| `Billing.ReleaseSucceedsIff` | services/control-plane/src/tenant/billing_reconcile.rs:415-543 | a release succeeds if and only if the request is known; the row is released with its captured amount, every other row and balance is unchanged, and an open row gives back exactly the unused reservation unless the balance saturates |
| `Billing.ReleaseReceipt` | services/control-plane/src/tenant/billing_reconcile.rs:445-542 | a release reports the row as left and the refund that reached the balance |
| `Billing.ReleaseIsIdempotent` | services/control-plane/src/tenant/billing_reconcile.rs:438-455 | a second release changes nothing and returns the same receipt |
| `Billing.AdjustBalanced` | services/control-plane/src/tenant/billing_reconcile.rs:777-929 | an adjustment balances if and only if it does not saturate and the row is closed or both amounts use up the reservation |
| `Billing.AdjustSucceedsIff` | services/control-plane/src/tenant/billing_reconcile.rs:843-929 | an adjustment succeeds if and only if it changes nothing or the balance covers it |
| `AuthorizationTable.CoveredRowReads` | services/control-plane/src/tenant/audit_and_utils.rs:292-303 | a query that selects every column of the record reads back exactly the table's row |
| `AuthorizationTable.UncoveredRowFails` | services/control-plane/src/tenant/audit_and_utils.rs:337-348 | a row that lacks a column of the record fails to read, at a column that it lacks |
| `AuthorizationTable.LookupFailsIff` | services/control-plane/src/tenant/audit_and_utils.rs:258-349 | a lookup fails if and only if there is such a row and its query leaves out a column of the record, which the error names |
| `AuthorizationTable.LockedLookupFinds` | services/control-plane/src/tenant/audit_and_utils.rs:258-304 | the locked lookup never fails and returns the row with this tenant and request id, if there is one |
| `AuthorizationTable.UnlockedLookupFails` | services/control-plane/src/tenant/audit_and_utils.rs:306-349 | the unlocked lookup fails on every existing row, at the metadata column, and only there |
| `Billing.FactNeverApplies` | services/control-plane/src/tenant/billing_reconcile.rs:545-558 | a request-log fact as written leaves the database as it was, and errs exactly on existing authorizations, at the metadata column |
| `Billing.UncoveredFactNeverApplies` | services/control-plane/src/tenant/billing_reconcile.rs:545-651 | the same of every lookup query that leaves out any column of the record |
| `Billing.FactChargesLoggedPriceIff` | services/control-plane/src/tenant/billing_reconcile.rs:545-651 | if the query were complete, every fact that succeeds, with or without model and counts, closes the row at the logged charge, else at the captured amount; the tenant has paid that if and only if nothing was logged, or the row was not open after a capture, or was adjustable |
| `Billing.FactChargeIsPriced` | services/control-plane/src/tenant/billing_reconcile.rs:574-577 | the logged counts are charged within 1.5 microcredits of their price, a missing cache or reasoning count being none |
| `Billing.CapturedExampleReached` | services/control-plane/src/tenant/billing_reconcile.rs:26-413 | for every tenant, request and model, a recharge of 1000, a hold of 100 and a capture of 60 from the empty database give the example |
| `Billing.FactMischarges` | services/control-plane/src/tenant/billing_reconcile.rs:777-929 | on that database a complete query and a logged price of 70 take 80 |
| `Billing.CloseOne` | services/control-plane/src/tenant/billing_reconcile.rs:711-767 | the body of the reconcile loop refines one closing step and never fails |
| `Billing.ReconcileOnce` | services/control-plane/src/tenant/billing_reconcile.rs:653-774 | the reconcile loop equals the run of single closings; exactly the picked rows end released; the statistics count the rows, the refunded rows and the saturated total |
| `Billing.GrantGoesStale` | services/control-plane/src/tenant/billing_reconcile.rs:671-700 | a granted request is selected by the reconcile query from the end of its lifetime, clamped to 30 seconds and 6 hours, on, and not before |
| `Billing.CaptureGoesStale` | services/control-plane/src/tenant/billing_reconcile.rs:671-700 | a captured one from the horizon's passing its capture on |
| `Billing.ClosedIsNeverStale` | services/control-plane/src/tenant/billing_reconcile.rs:671-700 | a closed one never |
| `AuthorizationTable.Find` | services/control-plane/src/tenant/audit_and_utils.rs:278 | the row of a tenant and request id, found if and only if there is one |
| `Billing.Charge` | services/control-plane/src/tenant/billing_reconcile.rs:940-958 | a charge is never negative and fits in 64 bits |
| `Billing.ChargeIsPriced` | services/control-plane/src/tenant/billing_reconcile.rs:218-223 | for 64-bit prices a charge is within 1.5 microcredits of the uncached prompt, the cached prompt and the larger of completion and reasoning at their prices, negative counts being none; only the maximum may be below that |
| `Cost.ChargeRoundsToNearest` | services/control-plane/src/cost.rs:10-23 | on 64-bit inputs the 128-bit steps never saturate: the charge is the exact product rounded half up, capped at the 64-bit maximum |
| `Cost.ChargeMonotone` | services/control-plane/src/cost.rs:10-23 | more tokens never cost less |
| `Cost.CostWithinOneAndAHalf` | services/control-plane/src/cost.rs:25-48 | an estimate is within 1.5 microcredits of the exact price unless it hits the maximum |
| `Cost.CostMonotone` | services/control-plane/src/cost.rs:25-48 | more prompt or completion tokens never lower an estimate, whatever cached count is reported |
| `Cost.CacheAddsAtMostOne` | services/control-plane/src/cost.rs:25-48 | a cache priced no higher can raise an estimate by at most one microcredit of rounding, whatever cached count is reported |
| `Cost.CacheCanAddOne` | services/control-plane/src/cost.rs:25-48 | that microcredit can occur even at equal prices |
| `SharedSweep.CoversIffDistinct` | services/data-plane/src/router.rs:96-128 | whatever ticks other calls make in between, a sweep looks at every account if and only if it looks at none twice |
| `SharedSweep.CoversIffNoCollision` | services/data-plane/src/router.rs:115-125 | for given ticks of others, without a harmful wrap, that is if and only if no two own ticks are a multiple of n apart |
| `SharedSweep.AlwaysCoversIffHarmless` | services/data-plane/src/router.rs:115-125 | with m ticks of others, however placed, the sweep is sure to look at every account if and only if n is 1, m is 0, or n is 2 and m is even |
| `SharedSweep.OneTickMisses` | services/data-plane/src/router.rs:115-125 | for every n of at least 2, one foreign tick after the first visit makes an aligned sweep miss the second place |
| `SharedSweep.AloneCoversIffAligned` | services/data-plane/src/router.rs:115-125 | with no ticks of others, the sweep looks at every account if and only if it does not wrap or the count divides 2^64 |
| `WrappingSweep.SweepCoversIffAligned` | services/data-plane/src/router.rs:115-125 | n consecutive cursor values reach every place if and only if they do not wrap or n divides 2^64 |
| `WrappingSweep.AlignedCovers` | services/data-plane/src/router.rs:115-125 | n consecutive cursor values of an aligned window reach every place |
| `WrappingSweep.AlignedVisitsDistinct` | services/data-plane/src/router.rs:115-125 | and reach no place twice |
| `WrappingSweep.MisalignedMisses` | services/data-plane/src/router.rs:115-125 | n consecutive cursor values of every misaligned window miss a place |
| `ModelRoutes.RoutePrecedence` | services/data-plane/src/router.rs:308-342 | the first exact match decides before any prefix match, the first prefix match before the default route, and a deciding route without accounts opens the pool |
| `ModelRoutes.NoRouteOpensPool` | services/data-plane/src/router.rs:308-315 | without a plan, or with no model or a blank one, the whole pool is open |
| `ModelRoutes.FlattenJoins` | services/data-plane/src/router.rs:337-340 | the candidates of segments after others come after the others' candidates |
| `ModelRoutes.FlattenOne` | services/data-plane/src/router.rs:337-340 | one segment's candidates are its accounts, in order |
| `ModelRoutes.FlattenEmptyIff` | services/data-plane/src/router.rs:333-341 | a route has no candidates if and only if all its segments are empty |
| `ModelRoutes.PrefixMatches` | services/data-plane/src/router.rs:321-326 | a policy matches every model that one of its prefixes starts |
| `ModelRoutes.PrefixMatchesOnly` | services/data-plane/src/router.rs:321-326 | and no other |
| `AccountPool.Best` | services/data-plane/src/router.rs:522-570 | the highest-ranked id, none exactly when none is ranked |
| `AccountPool.TopIsUnique` | services/data-plane/src/router.rs:522-570 | ids break all ties, so the preference does not depend on the order of the candidates |
| `AccountPool.Preferred` | services/data-plane/src/router.rs:522-570 | the top-ranked of the enabled, healthy, not excluded accounts |
| `AccountPool.TopIsFit` | services/data-plane/src/router.rs:105-121 | the account that a preference names is in the pool and fit |
| `StickySessions.EnforceCapacity` | services/data-plane/src/router.rs:801-812 | evicts only to get below the capacity, no entry more than needed, and always least recently used first |
| `AccountPool.DeletingIsSound` | services/data-plane/src/router.rs:378-403 | deletion leaves exactly the other accounts and exactly the sessions bound to them |
| `AccountPool.UpsertIsSound` | services/data-plane/src/router.rs:344-376 | an upsert adds at most one account, keeps ids unique and leaves no session dangling |
| `AccountPool.UpsertedPlaces` | services/data-plane/src/router.rs:349-356 | every account keeps its place, and the upserted one takes its own |
| `AccountPool.UpsertedEnd` | services/data-plane/src/router.rs:353-355 | a new one goes to the end |
| `AccountPool.OthersJoin` | services/data-plane/src/router.rs:380-384 | deletion keeps the order of the others |
| `AccountPool.RemembersExactly` | services/data-plane/src/router.rs:278-289 | what is kept of remembered facts is exactly those of the accounts that remain |
| `AccountPool.ForgetsExactly` | services/data-plane/src/router.rs:362-402 | what is forgotten is exactly that of one account |
| `Router.RoundRobinRouter.constructor` | services/data-plane/src/router.rs:61-89 | a new router is valid with the given limits raised to at least 1, and nothing bound or counted |
| `Router.RoundRobinRouter.ReplaceAccounts` | services/data-plane/src/router.rs:274-290 | sessions, health, traits and successes are kept exactly for the accounts that remain, and the turn restarts |
| `Router.RoundRobinRouter.UpsertAccount` | services/data-plane/src/router.rs:344-376 | replacement in place or append with a restarted turn; disabling forgets exactly that account's sessions and memory |
| `Router.RoundRobinRouter.DeleteAccount` | services/data-plane/src/router.rs:378-403 | removal is reported exactly when it happens and takes the account's sessions and memory with it |
| `Router.RoundRobinRouter.MarkUnhealthy` | services/data-plane/src/router.rs:405-414 | a positive cool-down makes the account unhealthy exactly until it ends |
| `Router.RoundRobinRouter.RecordSuccess` | services/data-plane/src/router.rs:444-458 | only an enabled account of the pool is remembered |
| `AccountChoice.ChosenServes` | services/data-plane/src/router.rs:96-128 | whoever is chosen without a session is in the pool, on the route, enabled, healthy and not excluded; nobody is chosen only if nobody is, given for an unrouted request that its sweep, with the ticks of other calls in it, covers the pool |
| `AccountChoice.ChosenIsUnique` | services/data-plane/src/router.rs:96-128 | pool, request, cursor and the ticks of others determine the account chosen and the cursor afterwards |
| `AccountChoice.PicksServe` | services/data-plane/src/router.rs:599-608 | the same of a pick that prefers idle accounts, where the second sweep must cover the pool; and an idle account is picked whenever one may serve, given that the first sweep covers it |
| `AccountChoice.PicksAreUnique` | services/data-plane/src/router.rs:599-608 | such a pick is determined as well |
| `Router.AnswerServes` | services/data-plane/src/router.rs:152-168 | main result for one call, with or without session and route: whoever is picked may serve, and nobody is picked only if nobody may, given that the deciding sweep covers the pool despite the ticks of other calls |
| `Router.AnswerIsEligible` | services/data-plane/src/router.rs:96-131 | the same spelled out: the account picked is in the pool, enabled, past any cool-down, not excluded and on the route; a refusal means every account fails one of these |
| `Router.AnswerIsMostRecent` | services/data-plane/src/router.rs:96-112 | without a route, of the accounts that may serve the one that succeeded last is picked, the larger id on a tie; with no success known of them, the one probed fresh before stale, then latest, then with the larger id |
| `Router.AnswerIsNext` | services/data-plane/src/router.rs:114-128 | with nothing known of them, a call alone on the cursor picks the next one in turn that may serve, and leaves the cursor just past it |
| `Router.AnswerIsFirstChoice` | services/data-plane/src/router.rs:616-682 | with a route, the candidate that succeeded last is picked if it may serve, else the one probed best if that may, else the first in the route's order that may |
| `Router.CompleteIffCovers` | services/data-plane/src/router.rs:96-128 | that condition is exact: over all pools of n accounts, unrouted calls are refused only if nobody may serve if and only if the sweep covers |
| `Router.CompleteAloneIffAligned` | services/data-plane/src/router.rs:96-128 | alone on the cursor, if and only if it does not wrap or n divides 2^64 |
| `Router.AlwaysCompleteIffHarmless` | services/data-plane/src/router.rs:96-128 | with m ticks of other calls, however placed, if and only if n is 1, m is 0, or n is 2 and m is even |
| `Router.OneTickRefuses` | services/data-plane/src/router.rs:96-128 | for every n of at least 2: one concurrent call takes the only fit account with a single tick, and the first call passes that account over and is refused |
| `Router.AnswerIsUnique` | services/data-plane/src/router.rs:152-168 | what the router knows and the ticks of others determine the account and the cursor of every answer |
| `Router.AnswerPrefersIdle` | services/data-plane/src/router.rs:702-742 | a session that asks for an idle account and has no usable binding gets one whenever one may serve, given that its first sweep covers the pool |
| `Router.AnswerAvoidsOthers` | services/data-plane/src/router.rs:684-742 | if any account may serve to which no other live session is bound, and the first sweep covers the pool, a session that asks for it gets such an account |
| `Router.AnswerIsFirstIdle` | services/data-plane/src/router.rs:684-700 | with a route, such a session gets the first candidate in order that may serve and is idle, whatever succeeded or was probed last |
| `Router.AnswerIsNextIdle` | services/data-plane/src/router.rs:702-729 | without one, and alone on the cursor, it gets the next in turn that may serve and is idle |
| `Router.AnswerBinds` | services/data-plane/src/router.rs:186-220 | afterwards the session is bound to exactly the account it got, or to none |
| `Router.AnswerRenews` | services/data-plane/src/router.rs:744-777 | a session that got an account is bound to it as of now: used now, and to expire a lifetime later; one that got none has no binding |
| `Router.HitsIff` | services/data-plane/src/router.rs:585-596 | a call keeps its session's binding if and only if that is alive and its account may serve |
| `Router.KeyIsTrimmed` | services/data-plane/src/router.rs:831-837 | a session key counts without the blanks around it, and a blank one is none |
| `Router.AnswerKeepsOthers` | services/data-plane/src/router.rs:762-812 | another session's binding is never changed; it goes if it expired, and else only for want of room |
| `Router.AnswerEvictsAtMostOne` | services/data-plane/src/router.rs:762-812 | one call evicts at most one live session of another key |
| `Router.AnswerIsSound` | services/data-plane/src/router.rs:572-614 | the capacity holds and every binding names an account of the pool after every call |
| `Router.SessionKeepsItsAccount` | services/data-plane/src/router.rs:744-777 | over every run of calls: with no more sessions than there is room for, a session that asks again in time, and whose account may serve it, gets that account every time |
| `Router.BindingsAreDated` | services/data-plane/src/router.rs:744-777 | over every run of calls, every binding holds the account, the time and the expiry of its session's last call |
| `Router.EvictedWasUsedLeastRecently` | services/data-plane/src/router.rs:801-812 | over every run of calls, when a live session is evicted its last call was no later than that of any session that stays |
| `Router.EveryoneGetsATurn` | services/data-plane/src/router.rs:115-125 | over every run of n plain calls on n fit accounts of which nothing is known, each account is picked exactly once, given that the run starts aligned and is alone on the cursor |
| `Router.RoundRobinRouter.Sweep` | services/data-plane/src/router.rs:115-128 | the first fit account among those the own ticks look at, and the cursor just past it; none only if none looked at is fit |
| `Router.RoundRobinRouter.PickExcluding` | services/data-plane/src/router.rs:96-128 | latest success among the fit, else freshest probe among the fit, else the next fit one in turn |
| `Router.RoundRobinRouter.FirstUsable` | services/data-plane/src/router.rs:650-658 | the first usable candidate in order, none exactly when none is usable |
| `Router.RoundRobinRouter.PickCandidate` | services/data-plane/src/router.rs:616-682 | latest success of the candidates if usable, else best probe if usable, else the first usable in their order |
| `Router.RoundRobinRouter.PickAvoiding` | services/data-plane/src/router.rs:684-729 | the next in turn, or the first candidate, among the accounts that no other live session uses |
| `Router.RoundRobinRouter.GetSticky` | services/data-plane/src/router.rs:744-754 | the live binding, whose life it extends, after dropping exactly the expired ones |
| `Router.RoundRobinRouter.InsertSticky` | services/data-plane/src/router.rs:762-777 | least-recently-used insertion within the capacity that evicts only when full and no more than needed; a rebind is reported only for a live binding to another account |
| `StickySessions.InsertEvictsAtMostOne` | services/data-plane/src/router.rs:762-812 | an insertion evicts at most one session |
| `Router.RoundRobinRouter.BindSticky` | services/data-plane/src/router.rs:460-472 | refused exactly for blank keys and accounts that cannot serve; counts a rebind exactly when the session moved, unless eviction took it first |
| `Router.RoundRobinRouter.KeepBinding` | services/data-plane/src/router.rs:585-596 | a binding is kept if and only if it is live, on the route, not excluded, enabled and healthy; otherwise it is dropped |
| `Router.RoundRobinRouter.Choose` | services/data-plane/src/router.rs:599-608 | an idle account in turn if asked for and found, else the choice made without sessions, from where the cursor then is |
| `Router.RoundRobinRouter.AnswerSession` | services/data-plane/src/router.rs:572-614 | refines the answer to a session: a usable binding is kept and extended, else someone is picked and bound; never counts a rebind |
| `Router.RoundRobinRouter.PickForSession` | services/data-plane/src/router.rs:186-220 | the same with counting: hits and misses add up to session requests, and a hit is counted exactly when the binding was usable |
| `Router.RoundRobinRouter.PickForModel` | services/data-plane/src/router.rs:152-168 | the public call refines `Answered` on the model's route, whatever ticks other calls make: which account is picked, the cursor, every session afterwards and the counters |
| `Spring.EveryRunEndsIffDamped` | frontend/src/lib/use-spring-number.ts:8-71 | mounted with any target and driven by any frames and target changes, the hook comes to rest if left alone, if and only if its options are damped |
| `Spring.UndampedRun` | frontend/src/lib/use-spring-number.ts:26-66 | for all other options, a first target, or a first frame and a second target, from which the mounted hook never comes to rest |
| `Spring.EveryAnimationEndsIffDamped` | frontend/src/lib/use-spring-number.ts:43-66 | every animation ends, from every position, velocity and target, reachable or not, if and only if the options are damped |
| `Spring.Settles` | frontend/src/lib/use-spring-number.ts:43-66 | with damped options some frame ends the animation on its target |
| `Spring.SettlesOnBudget` | frontend/src/lib/use-spring-number.ts:43-66 | the number of frames is bounded by the starting potential |
| `Spring.NeverArrives` | frontend/src/lib/use-spring-number.ts:43-66 | outside the damped region an explicit family of starts never ends |
| `Spring.FrameIsPush` | frontend/src/lib/use-spring-number.ts:44-49 | a frame is a linear map of offset and velocity |
| `Spring.EnergyScales` | frontend/src/lib/use-spring-number.ts:44-49 | every frame multiplies a quadratic energy by exactly 1 - damping/(60 mass) |
| `Spring.PotentialDrops` | frontend/src/lib/use-spring-number.ts:44-49 | every frame lowers a potential by exactly a square times 1 - d |
| `Spring.TwoFramesDrop` | frontend/src/lib/use-spring-number.ts:44-53 | two frames that do not arrive lower the potential by a fixed amount |
| `Spring.DefaultDecay` | frontend/src/lib/use-spring-number.ts:43-66 | with the defaults a frame arrives or multiplies the energy by exactly 7/10 |
| `Spring.DefaultEnergyDominates` | frontend/src/lib/use-spring-number.ts:44-53 | the default energy bounds both the offset and the velocity |
| `Spring.DefaultEndsBy` | frontend/src/lib/use-spring-number.ts:43-66 | the animation has ended by frame n once 0.7^n of the starting energy is small |
| `Spring.DecayReaches` | frontend/src/lib/use-spring-number.ts:43-66 | such an n exists for every starting energy |
| `Spring.DefaultAlwaysEnds` | frontend/src/lib/use-spring-number.ts:43-66 | with the default options every animation ends, from every position, velocity and target |
| `Spring.DefaultsAreDamped` | frontend/src/lib/use-spring-number.ts:19 | the default options lie in the damped region |
| `Spring.ExcursionBounded` | frontend/src/lib/use-spring-number.ts:44-49 | from rest, the squared offset never exceeds 360/17 of the starting one, at any frame |
| `Spring.DisplayTracksPosition` | frontend/src/lib/use-spring-number.ts:55-63 | while moving the display is the whole number nearest to the position, the larger on a tie; at rest it is the target |
| `Spring.EndsExactlyWhenClose` | frontend/src/lib/use-spring-number.ts:51-60 | a frame ends the animation exactly when it comes within a half of the target and of standing still |
| `Spring.RunKeepsTarget` | frontend/src/lib/use-spring-number.ts:28-71 | over every run of frames and target changes, a motion without a requested frame rests on the last target |
| `Spring.NewTargetKeepsMotion` | frontend/src/lib/use-spring-number.ts:40-66 | a new target keeps position, velocity and display and sets the number moving |
| `Spring.RunEndsOnLastTarget` | frontend/src/lib/use-spring-number.ts:28-71 | after any run, once the target stays, display and position end on the last target with no velocity |
| `Spring.SpringNumber.constructor` | frontend/src/lib/use-spring-number.ts:21-38 | starts at 0 and animating, or at rest on the target with reduced motion |
| `Spring.SpringNumber.SetTarget` | frontend/src/lib/use-spring-number.ts:32-66 | keeps position and velocity and requests a frame, or jumps with reduced motion |
| `Spring.SpringNumber.Step` | frontend/src/lib/use-spring-number.ts:43-64 | the frame refines the mathematical step |
| `Spring.SpringNumber.Animate` | frontend/src/lib/use-spring-number.ts:43-66 | the chain of frames terminates at rest on the target |
| `Spring.SpringNumber.Shown` | frontend/src/lib/use-spring-number.ts:73 | at rest the shown number is the target |
| `EffortRouting.LastEntryWins` | frontend/src/api/modelRouting.ts:181-191 | under any stable rearrangement that ties equal keys, the result holds at each non-empty key the target of the last original entry with that normalised key, and no other key |
| `EffortRouting.NormalizerLastEntryWins` | frontend/src/api/modelRouting.ts:181-191 | the same for the normaliser, under every total collation |
| `EffortRouting.SettingsLastEntryWins` | frontend/src/api/modelRouting.ts:199-208 | the whole normaliser, family by family: last entries win, the default target is normalised, a missing family is empty, and only the text omit asks for omission |
| `EffortRouting.NormalTextOf` | frontend/src/api/modelRouting.ts:172-186 | a key or target is normalised to its core without the blanks around it, in small letters; a blank or a non-text target to null |
| `EffortRouting.FromEntriesByKey` | frontend/src/api/modelRouting.ts:181-191 | an object built from entries holds each key's last entry |
| `EffortRouting.StableKeepsKey` | frontend/src/api/modelRouting.ts:190 | stable sorting keeps the order of each key's entries |
| `EffortRouting.EffortIsNormal` | frontend/src/api/modelRouting.ts:172-176 | a normalised effort is null or non-empty, trimmed and lower-case |
| `EffortRouting.FamilyIsNormal` | frontend/src/api/modelRouting.ts:178-197 | every key and target of a normalised family is normal |
| `EffortRouting.SettingsAreNormal` | frontend/src/api/modelRouting.ts:172-208 | the same for all three families |
| `EffortRouting.NormalFamilyIsFixed` | frontend/src/api/modelRouting.ts:178-197 | a normal family, listed in any order, normalises to itself |
| `EffortRouting.NormalizationIsIdempotent` | frontend/src/api/modelRouting.ts:172-208 | normalised settings read back in any entry order normalise to themselves |
| `StableSort.SortIsStable` | frontend/src/lib/dashboard-metrics.ts:78-79 | the reference sort orders, keeps every element and keeps ties in order (section 23.1.3.30 of ECMA-262) |
| `Text.TrimOf` | frontend/src/api/modelRouting.ts:173-174 | of blanks, a core without blanks at its ends, and blanks, trimming leaves the core |
| `Text.TrimSplits` | frontend/src/api/modelRouting.ts:173-174 | every text is such a sum |
| `Text.LowerOf` | frontend/src/api/modelRouting.ts:174 | a capital letter becomes the small letter at its place in the alphabet, and nothing else changes |
| `NumberFormat.CompactIsMonotone` | frontend/src/lib/dashboard-number-format.ts:24-46 | a larger value never shows as a smaller quantity, across units, the carry and signs |
| `NumberFormat.CompactIsFaithful` | frontend/src/lib/dashboard-number-format.ts:32-45 | from 1000 on, one carry suffices: the mantissa is at least 1.00, below 1000.00 unless the unit is T, and the quantity is within 0.005 units of the value |
| `NumberFormat.UnitsAgreeUnlessCarried` | frontend/src/lib/compact-number.ts:19-33 | the logarithmic unit equals the threshold search's unit, except one higher exactly where rounding reaches 1000 below T |
| `NumberFormat.CompactIsOdd` | frontend/src/lib/dashboard-number-format.ts:24-46 | a sign change changes the sign and nothing else |
| `NumberFormat.CarryShowsOne` | frontend/src/lib/dashboard-number-format.ts:39-43 | a carried value shows as 1.00 of the next unit and is within half a hundredth below it |
| `NumberFormat.PlainThousand` | frontend/src/lib/dashboard-number-format.ts:28-30 | below 1000 there is no unit, the error is at most 0.005, and 1000.00 shows exactly from 999.995 on |
| `NumberFormat.StartUnitRange` | frontend/src/lib/dashboard-number-format.ts:32-35 | the logarithm picks the unit whose power of 1000 lies just below the value |
| `NumberFormat.FormatDashboardCompact` | frontend/src/lib/dashboard-number-format.ts:24-46 | the reassigning formatter computes the format the properties are about, with 0 for non-finite values |
| `Decimal.PaddedParses` | scripts/proxy_ipv6_probe.py:45-48 | zero-padded printing yields exactly width digits that parse back |
| `Decimal.LexIsNumeric` | scripts/proxy_ipv6_probe.py:45-48 | on digit strings of one length, text order is number order |
| `UsernameRange.SharedPrefixLength` | scripts/proxy_ipv6_probe.py:52-58 | the length of the longest common prefix, maximality included |
| `UsernameRange.EqualLengthRangeIsExact` | scripts/proxy_ipv6_probe.py:31-48 | the range is exactly the increasing, duplicate-free list of strings with the common prefix and digits between the ends in text order, ends included |
| `UsernameRange.EndsListedIffNotShorter` | scripts/proxy_ipv6_probe.py:45-48 | for any lengths, each end is listed if and only if it is not the shorter one |
| `UsernameRange.NamesAreExact` | scripts/proxy_ipv6_probe.py:45-48 | the names are exactly the padded numerals in the range, each once, in order |
| `UsernameRange.SpecOfRange` | scripts/proxy_ipv6_probe.py:31-43 | a spec expands if and only if its ends share a prefix, have numeric suffixes and are in order |
| `UsernameRange.FailsOnceFailed` | scripts/proxy_ipv6_probe.py:33-43 | once a spec has failed, later ones change nothing |
| `UsernameRange.FirstFailureDecides` | scripts/proxy_ipv6_probe.py:33-43 | the first spec to fail decides the error of the whole expansion |
| `UsernameRange.ExpansionsAreJoined` | scripts/proxy_ipv6_probe.py:22-49 | if every spec expands, the result is their expansions one after the other |
| `UsernameRange.PlainSpec` | scripts/proxy_ipv6_probe.py:24-29 | a spec without a hyphen stands for itself without the blanks around it, and a blank one for nothing |
| `UsernameRange.RangeErrors` | scripts/proxy_ipv6_probe.py:33-43 | a bad range is reported with its spec for its first fault: prefix, digits, order |
| `UsernameRange.AppendNames` | scripts/proxy_ipv6_probe.py:47-48 | the inner loop appends exactly the names of the range |
| `UsernameRange.AppendRange` | scripts/proxy_ipv6_probe.py:31-48 | a range between two ends appends its names, or fails with the first check it misses |
| `UsernameRange.AppendSpec` | scripts/proxy_ipv6_probe.py:24-48 | one spec appends what it stands for, or fails with its error |
| `UsernameRange.ExpandUsernameSpecs` | scripts/proxy_ipv6_probe.py:21-49 | the loop computes the expansion of all specs, or the first error |
| `MarkdownTable.TableReadsBack` | scripts/proxy_ipv6_probe.py:61-75 | the table has 2 + n lines, and reading it at bare pipes recovers every field up to newlines, trimming and the dash |
| `MarkdownTable.TableShows` | scripts/proxy_ipv6_probe.py:67-74 | each row reads as username, ok or failed, value and error, with a dash for what is missing or empty |
| `MarkdownTable.TableHeading` | scripts/proxy_ipv6_probe.py:62-65 | the first two lines read as the four headings and the rule |
| `MarkdownTable.ShownOf` | scripts/proxy_ipv6_probe.py:105-106 | of a field every newline shows as a space and the blanks around it do not show |
| `MarkdownTable.RowReadsBack` | scripts/proxy_ipv6_probe.py:67-74 | every row reads back as its fields, whatever pipes and backslashes they hold |
| `MarkdownTable.RowSplits` | scripts/proxy_ipv6_probe.py:68-73 | splitting a row at pipes without a backslash yields exactly its cells |
| `MarkdownTable.EscapeCellIsEscape` | scripts/proxy_ipv6_probe.py:105-106 | escaping commutes with newline replacement and trimming |
| `MarkdownTable.UnescapeUndoes` | scripts/proxy_ipv6_probe.py:105-106 | removing the backslash before each pipe undoes the escaping |
| `MarkdownTable.LinesSplit` | scripts/proxy_ipv6_probe.py:75 | splitting the joined text gives back the lines |
| `MarkdownTable.RenderMarkdownTable` | scripts/proxy_ipv6_probe.py:61-75 | the printing loop produces the lines that the reader undoes |
| `AccountsPage.PagesPartition` | frontend/src/pages/Accounts.tsx:784-789 | concatenating all pages gives back the list |
| `AccountsPage.TotalPagesRange` | frontend/src/pages/Accounts.tsx:784 | the last page reaches the end and is needed |
| `AccountsPage.VisibleRangeIsExact` | frontend/src/pages/Accounts.tsx:784-793 | for every page and size the resolved page exists, is non-empty whenever the list is, and the shown range is exactly the slice |
| `AccountsPage.ResolvedPageIs` | frontend/src/pages/Accounts.tsx:785 | the page asked for is shown if it exists, else the last one |
| `AccountsPage.RunStaysSettled` | frontend/src/pages/Accounts.tsx:796-821 | over every run the selection stays within the filtered list |
| `AccountsPage.RestoreIsSafeIffSettled` | frontend/src/pages/Accounts.tsx:811-821 | an enabled batch restore sends only inventory records if and only if the selection is settled |
| `AccountsPage.BatchRestoreEnabledIff` | frontend/src/pages/Accounts.tsx:811-813 | the button is enabled if and only if something shown is selected and all of that belongs to the inventory |
| `AccountsPage.ActionsOf` | frontend/src/pages/Accounts.tsx:604-613 | deleting and probing are open to every record, restoring only to those of the inventory |
| `AccountsPage.RunRestoresOnlyInventory` | frontend/src/pages/Accounts.tsx:1424-1428 | over every run an enabled batch restore sends only inventory records |
| `AccountsPage.PagesToggleLikeFiltered` | frontend/src/pages/Accounts.tsx:1070-1096 | toggling every page in turn selects exactly what toggling all filtered results does |
| `AccountsPage.SelectedAfter` | frontend/src/pages/Accounts.tsx:1070-1096 | after a toggle exactly its records are selected or not as it says and all others are as before; a new list keeps exactly the selected ids that it holds |
| `AccountsPage.ShownAfter` | frontend/src/pages/Accounts.tsx:1370-1376 | only a new list changes the list, only the page size the size, and only paging or a reset the page |
| `AccountsPage.PageSweepSelects` | frontend/src/pages/Accounts.tsx:1070-1096 | toggling every page on leaves every filtered record selected, toggling every page off leaves none, and other ids are as before |
| `AccountsPage.ToggleEach` | frontend/src/pages/Accounts.tsx:1073-1079 | the loop adds or removes exactly the listed ids |
| `AccountsPage.Accounts.constructor` | frontend/src/pages/Accounts.tsx:658-662 | 20 rows, page 1, nothing selected |
| `AccountsPage.Accounts.TogglePageSelection` | frontend/src/pages/Accounts.tsx:1070-1082 | refines the page toggle |
| `AccountsPage.Accounts.ToggleFilteredSelection` | frontend/src/pages/Accounts.tsx:1084-1096 | refines the toggle of all filtered results |
| `AccountsPage.Accounts.ShowRecords` | frontend/src/pages/Accounts.tsx:814-821 | after a new list the cleanup settles the selection, also when it compares sizes only |
| `AccountsPage.Accounts.ChangeRowsPerPage` | frontend/src/pages/Accounts.tsx:1370-1376 | changes the page size and nothing else |
| `Notification.RunLosesNothing` | frontend/src/lib/notification.ts:12-39 | over every run: a waiting queue means no listeners; the offered payloads are those delivered in first-delivery order followed by the queue; each listener gets payloads in order, none twice; a queued one goes to exactly one subscriber |
| `Notification.ListensIff` | frontend/src/lib/notification.ts:28-38 | over every run, a listener listens if and only if its last subscription or unsubscription is a subscription |
| `Notification.ListenersByAge` | frontend/src/lib/notification.ts:12-29 | over every run, the listeners stand in the order in which they began to listen |
| `Notification.NotifyCallsEachListener` | frontend/src/lib/notification.ts:25 | after every run, a titled notification that finds listeners makes exactly one call with each of them, in that order, and no other |
| `Notification.SubscriberGetsTheQueue` | frontend/src/lib/notification.ts:28-34 | after every run, a subscriber listens and is called at once, in order, with all that waits, and nobody else is called |
| `Notification.RunInv` | frontend/src/lib/notification.ts:12-39 | every reachable bus satisfies the invariant |
| `Notification.NotifyKeepsInv` | frontend/src/lib/notification.ts:15-26 | a notification keeps the invariant |
| `Notification.SubscribeKeepsInv` | frontend/src/lib/notification.ts:28-34 | a subscription, with its drain, keeps the invariant |
| `Notification.UnsubscribeKeepsInv` | frontend/src/lib/notification.ts:36-38 | an unsubscription keeps the invariant |
| `Notification.NotificationBus.constructor` | frontend/src/lib/notification.ts:12-13 | starts empty |
| `Notification.NotificationBus.Notify` | frontend/src/lib/notification.ts:15-26 | refines the notify step: ignored without a title, queued without listeners, else one call per listener in order |
| `Notification.NotificationBus.Subscribe` | frontend/src/lib/notification.ts:28-34 | refines the subscribe step: the whole queue goes to the new listener, in order |
| `Notification.NotificationBus.Unsubscribe` | frontend/src/lib/notification.ts:36-38 | removes that listener and nothing else |
| `Dashboard.DistributionConserves` | frontend/src/lib/dashboard-metrics.ts:92-132 | for every mode and every topN, negative included, the totals of requests, of tokens and of values are each conserved |
| `Dashboard.TopItemsKeepTheirPlaces` | frontend/src/lib/dashboard-metrics.ts:104-109 | the items before the cut appear unchanged and in order |
| `Dashboard.DistributionShape` | frontend/src/lib/dashboard-metrics.ts:92-132 | a topN of at least 0 keeps the first topN items, a negative one all but that many of the last, each with its own counts and the mode's value, and one point named other stands for the rest |
| `Dashboard.SummaryNamesTheFirst` | frontend/src/lib/dashboard-chart-a11y.ts:78-99 | the accessible summary counts the points and names the first with its value |
| `Dashboard.SummaryTotalIsComplete` | frontend/src/lib/dashboard-chart-a11y.ts:78-99 | the accessible total is the total of all original items |
| `Dashboard.TrendSummarySpans` | frontend/src/lib/dashboard-chart-a11y.ts:47-76 | for any unsorted trends the summary spans exactly the earliest and latest hour and counts every row |
| `Dashboard.RowsShowSelection` | frontend/src/lib/dashboard-chart-a11y.ts:41-60 | every accessible row shows exactly the selected components of its trend with their values, in the fixed order |
| `Dashboard.SparklineIsPermutation` | frontend/src/lib/dashboard-metrics.ts:134-141 | a sparkline is a permutation of the field's values, in the order of the hours, those of one hour in their old order |
| `Dashboard.SharesNearHundred` | frontend/src/pages/Dashboard.tsx:520-534 | each rounded share is in 0..100 and within half a percent of its exact share, and n shares miss 100 by at most n/2 |
| `Dashboard.NothingHasNoShare` | frontend/src/pages/Dashboard.tsx:529-531 | without anything counted every share is 0 |
| `Dashboard.FourOrFiveSharesMissByTwo` | frontend/src/pages/Dashboard.tsx:569-570 | for up to five classes the shares miss 100 by at most 2 |

## Left out

- IEEE rounding, non-ASCII text, locale digit grouping and Unicode case: arithmetic is exact and text is ASCII.
- A spring mass of 0, which makes the source divide by zero and never arrive; options are fixed during a run.
- Billing prices: rules, long-context bands, sessions and key groups are a parameter (the resolved price, or none).
- Billing's daily check-in (the same positive credit as a recharge), the tenant foreign key, and the contents of API key and metadata columns; an authorization's id is its position in the table.
- Billing's clock and row locking: each transaction is atomic, the rows that the reconcile query selects are a parameter, and other transactions do not run between the three of one request-log fact.
- Billing.RunConservesCredits: leaves out the bare adjustment, which is not an operation of the service but a transaction inside a fact that its failing lookup never reaches; `Billing.StepKeepsBooksIffSafe` gives its exact condition and `Billing.SafeRunKeepsBooks` covers runs with it.
- Router concurrency beyond the shared cursor: apart from the ticks of other calls, each public call is one step at one instant that sees one state of accounts, health and sessions; expired cool-downs are ignored rather than removed lazily, and statistics do not overflow.
- Router account ids are naturals and unique in the pool; replacing the plan or the traits, clearing cool-downs, unbinding and diagnostics assign or read one field and are not modelled.
- Router.RoundRobinRouter.InsertSticky: when the map is full, which of several equally old sessions is evicted is left open, as hash map order leaves it.
- Notification listeners that call back into the bus, and exceptions thrown by listeners.
- Accounts page filters and sorting: a new list is arbitrary; between a list change and its cleanup the page may be unsettled, which `AccountsPage.RestoreIsSafeIffSettled` characterises.
- The CSV report, network probing and argument parsing of the script.
- The store, OAuth, import jobs, request translation, usage collection, HTTP handlers and React rendering.
