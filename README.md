# Storefront incentive engine in Dafny

A model of the incentive engine of a small storefront that sells phones: the
cashback ledger, the referral reader with its free-iPhone eligibility gate, and
order creation with stock reservation and cashback accrual on delivery.

The model has four modules, one file each:

- `Db` (`db.dfy`) holds the records of the store's tables: users, products,
  orders, order items, time-scoped cashback rates and cashback entries. It also
  holds the class `Store`, whose fields are those tables. Each transaction of
  the source is one method that reassigns the fields it writes, and its
  `modifies` clause names exactly those fields.
- `Cashback` (`cashback.dfy`) covers rate selection, cent rounding, the creation
  of PENDING entries with a 14-day hold, and the sweep that moves matured
  entries to AVAILABLE.
- `Referral` (`referral.dfy`) covers referral links, code resolution,
  statistics, the qualified-referral count and roster, and the eligibility
  gate. It also has the candidate list, which is built in a loop and then
  sorted.
- `Orders` (`orders.dfy`) covers checkout (`CreateOrder`), the zero-total bonus
  order (`CreateFreeiPhoneOrder`) and per-line cashback accrual
  (`AccrueCashbackOnDelivery`).

The model uses these units:

- Time is an integer number of milliseconds. The current instant is a
  parameter `now`.
- Money is an integer number of cents.
- Percentages are integers in hundredths of a percent, so 500 is 5%.
- Ids are naturals. The store's generator of fresh order ids is the field
  `nextOrderId`.

Two points of the code are easy to misread, and the model follows the code:

- A product rate applies while `validFrom <= now <= validTo`. The upper end is
  inclusive, as in the query at `src/lib/cashback.ts:18`.
- `firstPurchaseDeliveredAt` in the qualified roster is the first element of a
  list ordered by delivery time descending. It is therefore the LATEST
  qualifying delivery, not the first one, and the model states it as the
  maximum.

The accrual guard looks only for an OWN_PURCHASE entry. Suppose a product rate
gives 0% own and a positive referral percentage. Then accrual writes only a
REFERRAL_PURCHASE entry, the guard stays unset, and a second delivery event
writes that referral entry again. `Orders.ReferralOnlyRateBypassesGuard`
exhibits this. `Orders.DefaultRatesAccrualIsGuarded` proves that it cannot
happen under the default rates. The model keeps the source's guard as written.

## Model

| member | source | states |
|---|---|---|
| `Cashback.LatestApplicableRate` | src/lib/cashback.ts:14-21 | None exactly when no rate for the product has `validFrom <= now` and `validTo` absent or `>= now`. Otherwise it is an applicable rate of the table whose `validFrom` is the greatest among applicable rates. |
| `Cashback.CashbackRates` | src/lib/cashback.ts:13-27 | With no applicable rate, the result is the defaults of 5% own and 3% referral. Otherwise it is the two percentages of an applicable rate with the latest `validFrom`. |
| `Cashback.CalculateCashback` | src/lib/cashback.ts:29-31 | The result is the whole number of cents nearest to amount * percent, with halves rounded up. It is bracketed as `2x - 10000 < 20000 r <= 2x + 10000`. |
| `Cashback.CashbackOfZero` | src/lib/cashback.ts:29-31 | The cashback is 0 when the amount or the percentage is 0. |
| `Cashback.CashbackExact` | src/lib/cashback.ts:29-31 | No rounding happens when amount * percent is a whole number of cents. |
| `Cashback.CashbackMonotoneInPercent` | src/lib/cashback.ts:29-31 | For a non-negative amount, a larger percentage never gives less cashback. |
| `Cashback.CashbackNonNegative` | src/lib/cashback.ts:29-31 | A non-negative amount and percentage give non-negative cashback. |
| `Cashback.CreateCashbackEntry` | src/lib/cashback.ts:36-58 | Appends exactly one entry to the ledger and changes nothing else. The entry is PENDING, has `availableAt = deliveredAt + 14 days`, and copies user, amount, type, order and referral unchanged. |
| `Cashback.HoldPeriod` | src/lib/cashback.ts:44-45 | A new entry stays PENDING under a sweep at any instant before delivery plus 14 * 86 400 000 ms. It becomes AVAILABLE from that instant on. |
| `Cashback.ProcessAvailableCashback` | src/lib/cashback.ts:60-66 | The loop leaves the ledger equal to the sweep of the old ledger at `now`. |
| `Cashback.Sweep` | src/lib/cashback.ts:62-65 | The sweep keeps one entry per entry. What it changes is stated by `SweepChangesExactlyMatured`. |
| `Cashback.SweepChangesExactlyMatured` | src/lib/cashback.ts:62-65 | The sweep changes an entry exactly when it was PENDING with `availableAt <= now`. The only change is its status, which becomes AVAILABLE. |
| `Cashback.SweepNeverMovesBackward` | src/lib/cashback.ts:60-66 | Statuses only move forward: AVAILABLE and PAID_OUT entries are never touched. PENDING entries whose hold is still running stay PENDING. |
| `Cashback.SweepIdempotent` | src/lib/cashback.ts:62-65 | Sweeping twice at the same instant gives the same ledger as sweeping once. |
| `Cashback.SweepLaterSubsumesEarlier` | src/lib/cashback.ts:60-66 | A sweep at t1 followed by one at a later t2 equals the single sweep at t2. So the lazy, on-read sweep loses nothing. |
| `Cashback.GetMinWithdrawal` | src/lib/cashback.ts:68-70 | The minimum withdrawal is 10 units, which is 1000 cents. |
| `Referral.GetReferralUrl` | src/lib/referral.ts:11-13 | The link is the base URL, then `/ref/`, then the code, with exactly that length. |
| `Referral.ReferralUrlDeterminesCode` | src/lib/referral.ts:11-13 | Under one base URL, equal links have equal codes. |
| `Referral.ResolveReferral` | src/lib/referral.ts:42-48 | None exactly when no user has the code. Otherwise it is the id of a user holding the code. |
| `Referral.ResolveReferralFindsOwner` | src/lib/referral.ts:42-48 | When codes are unique, a user's code resolves to that user's id. |
| `Referral.Referrals` | src/lib/referral.ts:52 | The referrals are exactly the users whose `referredById` is the referrer. |
| `Referral.ReferralsCounts` | src/lib/referral.ts:52 | Each user row occurs among the referrals as often as in the table when it names the referrer, and not at all otherwise. |
| `Referral.WithDeliverySince` | src/lib/referral.ts:53-62 | Keeps exactly those referred users with a DELIVERED order delivered at or after the window start. |
| `Referral.WithDeliverySinceCounts` | src/lib/referral.ts:53-62 | Each referred user is kept as often as it is listed when it has such a delivery, and dropped otherwise. |
| `Referral.FilteredCountIsReferenceCount` | src/lib/referral.ts:53-62 | Filtering the referrals and then filtering by delivery gives as many users as a one-pass count over the user table of the rows that name the referrer and have such a delivery. |
| `Referral.ActiveReferralsCount` | src/lib/referral.ts:53-62 | The number of user rows that name the referrer and have a DELIVERED order in the last 90 days. It never exceeds the number of referrals. |
| `Referral.GetFreeiPhoneQualifiedReferralsCount` | src/lib/referral.ts:114-127 | The number of user rows that name the referrer and have a DELIVERED order in the last 365 days. It never exceeds the number of referrals. |
| `Referral.WiderWindowKeepsMore` | src/lib/referral.ts:114-127 | A window that starts earlier keeps every user a later-starting window keeps, so its count is no smaller. |
| `Referral.ActiveReferralsAreQualified` | src/lib/referral.ts:53-62 | Every 90-day-active referral is also 365-day-qualified, so active never exceeds qualified. |
| `Referral.WindowsDiffer` | src/lib/referral.ts:59 | A referral whose only delivery was 100 days ago is qualified but not active. |
| `Referral.PurchaseOrders` | src/lib/referral.ts:72 | Exactly the user's orders with status DELIVERED, SHIPPED, PROCESSING or PAID. |
| `Referral.PurchaseOrdersCounts` | src/lib/referral.ts:72 | Each such order is kept as often as it occurs in the table, and every other order is dropped. |
| `Referral.SummaryActiveAgrees` | src/lib/referral.ts:88-94 | A row's activity flag is true exactly when the user has a DELIVERED order in the 90-day window, which is the active count's predicate. |
| `Referral.Summaries` | src/lib/referral.ts:84-95 | One row per referral, in order. Each row counts the referral's purchase orders and sums their totals. |
| `Referral.ActiveFlagsMatchCount` | src/lib/referral.ts:84-95 | The number of rows flagged active equals the active count. |
| `Referral.GetReferralStats` | src/lib/referral.ts:50-98 | `total` is the number of referrals and `active` is the 90-day count. `0 <= active <= total` and `inactive = total - active`. The rows are the referral summaries of the referrals, one per referral and in order, and exactly `active` of them are flagged. |
| `Referral.DeliveredOrdersSince` | src/lib/referral.ts:150 | Exactly the user's DELIVERED orders inside the window. The list is non-empty exactly when the user has such a delivery. |
| `Referral.DeliveredOrdersSinceCounts` | src/lib/referral.ts:150 | Each of those orders is kept as often as it occurs in the table, and every other order is dropped. |
| `Referral.LatestDelivery` | src/lib/referral.ts:152-159 | The delivery instant of one of the orders, and no smaller than any of them. |
| `Referral.RosterRow` | src/lib/referral.ts:149-160 | The row holds exactly the user's DELIVERED orders inside the window, each as often as in the table. `orderCount` is their number and is at least 1. `firstPurchaseDeliveredAt` is the latest of their delivery instants. |
| `Referral.Roster` | src/lib/referral.ts:157-161 | One row per qualified user, in the same order, each that user's roster row. |
| `Referral.GetFreeiPhoneQualifiedReferrals` | src/lib/referral.ts:132-161 | As many rows as the qualified count. Each row is the roster row of a referral of the user. Every referral with a DELIVERED order in the last 365 days has a row. |
| `Referral.ReferralRosterRowsBelong` | src/lib/referral.ts:132-161 | Each row of the roster of the qualified referrals is the roster row of some referral of the user. |
| `Referral.ReferralRosterRowsCover` | src/lib/referral.ts:132-161 | Each referral with a delivery in the window has a row in the roster. |
| `Referral.BonusOrders` | src/lib/referral.ts:165-167 | Exactly the user's orders flagged as bonus orders. |
| `Referral.HasReceivedFreeiPhoneBonus` | src/lib/referral.ts:164-169 | True exactly when the user owns a bonus order, whatever its status. |
| `Referral.GetLastFreeiPhoneDeliveredAt` | src/lib/referral.ts:172-179 | None exactly when the user has no DELIVERED bonus order with a delivery instant. Otherwise it is the maximum such instant. |
| `Referral.CanReceiveFreeiPhone` | src/lib/referral.ts:182-191 | True exactly when there are at least 20 qualified referrals and every delivered bonus was delivered strictly before `now - 365 days`. |
| `Referral.WithDeliverySinceIgnoresUndelivered` | src/lib/referral.ts:119-124 | Adding an order that is not DELIVERED changes no window's membership. |
| `Referral.UndeliveredOrderKeepsEligibility` | src/lib/referral.ts:172-191 | Adding an order that is not DELIVERED leaves everyone's eligibility unchanged. For example, a granted but undelivered bonus does not block a second grant. |
| `Referral.DeliveredBonusBlocksForAYear` | src/lib/referral.ts:189-190 | A bonus delivered within the last 365 days makes the user ineligible, however many referrals qualify. |
| `Referral.UsersWithReferrals` | src/lib/referral.ts:197-209 | Exactly the users of role USER with at least one referral. |
| `Referral.UsersWithReferralsCounts` | src/lib/referral.ts:197-209 | Each such user row is kept as often as in the table, and every other row is dropped. |
| `Referral.CandidatesAmong` | src/lib/referral.ts:220-235 | No more candidates than users in the pool. |
| `Referral.CandidatesAmongDistinct` | src/lib/referral.ts:220-235 | When the pool's user ids are distinct, no two candidates share an id, so each user appears at most once. |
| `Referral.CustomersWithReferralsAmongDistinct` | src/lib/referral.ts:197-209 | Filtering a pool with distinct user ids keeps the ids distinct. |
| `Referral.CandidatesAmongMembers` | src/lib/referral.ts:220-235 | The candidates of `CandidatesAmong` are exactly the pool's users with at least 20 qualified referrals who pass the gate, each with their count. |
| `Referral.CandidatesAreEligibleUsers` | src/lib/referral.ts:196-235 | Any permutation of the candidate list holds exactly the eligible role-USER users with referrals. |
| `Referral.InsertByCount` | src/lib/referral.ts:237 | Insertion keeps the list sorted by count, largest first, and adds exactly the one element. |
| `Referral.SortByCountDesc` | src/lib/referral.ts:237 | The result is sorted by qualified count, largest first, and is a permutation of the input. |
| `Referral.InsertByCountDistinct` | src/lib/referral.ts:237 | Inserting a candidate whose id is not yet in the list keeps the ids distinct. |
| `Referral.SortByCountDescDistinct` | src/lib/referral.ts:237 | Sorting a list with distinct ids keeps them distinct. |
| `Referral.CandidateListDistinct` | src/lib/referral.ts:196-237 | When user ids are distinct, the sorted candidate list names each user at most once. |
| `Referral.GetFreeiPhoneCandidates` | src/lib/referral.ts:196-237 | The result is sorted by count, largest first, and is a permutation of the loop's candidates. Its members are exactly the eligible role-USER users with referrals. When user ids are distinct, as the table's key makes them, no user appears twice. |
| `Orders.Subtotal` | src/lib/orders.ts:22 | Lines with non-negative prices and quantities give a non-negative subtotal. |
| `Orders.SubtotalAppend` | src/lib/orders.ts:22 | The subtotal of two line lists joined together is the sum of their subtotals. |
| `Orders.TotalQuantity` | src/lib/orders.ts:61-64 | A product that no line names has a total ordered quantity of 0. |
| `Orders.ApplyDecrements` | src/lib/orders.ts:52-65 | The product set is unchanged. Each product's stock drops by exactly the total quantity ordered of it, and products not in the order are unchanged. |
| `Orders.StockSufficientKeepsStockNonNegative` | src/lib/orders.ts:27-33 | When the corrected check passes, no stock goes negative after the decrements. |
| `Orders.StockSufficientImpliesPerLineCheck` | src/lib/orders.ts:27-33 | The corrected check rejects every request the code's per-line check rejects. |
| `Orders.PerLineCheckOversells` | src/lib/orders.ts:27-33 | Two lines of 3 units of a product with stock 5 pass the per-line check, fail the aggregated one, and leave stock -1. |
| `Orders.PerLineCheckAgreesWithoutRepeats` | src/lib/orders.ts:27-33 | When no product appears twice, the per-line check and the aggregated check agree. |
| `Orders.WriteItems` | src/lib/orders.ts:52-65 | Appends one order item per line, in order, and decrements stocks as `ApplyDecrements` does. |
| `Orders.CreateOrder` | src/lib/orders.ts:12-71 | Fails exactly when a line's product is missing, or its stock is below the line's quantity or below that product's total ordered quantity. When some line fails the code's own check (product missing, or stock below the line's quantity), the error is that of the first such line, as in the code. Otherwise the error is that of the first line whose product's total exceeds its stock. Nothing is written on error. On success, the order has a fresh id, status NEW, not-a-bonus, the subtotal as computed, shipping 0 and total = subtotal. There is one item per line, and stocks drop by the ordered quantities. The store stays valid, so no stock is negative. |
| `Orders.CreateFreeiPhoneOrder` | src/lib/orders.ts:77-131 | Errors in order: user missing, product missing, stock below 1. Each error writes nothing. When the user and the product exist and one unit is in stock, the grant succeeds. On success, one bonus order with status NEW, a fresh id and totals 0, one item with quantity 1 and price 0, and stock minus 1. The user now holds a bonus, and no one's eligibility changes. |
| `Orders.FindOrder` | src/lib/orders.ts:143-151 | None exactly when no order has the id. Otherwise it is an order with that id. |
| `Orders.ReferrerOf` | src/lib/orders.ts:153-154 | The `referredById` of the buyer's user record. None when there is no such record. |
| `Orders.ItemsOf` | src/lib/orders.ts:143-149 | Exactly the order items of the order. |
| `Orders.ItemsOfCounts` | src/lib/orders.ts:143-149 | Each item row of the order is kept as often as in the table, and every other row is dropped. |
| `Orders.LineEntries` | src/lib/orders.ts:156-182 | One line accrues at most two entries. |
| `Orders.AccrualEntries` | src/lib/orders.ts:156-182 | The lines accrue at most two entries each. |
| `Orders.LineEntriesShape` | src/lib/orders.ts:156-182 | At most two entries. An OWN_PURCHASE entry exists exactly when the own amount is positive. A REFERRAL_PURCHASE entry exists exactly when there is a referrer and the referral amount is positive. Every entry is PENDING with the 14-day hold, carries the order id, and goes to the right beneficiary with `referralId` = the buyer on referral entries. The own entry's amount is exactly the own amount and the referral entry's amount exactly the referral amount, both positive. |
| `Orders.AccrualEntriesShape` | src/lib/orders.ts:156-182 | At most two entries per line, each of the shape `LineEntriesShape` describes. |
| `Orders.NoReferrerNoReferralEntries` | src/lib/orders.ts:172-181 | A buyer without a referrer only ever causes OWN_PURCHASE entries for the buyer. |
| `Orders.LineEntriesGuard` | src/lib/orders.ts:162-170 | A line's entries contain an OWN_PURCHASE entry for the order exactly when its own amount is positive. |
| `Orders.GuardTripsIff` | src/lib/orders.ts:138-141 | After accrual, the guard is set exactly when it was set before or some line earned a positive own amount. |
| `Orders.DefaultRatesAccrualIsGuarded` | src/lib/orders.ts:138-141 | With the default rates and non-negative line totals, accrual writes nothing or sets the guard, so a repeated call adds nothing. |
| `Orders.ReferralOnlyRateBypassesGuard` | src/lib/orders.ts:138-141 | With a 0% own / 3% referral rate, accrual writes a referral entry but leaves the guard unset. |
| `Orders.DefaultSplitScenario` | src/lib/orders.ts:156-182 | A 1000.00 line with default rates gives 50.00 to the buyer and 30.00 to the referrer, or only the 50.00 without a referrer. |
| `Orders.AccrueLine` | src/lib/orders.ts:157-181 | Appends exactly the line's entries to the ledger. |
| `Orders.AccrueLines` | src/lib/orders.ts:156-182 | The loop appends exactly the accrual entries of the lines, line by line and in order, and the rate table stays as it was. |
| `Orders.AccrueCashbackOnDelivery` | src/lib/orders.ts:137-183 | With the guard set, nothing is written and the result is Ok. For a missing order, the result is "Order not found" and nothing is written. Otherwise the ledger grows by exactly the accrual entries of the order's items, for the buyer and the buyer's referrer. |

## Left out

- `generateOrderNumber` (src/lib/orders.ts:8-10) depends on the clock and a random source. The model replaces it with the store's fresh-id counter.
- The shipping name, address, phone, email and comment fields of orders are not modelled. `createOrder` copies them from the request, and `createFreeiPhoneOrder` derives them from the user record and fixed text (src/lib/orders.ts:94-98). No logic reads them.
- The user's email, name, phone and `createdAt` in the statistics rows, the roster and the candidate list are not modelled. They are copied from the user record.
- The per-referral list of purchase orders (src/lib/referral.ts:71-78, spread into each statistics row at :85) is not kept in the row. The row keeps only its length and the sum of its totals, and `Referral.PurchaseOrders` states which orders the list holds.
- `trackReferralClick`, `getOrCreateReferralCode` and `REFERRAL_COOKIE_DAYS` are not modelled. They are single store calls or an unused constant.
- `REFERRAL_BONUSES` (src/lib/referral.ts:101-105) is not modelled. No core operation reads it.
- The display orderings are not modelled: referral rows by `createdAt` descending, and roster orders by delivery time descending. Rows keep the table's order, and only the latest delivery is stated.
- `Referral.SortByCountDesc`: stability is not stated, only sortedness and permutation. Ties among candidates with equal counts may come out in any order.
- `Cashback.LatestApplicableRate`: among rates with the same `validFrom` the model picks the first in table order. The store leaves the choice unspecified.
- Floating point is not modelled. Amounts are integer cents, so `Math.round` on binary fractions becomes exact integer rounding.
- Calendar arithmetic is not modelled: `setDate` across daylight-saving changes is taken as exactly 14 * 86 400 000 ms.
- Concurrency is not modelled. Each transaction is one atomic method, and the race between the stock check and the decrements under concurrent checkouts is outside a sequential model.
- Referential integrity is not modelled. The store's foreign-key failures are assumed not to occur: an order item's product exists, and a user's referrer exists.
- `Orders.CreateOrder` performs the code's per-line check and, in addition, the aggregated per-product check (see Findings). A request that only the aggregated check rejects fails in the model but succeeds in the code.

## Findings

| source | as written | input that shows it | evidently intended | confidence | as-written member | corrected member |
|---|---|---|---|---|---|---|
| src/lib/orders.ts:27-33 | Each line's quantity is compared with the product's stock on its own, and then every line decrements that stock | A product with stock 5 and two lines of 3 units each passes the check, and the stock ends at -1 | Reject when the total quantity ordered of a product exceeds its stock, so stock never goes negative | not executed | `Orders.PerLineCheckOversells` | `Orders.StockSufficientKeepsStockNonNegative` |
