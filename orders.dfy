/**
 * Order creation with stock reservation, free-iPhone bonus orders, and cashback
 * accrual when an order is delivered. Every transaction of the source is one
 * method call on the store.
 */
module Orders {
  import opened Db
  import opened Cashback
  import Referral

  /** One line of a checkout request: price in cents per unit. */
  datatype LineItem = LineItem(productId: ProductId, quantity: int, price: int)

  // ---------------------------------------------------------------------------
  // Totals and stock

  /** The sum of price * quantity over the lines. */
  function Subtotal(items: seq<LineItem>): (r: int)
    ensures (forall i :: 0 <= i < |items| ==> items[i].price >= 0 && items[i].quantity >= 0) ==> r >= 0
  {
    if items == [] then 0
    else Subtotal(items[..|items| - 1]) + items[|items| - 1].price * items[|items| - 1].quantity
  }

  /** The subtotal of a concatenation is the sum of the subtotals. */
  lemma {:induction false} SubtotalAppend(a: seq<LineItem>, b: seq<LineItem>)
    ensures Subtotal(a + b) == Subtotal(a) + Subtotal(b)
  {
    if b != [] {
      assert (a + b)[..|a + b| - 1] == a + b[..|b| - 1];
      SubtotalAppend(a, b[..|b| - 1]);
    } else {
      assert a + b == a;
    }
  }

  /** The total quantity ordered of one product, over all lines. */
  function TotalQuantity(items: seq<LineItem>, productId: ProductId): (n: int)
    ensures (forall i :: 0 <= i < |items| ==> items[i].productId != productId) ==> n == 0
  {
    if items == [] then 0
    else
      TotalQuantity(items[..|items| - 1], productId)
      + (if items[|items| - 1].productId == productId then items[|items| - 1].quantity else 0)
  }

  /** Line `i`'s product exists and its stock covers the line's own quantity: the source's check. */
  predicate LineInStock(products: map<ProductId, Product>, items: seq<LineItem>, i: int)
    requires 0 <= i < |items|
  {
    items[i].productId in products && products[items[i].productId].stock >= items[i].quantity
  }

  /**
   * Line `i` passes the source's check, and its product's stock also covers
   * everything ordered of that product over all lines.
   */
  predicate LineOk(products: map<ProductId, Product>, items: seq<LineItem>, i: int)
    requires 0 <= i < |items|
  {
    LineInStock(products, items, i) && products[items[i].productId].stock >= TotalQuantity(items, items[i].productId)
  }

  predicate StockSufficient(products: map<ProductId, Product>, items: seq<LineItem>)
  {
    forall i :: 0 <= i < |items| ==> LineOk(products, items, i)
  }

  /** The error raised for a failing line. */
  function LineError(products: map<ProductId, Product>, items: seq<LineItem>, i: int): Error
    requires 0 <= i < |items|
  {
    var pid := items[i].productId;
    if pid !in products then ProductNotFound else InsufficientStockFor(products[pid].name)
  }

  function Decrement(products: map<ProductId, Product>, item: LineItem): map<ProductId, Product>
  {
    if item.productId in products then
      products[item.productId := products[item.productId].(stock := products[item.productId].stock - item.quantity)]
    else products
  }

  /** The product table after decrementing the stock of every line's product, line by line. */
  function ApplyDecrements(products: map<ProductId, Product>, items: seq<LineItem>): (r: map<ProductId, Product>)
    ensures r.Keys == products.Keys
    ensures forall pid :: pid in r ==>
      r[pid] == products[pid].(stock := products[pid].stock - TotalQuantity(items, pid))
  {
    if items == [] then products
    else Decrement(ApplyDecrements(products, items[..|items| - 1]), items[|items| - 1])
  }

  /** With the aggregated check passed, no product's stock becomes negative. */
  lemma StockSufficientKeepsStockNonNegative(products: map<ProductId, Product>, items: seq<LineItem>)
    requires StockSufficient(products, items)
    requires forall pid :: pid in products ==> products[pid].stock >= 0
    ensures forall pid :: pid in ApplyDecrements(products, items) ==> ApplyDecrements(products, items)[pid].stock >= 0
  {
    forall pid | pid in products ensures products[pid].stock - TotalQuantity(items, pid) >= 0 {
      if i :| 0 <= i < |items| && items[i].productId == pid {
        assert LineOk(products, items, i);
      }
    }
  }

  // The source's pre-check compares each line with the stock on its own.

  predicate PerLineCheck(products: map<ProductId, Product>, items: seq<LineItem>)
  {
    forall i :: 0 <= i < |items| ==> LineInStock(products, items, i)
  }

  /** The corrected check rejects every request the source's check rejects. */
  lemma StockSufficientImpliesPerLineCheck(products: map<ProductId, Product>, items: seq<LineItem>)
    requires StockSufficient(products, items)
    ensures PerLineCheck(products, items)
  {
    forall i | 0 <= i < |items| ensures LineInStock(products, items, i) {
      assert LineOk(products, items, i);
    }
  }

  /**
   * Two lines of the same product, each within stock but together above it,
   * pass the per-line check, and the decrements drive the stock to -1.
   */
  lemma PerLineCheckOversells()
    ensures var products := map[1 := Product("iPhone 15", 5)];
      var items := [LineItem(1, 3, 100_000), LineItem(1, 3, 100_000)];
      && PerLineCheck(products, items)
      && !StockSufficient(products, items)
      && ApplyDecrements(products, items)[1].stock == -1
  {
    var products := map[1 := Product("iPhone 15", 5)];
    var items := [LineItem(1, 3, 100_000), LineItem(1, 3, 100_000)];
    assert items[..1] == [LineItem(1, 3, 100_000)];
    assert items[..1][..0] == [];
    assert TotalQuantity(items, 1) == 6;
    assert !LineOk(products, items, 0);
  }

  predicate DistinctProducts(items: seq<LineItem>)
  {
    forall i, j :: 0 <= i < j < |items| ==> items[i].productId != items[j].productId
  }

  lemma {:induction false} TotalQuantityOfDistinct(items: seq<LineItem>, i: int)
    requires DistinctProducts(items) && 0 <= i < |items|
    ensures TotalQuantity(items, items[i].productId) == items[i].quantity
  {
    var init := items[..|items| - 1];
    if i < |items| - 1 {
      TotalQuantityOfDistinct(init, i);
    } else {
      assert forall k :: 0 <= k < |init| ==> init[k].productId != items[i].productId;
    }
  }

  /** When no product appears twice (as with checkout's single line) the two checks agree. */
  lemma PerLineCheckAgreesWithoutRepeats(products: map<ProductId, Product>, items: seq<LineItem>)
    requires DistinctProducts(items)
    ensures PerLineCheck(products, items) <==> StockSufficient(products, items)
  {
    forall i | 0 <= i < |items| ensures LineOk(products, items, i) <==> LineInStock(products, items, i) {
      TotalQuantityOfDistinct(items, i);
    }
  }

  // ---------------------------------------------------------------------------
  // Checkout

  function OrderItemsFor(orderId: OrderId, items: seq<LineItem>): (r: seq<OrderItem>)
    ensures |r| == |items|
  {
    seq(|items|, i requires 0 <= i < |items| => OrderItem(orderId, items[i].productId, items[i].quantity, items[i].price))
  }

  /**
   * The transaction's loop: one order item per line, and each line's product
   * stock decremented by the line's quantity.
   */
  method WriteItems(db: Store, orderId: OrderId, items: seq<LineItem>)
    modifies db`items, db`products
    ensures db.items == old(db.items) + OrderItemsFor(orderId, items)
    ensures db.products == ApplyDecrements(old(db.products), items)
  {
    for i := 0 to |items|
      invariant db.items == old(db.items) + OrderItemsFor(orderId, items[..i])
      invariant db.products == ApplyDecrements(old(db.products), items[..i])
    {
      var item := items[i];
      var row := OrderItem(orderId, item.productId, item.quantity, item.price);
      assert items[..i + 1] == items[..i] + [item];
      assert OrderItemsFor(orderId, items[..i + 1]) == OrderItemsFor(orderId, items[..i]) + [row];
      assert ApplyDecrements(old(db.products), items[..i + 1]) == Decrement(db.products, item) by {
        assert items[..i + 1][..i] == items[..i];
      }
      db.items := db.items + [row];
      db.products := Decrement(db.products, item);
    }
    assert items[..|items|] == items;
  }

  /**
   * Checks every line, then in one transaction writes the order, one order item
   * per line, and decrements each line's product stock.
   */
  method CreateOrder(db: Store, userId: UserId, items: seq<LineItem>) returns (r: Result<Order>)
    requires db.Valid()
    modifies db`orders, db`items, db`products, db`nextOrderId
    ensures db.Valid()
    ensures r.Err? <==> !StockSufficient(old(db.products), items)
    ensures !PerLineCheck(old(db.products), items) ==>
      exists i :: 0 <= i < |items| && !LineInStock(old(db.products), items, i)
        && (forall j :: 0 <= j < i ==> LineInStock(old(db.products), items, j))
        && r == Err(LineError(old(db.products), items, i))
    ensures PerLineCheck(old(db.products), items) && !StockSufficient(old(db.products), items) ==>
      exists i :: 0 <= i < |items| && !LineOk(old(db.products), items, i)
        && (forall j :: 0 <= j < i ==> LineOk(old(db.products), items, j))
        && r == Err(LineError(old(db.products), items, i))
    ensures r.Err? ==>
      && db.orders == old(db.orders) && db.items == old(db.items)
      && db.products == old(db.products) && db.nextOrderId == old(db.nextOrderId)
    ensures r.Ok? ==>
      var o := r.value;
      && (forall k :: 0 <= k < |old(db.orders)| ==> old(db.orders)[k].id != o.id)
      && o.userId == userId && o.status == New && !o.isFreeiPhoneBonus && o.deliveredAt == None
      && o.subtotal == Subtotal(items) && o.shippingCost == 0 && o.total == o.subtotal
      && db.orders == old(db.orders) + [o]
      && db.items == old(db.items) + OrderItemsFor(o.id, items)
      && db.products.Keys == old(db.products).Keys
      && (forall pid :: pid in db.products ==>
            db.products[pid] == old(db.products)[pid].(stock := old(db.products)[pid].stock - TotalQuantity(items, pid)))
  {
    var subtotal := Subtotal(items);
    var shippingCost := 0;
    var total := subtotal + shippingCost;

    // The source's check, line by line.
    for i := 0 to |items|
      invariant db.products == old(db.products)
      invariant forall j :: 0 <= j < i ==> LineInStock(db.products, items, j)
    {
      var item := items[i];
      if item.productId !in db.products {
        assert !LineInStock(db.products, items, i) && !LineOk(db.products, items, i);
        return Err(ProductNotFound);
      }
      var product := db.products[item.productId];
      if product.stock < item.quantity {
        assert !LineInStock(db.products, items, i) && !LineOk(db.products, items, i);
        return Err(InsufficientStockFor(product.name));
      }
    }

    // The aggregated check: a product's stock covers all its lines together.
    for i := 0 to |items|
      invariant db.products == old(db.products)
      invariant forall j :: 0 <= j < i ==> LineOk(db.products, items, j)
    {
      var item := items[i];
      assert LineInStock(db.products, items, i);
      var product := db.products[item.productId];
      if product.stock < TotalQuantity(items, item.productId) {
        assert !LineOk(db.products, items, i);
        return Err(InsufficientStockFor(product.name));
      }
    }

    var o := Order(db.nextOrderId, userId, New, subtotal, shippingCost, total, false, None);
    db.orders := db.orders + [o];
    db.nextOrderId := db.nextOrderId + 1;
    WriteItems(db, o.id, items);
    StockSufficientKeepsStockNonNegative(old(db.products), items);
    r := Ok(o);
  }

  // ---------------------------------------------------------------------------
  // The free-iPhone bonus order

  predicate UserExists(users: seq<User>, userId: UserId)
  {
    exists i :: 0 <= i < |users| && users[i].id == userId
  }

  /**
   * Checks that the user and the product exist and that one unit is in stock,
   * then in one transaction writes a zero-total bonus order, its single
   * zero-price item, and decrements the product's stock by one.
   */
  method CreateFreeiPhoneOrder(db: Store, userId: UserId, productId: ProductId) returns (r: Result<Order>)
    requires db.Valid()
    modifies db`orders, db`items, db`products, db`nextOrderId
    ensures db.Valid()
    ensures !UserExists(db.users, userId) ==> r == Err(UserNotFound)
    ensures UserExists(db.users, userId) && productId !in old(db.products) ==> r == Err(ProductNotFound)
    ensures UserExists(db.users, userId) && productId in old(db.products) && old(db.products)[productId].stock < 1
      ==> r == Err(InsufficientStock)
    ensures UserExists(db.users, userId) && productId in old(db.products) && old(db.products)[productId].stock >= 1
      ==> r.Ok?
    ensures r.Err? ==>
      && db.orders == old(db.orders) && db.items == old(db.items)
      && db.products == old(db.products) && db.nextOrderId == old(db.nextOrderId)
    ensures r.Ok? ==>
      var o := r.value;
      && UserExists(db.users, userId) && productId in old(db.products) && old(db.products)[productId].stock >= 1
      && (forall k :: 0 <= k < |old(db.orders)| ==> old(db.orders)[k].id != o.id)
      && o.userId == userId && o.status == New && o.isFreeiPhoneBonus && o.deliveredAt == None
      && o.subtotal == 0 && o.shippingCost == 0 && o.total == 0
      && db.orders == old(db.orders) + [o]
      && db.items == old(db.items) + [OrderItem(o.id, productId, 1, 0)]
      && db.products == old(db.products)[productId := old(db.products)[productId].(stock := old(db.products)[productId].stock - 1)]
    ensures r.Ok? ==> Referral.HasReceivedFreeiPhoneBonus(db.orders, userId)
    ensures forall uid, now ::
      (Referral.CanReceiveFreeiPhone(db.users, db.orders, uid, now)
       == Referral.CanReceiveFreeiPhone(old(db.users), old(db.orders), uid, now))
  {
    if !UserExists(db.users, userId) {
      return Err(UserNotFound);
    }
    if productId !in db.products {
      return Err(ProductNotFound);
    }
    var product := db.products[productId];
    if product.stock < 1 {
      return Err(InsufficientStock);
    }

    var o := Order(db.nextOrderId, userId, New, 0, 0, 0, true, None);
    forall uid, now ensures Referral.CanReceiveFreeiPhone(db.users, db.orders + [o], uid, now)
      == Referral.CanReceiveFreeiPhone(db.users, db.orders, uid, now)
    {
      Referral.UndeliveredOrderKeepsEligibility(db.users, db.orders, o, uid, now);
    }
    assert (db.orders + [o])[|db.orders|] == o;
    db.orders := db.orders + [o];
    db.nextOrderId := db.nextOrderId + 1;
    db.items := db.items + [OrderItem(o.id, productId, 1, 0)];
    db.products := db.products[productId := product.(stock := product.stock - 1)];
    r := Ok(o);
  }

  // ---------------------------------------------------------------------------
  // Cashback accrual on delivery

  /** The idempotency guard: an OWN_PURCHASE entry already exists for the order. */
  predicate HasOwnPurchaseEntry(entries: seq<CashbackEntry>, orderId: OrderId)
  {
    exists i :: 0 <= i < |entries| && entries[i].orderId == Some(orderId) && entries[i].kind == OwnPurchase
  }

  /** The first order with the id, or None. */
  function FindOrder(orders: seq<Order>, orderId: OrderId): (r: Option<Order>)
    ensures r.None? <==> forall i :: 0 <= i < |orders| ==> orders[i].id != orderId
    ensures r.Some? ==> r.value in orders && r.value.id == orderId
  {
    if orders == [] then None
    else if orders[0].id == orderId then Some(orders[0])
    else FindOrder(orders[1..], orderId)
  }

  /** Index `i` holds the first user record with the id. */
  predicate FirstUserWith(users: seq<User>, userId: UserId, i: int)
  {
    && 0 <= i < |users| && users[i].id == userId
    && forall j :: 0 <= j < i ==> users[j].id != userId
  }

  /** The referrer of the buyer's user record (the first with that id), or None. */
  function ReferrerOf(users: seq<User>, buyerId: UserId): (r: Option<UserId>)
    ensures (forall i :: 0 <= i < |users| ==> users[i].id != buyerId) ==> r.None?
    ensures forall i :: FirstUserWith(users, buyerId, i) ==> r == users[i].referredById
  {
    if users == [] then None
    else if users[0].id == buyerId then users[0].referredById
    else
      var r := ReferrerOf(users[1..], buyerId);
      assert forall i :: FirstUserWith(users, buyerId, i) ==> FirstUserWith(users[1..], buyerId, i - 1);
      r
  }

  /** The order's items, in table order. */
  function ItemsOf(items: seq<OrderItem>, orderId: OrderId): (r: seq<OrderItem>)
    ensures forall it :: it in r <==> it in items && it.orderId == orderId
  {
    if items == [] then []
    else (if items[0].orderId == orderId then [items[0]] else []) + ItemsOf(items[1..], orderId)
  }

  /** Each of the order's item rows is kept exactly as often as in the table. */
  lemma {:induction false} ItemsOfCounts(items: seq<OrderItem>, orderId: OrderId)
    ensures forall it :: (multiset(ItemsOf(items, orderId))[it] ==
      if it.orderId == orderId then multiset(items)[it] else 0)
  {
    if items != [] {
      ItemsOfCounts(items[1..], orderId);
      assert items == [items[0]] + items[1..];
    }
  }

  /** The buyer's cashback on one line, with the product's rates at `now`. */
  function OwnAmount(item: OrderItem, rateTable: seq<ProductCashbackRate>, now: int): int
  {
    CalculateCashback(item.price * item.quantity, CashbackRates(rateTable, item.productId, now).ownPercent)
  }

  /** The referrer's cashback on one line, with the product's rates at `now`. */
  function ReferralAmount(item: OrderItem, rateTable: seq<ProductCashbackRate>, now: int): int
  {
    CalculateCashback(item.price * item.quantity, CashbackRates(rateTable, item.productId, now).referralPercent)
  }

  /**
   * The shape of every entry accrual writes: PENDING until 14 days after
   * delivery, linked to the order, a positive amount, and either the buyer's own
   * entry or the referrer's entry naming the buyer.
   */
  predicate AccruedEntry(e: CashbackEntry, buyerId: UserId, referrerId: Option<UserId>, orderId: OrderId, deliveredAt: int)
  {
    && e.status == Pending
    && e.availableAt == deliveredAt + HoldMs
    && e.orderId == Some(orderId)
    && e.amount > 0
    && ((e.kind == OwnPurchase && e.userId == buyerId && e.referralId == None)
        || (e.kind == ReferralPurchase && referrerId == Some(e.userId) && e.referralId == Some(buyerId)))
  }

  /** The entries accrued for one line: an own entry and a referral entry, each only when positive. */
  function LineEntries(
    item: OrderItem, rateTable: seq<ProductCashbackRate>, buyerId: UserId, referrerId: Option<UserId>,
    orderId: OrderId, deliveredAt: int, now: int): (r: seq<CashbackEntry>)
    ensures |r| <= 2
  {
    var ownAmount := OwnAmount(item, rateTable, now);
    var referralAmount := ReferralAmount(item, rateTable, now);
    (if ownAmount > 0 then [NewPendingEntry(buyerId, ownAmount, OwnPurchase, Some(orderId), None, deliveredAt)] else [])
    + (if referrerId.Some? && referralAmount > 0
       then [NewPendingEntry(referrerId.value, referralAmount, ReferralPurchase, Some(orderId), Some(buyerId), deliveredAt)]
       else [])
  }

  /**
   * A line adds at most two entries: an OWN_PURCHASE entry exactly when the own
   * amount is positive, a REFERRAL_PURCHASE entry exactly when there is a
   * referrer and the referral amount is positive, each of the accrued shape.
   */
  lemma LineEntriesShape(
    item: OrderItem, rateTable: seq<ProductCashbackRate>, buyerId: UserId, referrerId: Option<UserId>,
    orderId: OrderId, deliveredAt: int, now: int)
    ensures var r := LineEntries(item, rateTable, buyerId, referrerId, orderId, deliveredAt, now);
      && |r| <= 2
      && ((exists e :: e in r && e.kind == OwnPurchase) <==> OwnAmount(item, rateTable, now) > 0)
      && ((exists e :: e in r && e.kind == ReferralPurchase) <==>
            referrerId.Some? && ReferralAmount(item, rateTable, now) > 0)
      && (forall e :: e in r ==> AccruedEntry(e, buyerId, referrerId, orderId, deliveredAt))
      && (forall e :: e in r && e.kind == OwnPurchase ==> e.amount == OwnAmount(item, rateTable, now))
      && (forall e :: e in r && e.kind == ReferralPurchase ==> e.amount == ReferralAmount(item, rateTable, now))
  {
    var ownAmount := OwnAmount(item, rateTable, now);
    var referralAmount := ReferralAmount(item, rateTable, now);
    var own := if ownAmount > 0 then [NewPendingEntry(buyerId, ownAmount, OwnPurchase, Some(orderId), None, deliveredAt)] else [];
    var referral :=
      if referrerId.Some? && referralAmount > 0
      then [NewPendingEntry(referrerId.value, referralAmount, ReferralPurchase, Some(orderId), Some(buyerId), deliveredAt)]
      else [];
    assert LineEntries(item, rateTable, buyerId, referrerId, orderId, deliveredAt, now) == own + referral;
    assert ownAmount > 0 ==> own[0] in own + referral;
    assert referrerId.Some? && referralAmount > 0 ==> referral[0] in own + referral;
  }

  /** The entries accrued for the lines, line by line. */
  function AccrualEntries(
    lines: seq<OrderItem>, rateTable: seq<ProductCashbackRate>, buyerId: UserId, referrerId: Option<UserId>,
    orderId: OrderId, deliveredAt: int, now: int): (r: seq<CashbackEntry>)
    ensures |r| <= 2 * |lines|
  {
    if lines == [] then []
    else
      AccrualEntries(lines[..|lines| - 1], rateTable, buyerId, referrerId, orderId, deliveredAt, now)
      + LineEntries(lines[|lines| - 1], rateTable, buyerId, referrerId, orderId, deliveredAt, now)
  }

  /** At most two entries per line, each of the accrued shape. */
  lemma {:induction false} AccrualEntriesShape(
    lines: seq<OrderItem>, rateTable: seq<ProductCashbackRate>, buyerId: UserId, referrerId: Option<UserId>,
    orderId: OrderId, deliveredAt: int, now: int)
    ensures var r := AccrualEntries(lines, rateTable, buyerId, referrerId, orderId, deliveredAt, now);
      && |r| <= 2 * |lines|
      && forall e :: e in r ==> AccruedEntry(e, buyerId, referrerId, orderId, deliveredAt)
  {
    if lines != [] {
      AccrualEntriesShape(lines[..|lines| - 1], rateTable, buyerId, referrerId, orderId, deliveredAt, now);
      LineEntriesShape(lines[|lines| - 1], rateTable, buyerId, referrerId, orderId, deliveredAt, now);
    }
  }

  /** A buyer without a referrer never causes a REFERRAL_PURCHASE entry. */
  lemma NoReferrerNoReferralEntries(
    lines: seq<OrderItem>, rateTable: seq<ProductCashbackRate>, buyerId: UserId,
    orderId: OrderId, deliveredAt: int, now: int)
    ensures forall e :: e in AccrualEntries(lines, rateTable, buyerId, None, orderId, deliveredAt, now) ==>
      e.kind == OwnPurchase && e.userId == buyerId
  {
    AccrualEntriesShape(lines, rateTable, buyerId, None, orderId, deliveredAt, now);
  }

  /** Some line earns the buyer a positive own amount. */
  predicate EarnsOwn(lines: seq<OrderItem>, rateTable: seq<ProductCashbackRate>, now: int)
  {
    exists i :: 0 <= i < |lines| && OwnAmount(lines[i], rateTable, now) > 0
  }

  lemma EarnsOwnSnoc(lines: seq<OrderItem>, rateTable: seq<ProductCashbackRate>, now: int)
    requires lines != []
    ensures EarnsOwn(lines, rateTable, now) <==>
      EarnsOwn(lines[..|lines| - 1], rateTable, now) || OwnAmount(lines[|lines| - 1], rateTable, now) > 0
  {
    var init := lines[..|lines| - 1];
    if EarnsOwn(lines, rateTable, now) {
      var i :| 0 <= i < |lines| && OwnAmount(lines[i], rateTable, now) > 0;
      if i < |init| {
        assert init[i] == lines[i];
      }
    }
    if EarnsOwn(init, rateTable, now) {
      var i :| 0 <= i < |init| && OwnAmount(init[i], rateTable, now) > 0;
      assert lines[i] == init[i];
    }
  }

  lemma HasOwnPurchaseEntryAppend(a: seq<CashbackEntry>, b: seq<CashbackEntry>, orderId: OrderId)
    ensures HasOwnPurchaseEntry(a + b, orderId) <==> HasOwnPurchaseEntry(a, orderId) || HasOwnPurchaseEntry(b, orderId)
  {
    if HasOwnPurchaseEntry(a + b, orderId) {
      var k :| 0 <= k < |a + b| && (a + b)[k].orderId == Some(orderId) && (a + b)[k].kind == OwnPurchase;
      if k >= |a| {
        assert (a + b)[k] == b[k - |a|];
      }
    }
    if HasOwnPurchaseEntry(a, orderId) {
      var k :| 0 <= k < |a| && a[k].orderId == Some(orderId) && a[k].kind == OwnPurchase;
      assert (a + b)[k] == a[k];
    }
    if HasOwnPurchaseEntry(b, orderId) {
      var k :| 0 <= k < |b| && b[k].orderId == Some(orderId) && b[k].kind == OwnPurchase;
      assert (a + b)[|a| + k] == b[k];
    }
  }

  lemma LineEntriesGuard(
    item: OrderItem, rateTable: seq<ProductCashbackRate>, buyerId: UserId, referrerId: Option<UserId>,
    orderId: OrderId, deliveredAt: int, now: int)
    ensures HasOwnPurchaseEntry(LineEntries(item, rateTable, buyerId, referrerId, orderId, deliveredAt, now), orderId)
      <==> OwnAmount(item, rateTable, now) > 0
  {
    var line := LineEntries(item, rateTable, buyerId, referrerId, orderId, deliveredAt, now);
    LineEntriesShape(item, rateTable, buyerId, referrerId, orderId, deliveredAt, now);
    if OwnAmount(item, rateTable, now) > 0 {
      var e :| e in line && e.kind == OwnPurchase;
      var k :| 0 <= k < |line| && line[k] == e;
    }
    if HasOwnPurchaseEntry(line, orderId) {
      var k :| 0 <= k < |line| && line[k].orderId == Some(orderId) && line[k].kind == OwnPurchase;
      assert line[k] in line;
    }
  }

  /**
   * After accrual the guard trips exactly when it tripped before or some line
   * earned the buyer a positive own amount.
   */
  lemma {:induction false} GuardTripsIff(
    entries: seq<CashbackEntry>, lines: seq<OrderItem>, rateTable: seq<ProductCashbackRate>,
    buyerId: UserId, referrerId: Option<UserId>, orderId: OrderId, deliveredAt: int, now: int)
    ensures HasOwnPurchaseEntry(entries + AccrualEntries(lines, rateTable, buyerId, referrerId, orderId, deliveredAt, now), orderId)
      <==> HasOwnPurchaseEntry(entries, orderId) || EarnsOwn(lines, rateTable, now)
  {
    if lines == [] {
      assert entries + AccrualEntries(lines, rateTable, buyerId, referrerId, orderId, deliveredAt, now) == entries;
    } else {
      var init := lines[..|lines| - 1];
      var last := lines[|lines| - 1];
      var prev := entries + AccrualEntries(init, rateTable, buyerId, referrerId, orderId, deliveredAt, now);
      var line := LineEntries(last, rateTable, buyerId, referrerId, orderId, deliveredAt, now);
      assert entries + AccrualEntries(lines, rateTable, buyerId, referrerId, orderId, deliveredAt, now) == prev + line;
      GuardTripsIff(entries, init, rateTable, buyerId, referrerId, orderId, deliveredAt, now);
      HasOwnPurchaseEntryAppend(prev, line, orderId);
      LineEntriesGuard(last, rateTable, buyerId, referrerId, orderId, deliveredAt, now);
      EarnsOwnSnoc(lines, rateTable, now);
    }
  }

  /**
   * With the default 5% / 3% rates and non-negative line totals, accrual either
   * writes nothing or writes an own entry, so a repeated call finds the guard set.
   */
  lemma {:induction false} DefaultRatesAccrualIsGuarded(
    entries: seq<CashbackEntry>, lines: seq<OrderItem>, rateTable: seq<ProductCashbackRate>,
    buyerId: UserId, referrerId: Option<UserId>, orderId: OrderId, deliveredAt: int, now: int)
    requires forall i, k :: 0 <= i < |lines| && 0 <= k < |rateTable| ==>
      !Applicable(rateTable[k], lines[i].productId, now)
    requires forall i :: 0 <= i < |lines| ==> lines[i].price * lines[i].quantity >= 0
    ensures var acc := AccrualEntries(lines, rateTable, buyerId, referrerId, orderId, deliveredAt, now);
      acc == [] || HasOwnPurchaseEntry(entries + acc, orderId)
  {
    var acc := AccrualEntries(lines, rateTable, buyerId, referrerId, orderId, deliveredAt, now);
    GuardTripsIff(entries, lines, rateTable, buyerId, referrerId, orderId, deliveredAt, now);
    if !EarnsOwn(lines, rateTable, now) {
      forall i | 0 <= i < |lines| ensures ReferralAmount(lines[i], rateTable, now) <= 0 {
        CashbackMonotoneInPercent(lines[i].price * lines[i].quantity, DefaultReferralPercent, DefaultOwnPercent);
      }
      NothingAccruedWithoutAmounts(lines, rateTable, buyerId, referrerId, orderId, deliveredAt, now);
    }
  }

  lemma {:induction false} NothingAccruedWithoutAmounts(
    lines: seq<OrderItem>, rateTable: seq<ProductCashbackRate>,
    buyerId: UserId, referrerId: Option<UserId>, orderId: OrderId, deliveredAt: int, now: int)
    requires forall i :: 0 <= i < |lines| ==> OwnAmount(lines[i], rateTable, now) <= 0
    requires forall i :: 0 <= i < |lines| ==> ReferralAmount(lines[i], rateTable, now) <= 0
    ensures AccrualEntries(lines, rateTable, buyerId, referrerId, orderId, deliveredAt, now) == []
  {
    if lines != [] {
      var init := lines[..|lines| - 1];
      assert forall i :: 0 <= i < |init| ==> init[i] == lines[i];
      NothingAccruedWithoutAmounts(init, rateTable, buyerId, referrerId, orderId, deliveredAt, now);
      var line := LineEntries(lines[|lines| - 1], rateTable, buyerId, referrerId, orderId, deliveredAt, now);
      LineEntriesShape(lines[|lines| - 1], rateTable, buyerId, referrerId, orderId, deliveredAt, now);
    }
  }

  /**
   * A product rate of 0% own and 3% referral: accrual for a referred buyer
   * writes a referral entry but no own entry, so the guard stays unset and a
   * repeated call accrues the referral cashback again.
   */
  lemma ReferralOnlyRateBypassesGuard(deliveredAt: int, now: int)
    ensures var rateTable := [ProductCashbackRate(9, 0, 300, now, None)];
      var lines := [OrderItem(5, 9, 1, 100_000)];
      var acc := AccrualEntries(lines, rateTable, 1, Some(2), 5, deliveredAt, now);
      && acc == [NewPendingEntry(2, 3000, ReferralPurchase, Some(5), Some(1), deliveredAt)]
      && !HasOwnPurchaseEntry(acc, 5)
  {
    var rateTable := [ProductCashbackRate(9, 0, 300, now, None)];
    var lines := [OrderItem(5, 9, 1, 100_000)];
    assert CashbackRates(rateTable, 9, now) == Rates(0, 300);
    assert lines[..0] == [];
  }

  /**
   * Buyer 1, referred by user 2, receives a delivered line of 1000.00 with the
   * default rates: one pending 50.00 entry for the buyer and one pending 30.00
   * entry for the referrer; without a referrer only the 50.00 entry.
   */
  lemma DefaultSplitScenario(deliveredAt: int, now: int)
    ensures var lines := [OrderItem(5, 9, 1, 100_000)];
      && AccrualEntries(lines, [], 1, Some(2), 5, deliveredAt, now) ==
         [ NewPendingEntry(1, 5000, OwnPurchase, Some(5), None, deliveredAt),
           NewPendingEntry(2, 3000, ReferralPurchase, Some(5), Some(1), deliveredAt) ]
      && AccrualEntries(lines, [], 1, None, 5, deliveredAt, now) ==
         [ NewPendingEntry(1, 5000, OwnPurchase, Some(5), None, deliveredAt) ]
  {
    var lines := [OrderItem(5, 9, 1, 100_000)];
    assert lines[..0] == [];
    assert CashbackRates([], 9, now) == Rates(500, 300);
  }

  /** Writes the entries of one order item: the loop body of the accrual. */
  method AccrueLine(
    db: Store, item: OrderItem, buyerId: UserId, referrerId: Option<UserId>,
    orderId: OrderId, deliveredAt: int, now: int)
    modifies db`entries
    ensures db.entries == old(db.entries) + LineEntries(item, db.rates, buyerId, referrerId, orderId, deliveredAt, now)
  {
    var rates := CashbackRates(db.rates, item.productId, now);
    var itemTotal := item.price * item.quantity;
    var ownAmount := CalculateCashback(itemTotal, rates.ownPercent);
    var referralAmount := CalculateCashback(itemTotal, rates.referralPercent);
    if ownAmount > 0 {
      var e := CreateCashbackEntry(db, buyerId, ownAmount, OwnPurchase, Some(orderId), None, deliveredAt);
    }
    if referrerId.Some? && referralAmount > 0 {
      var e := CreateCashbackEntry(db, referrerId.value, referralAmount, ReferralPurchase, Some(orderId), Some(buyerId), deliveredAt);
    }
  }

  /** The accrual loop over an order's items. */
  method AccrueLines(
    db: Store, lines: seq<OrderItem>, buyerId: UserId, referrerId: Option<UserId>,
    orderId: OrderId, deliveredAt: int, now: int)
    modifies db`entries
    ensures db.entries == old(db.entries) + AccrualEntries(lines, db.rates, buyerId, referrerId, orderId, deliveredAt, now)
  {
    ghost var rates := db.rates;
    for i := 0 to |lines|
      invariant db.rates == rates
      invariant db.entries == old(db.entries) + AccrualEntries(lines[..i], rates, buyerId, referrerId, orderId, deliveredAt, now)
    {
      ghost var prefix := AccrualEntries(lines[..i], rates, buyerId, referrerId, orderId, deliveredAt, now);
      ghost var line := LineEntries(lines[i], rates, buyerId, referrerId, orderId, deliveredAt, now);
      AccrueLine(db, lines[i], buyerId, referrerId, orderId, deliveredAt, now);
      assert lines[..i + 1][..i] == lines[..i];
      assert AccrualEntries(lines[..i + 1], rates, buyerId, referrerId, orderId, deliveredAt, now) == prefix + line;
      assert old(db.entries) + prefix + line == old(db.entries) + (prefix + line);
    }
    assert lines[..|lines|] == lines;
  }

  /**
   * Accrues cashback for a delivered order: nothing when the order already has
   * an OWN_PURCHASE entry; otherwise, for each of the order's items, an own
   * entry for the buyer and a referral entry for the buyer's referrer.
   */
  method AccrueCashbackOnDelivery(db: Store, orderId: OrderId, deliveredAt: int, now: int) returns (r: Result<()>)
    modifies db`entries
    ensures HasOwnPurchaseEntry(old(db.entries), orderId) ==> r == Ok(()) && db.entries == old(db.entries)
    ensures !HasOwnPurchaseEntry(old(db.entries), orderId) && FindOrder(db.orders, orderId).None? ==>
      r == Err(OrderNotFound) && db.entries == old(db.entries)
    ensures !HasOwnPurchaseEntry(old(db.entries), orderId) && FindOrder(db.orders, orderId).Some? ==>
      var buyerId := FindOrder(db.orders, orderId).value.userId;
      && r == Ok(())
      && db.entries == old(db.entries) + AccrualEntries(
           ItemsOf(db.items, orderId), db.rates, buyerId, ReferrerOf(db.users, buyerId), orderId, deliveredAt, now)
  {
    if HasOwnPurchaseEntry(db.entries, orderId) {
      return Ok(());
    }
    var found := FindOrder(db.orders, orderId);
    if found.None? {
      return Err(OrderNotFound);
    }
    var buyerId := found.value.userId;
    var referrerId := ReferrerOf(db.users, buyerId);
    var lines := ItemsOf(db.items, orderId);
    AccrueLines(db, lines, buyerId, referrerId, orderId, deliveredAt, now);
    r := Ok(());
  }
}
