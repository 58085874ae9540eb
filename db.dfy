/**
 * The relational store the incentive engine reads and writes: one record type
 * per table of the storefront's schema and a class holding the tables.
 *
 * Conventions used throughout the model:
 *  - ids are naturals (the store's generated string ids are opaque);
 *  - money is an integer number of cents;
 *  - instants are integer milliseconds since the epoch;
 *  - percentages are integers in hundredths of a percent (500 is 5%).
 */
module Db {

  datatype Option<T> = None | Some(value: T)

  type UserId = nat
  type OrderId = nat
  type ProductId = nat

  /** Milliseconds in one day: 24 * 60 * 60 * 1000. */
  const DayMs: int := 86_400_000

  /** USER and ADMIN in the schema. */
  datatype Role = Customer | Admin

  datatype User = User(
    id: UserId,
    role: Role,
    referralCode: string,
    referredById: Option<UserId>)

  datatype OrderStatus = New | Paid | Processing | Shipped | Delivered | Cancelled | Refunded

  datatype Order = Order(
    id: OrderId,
    userId: UserId,
    status: OrderStatus,
    subtotal: int,
    shippingCost: int,
    total: int,
    isFreeiPhoneBonus: bool,
    deliveredAt: Option<int>)

  datatype OrderItem = OrderItem(orderId: OrderId, productId: ProductId, quantity: int, price: int)

  datatype Product = Product(name: string, stock: int)

  /** A time-scoped cashback rate for one product; `validTo == None` is open-ended. */
  datatype ProductCashbackRate = ProductCashbackRate(
    productId: ProductId,
    ownPurchasePercent: int,
    referralPercent: int,
    validFrom: int,
    validTo: Option<int>)

  datatype CashbackType =
    | OwnPurchase
    | ReferralPurchase
    | Bonus10Referrals
    | Bonus15Referrals
    | Bonus20Referrals

  datatype CashbackStatus = Pending | Available | PaidOut

  /** One ledger row. `kind` is the schema's `type` column. */
  datatype CashbackEntry = CashbackEntry(
    userId: UserId,
    amount: int,
    kind: CashbackType,
    status: CashbackStatus,
    orderId: Option<OrderId>,
    referralId: Option<UserId>,
    availableAt: int)

  /** The errors the core raises, one per message of the source. */
  datatype Error =
    | UserNotFound
    | ProductNotFound
    | OrderNotFound
    | InsufficientStockFor(productName: string)
    | InsufficientStock

  datatype Result<T> = Ok(value: T) | Err(error: Error)

  /**
   * The store. Each table is a field the operations reassign; every
   * transaction of the source is one method call. `nextOrderId` stands for the
   * store's generator of fresh order ids.
   */
  class Store {
    var users: seq<User>
    var products: map<ProductId, Product>
    var orders: seq<Order>
    var items: seq<OrderItem>
    var rates: seq<ProductCashbackRate>
    var entries: seq<CashbackEntry>
    var nextOrderId: OrderId

    /** Order ids are below the generator, and no product's stock is negative. */
    ghost predicate Valid()
      reads this
    {
      && (forall i :: 0 <= i < |orders| ==> orders[i].id < nextOrderId)
      && (forall p :: p in products ==> products[p].stock >= 0)
    }

    constructor (users: seq<User>, products: map<ProductId, Product>, rates: seq<ProductCashbackRate>)
      requires forall p :: p in products ==> products[p].stock >= 0
      ensures Valid()
      ensures this.users == users && this.products == products && this.rates == rates
      ensures orders == [] && items == [] && entries == []
    {
      this.users := users;
      this.products := products;
      this.rates := rates;
      orders := [];
      items := [];
      entries := [];
      nextOrderId := 0;
    }
  }
}
