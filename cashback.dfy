/**
 * The cashback ledger: rate selection, cent rounding, creation of pending
 * entries with a 14-day hold, and the sweep that promotes matured entries.
 */
module Cashback {
  import opened Db

  const HoldDays: int := 14
  /** The hold period in milliseconds. */
  const HoldMs: int := HoldDays * DayMs
  /** 5% and 3%, in hundredths of a percent. */
  const DefaultOwnPercent: int := 500
  const DefaultReferralPercent: int := 300
  /** The minimum withdrawal of 10 currency units, in cents. */
  const MinWithdrawal: int := 1000

  datatype Rates = Rates(ownPercent: int, referralPercent: int)

  // ---------------------------------------------------------------------------
  // Rate selection

  /** A rate applies to a product at `now` when its validity window contains `now` (both ends inclusive). */
  predicate Applicable(rate: ProductCashbackRate, productId: ProductId, now: int)
  {
    && rate.productId == productId
    && rate.validFrom <= now
    && (rate.validTo.None? || rate.validTo.value >= now)
  }

  /**
   * The applicable rate with the latest `validFrom` (the first in the table
   * among equally recent ones), or None when no rate applies.
   */
  function LatestApplicableRate(rates: seq<ProductCashbackRate>, productId: ProductId, now: int)
    : (r: Option<ProductCashbackRate>)
    ensures r.None? <==> forall i :: 0 <= i < |rates| ==> !Applicable(rates[i], productId, now)
    ensures r.Some? ==> r.value in rates && Applicable(r.value, productId, now)
    ensures r.Some? ==>
      forall i :: 0 <= i < |rates| && Applicable(rates[i], productId, now) ==> rates[i].validFrom <= r.value.validFrom
  {
    if rates == [] then None
    else
      var rest := LatestApplicableRate(rates[1..], productId, now);
      if !Applicable(rates[0], productId, now) then rest
      else if rest.Some? && rest.value.validFrom > rates[0].validFrom then rest
      else Some(rates[0])
  }

  /** The own and referral percentages for a product at `now`. */
  function CashbackRates(rates: seq<ProductCashbackRate>, productId: ProductId, now: int): (r: Rates)
    ensures (forall i :: 0 <= i < |rates| ==> !Applicable(rates[i], productId, now)) ==>
      r == Rates(DefaultOwnPercent, DefaultReferralPercent)
    ensures (exists i :: 0 <= i < |rates| && Applicable(rates[i], productId, now)) ==>
      exists i :: 0 <= i < |rates| && Applicable(rates[i], productId, now)
        && r == Rates(rates[i].ownPurchasePercent, rates[i].referralPercent)
        && forall j :: 0 <= j < |rates| && Applicable(rates[j], productId, now) ==> rates[j].validFrom <= rates[i].validFrom
  {
    match LatestApplicableRate(rates, productId, now)
    case None => Rates(DefaultOwnPercent, DefaultReferralPercent)
    case Some(rate) => Rates(rate.ownPurchasePercent, rate.referralPercent)
  }

  // ---------------------------------------------------------------------------
  // Cent rounding

  /**
   * `percent` of `amount`, rounded to the nearest cent with halves rounded up:
   * the result is the integer nearest to amount * percent / 10000.
   */
  function CalculateCashback(amount: int, percent: int): (r: int)
    ensures 2 * (amount * percent) - 10000 < 20000 * r <= 2 * (amount * percent) + 10000
  {
    (2 * (amount * percent) + 10000) / 20000
  }

  lemma CashbackOfZero(amount: int, percent: int)
    requires amount == 0 || percent == 0
    ensures CalculateCashback(amount, percent) == 0
  {
    assert amount * percent == 0;
  }

  /** No rounding happens when the exact amount is a whole number of cents. */
  lemma CashbackExact(amount: int, percent: int)
    requires (amount * percent) % 10000 == 0
    ensures 10000 * CalculateCashback(amount, percent) == amount * percent
  {
    var x := amount * percent;
    var q := x / 10000;
    assert x == 10000 * q;
    var r := CalculateCashback(amount, percent);
    assert 20000 * q - 10000 < 20000 * r <= 20000 * q + 10000;
  }

  /** For a non-negative amount, a larger percentage never yields less cashback. */
  lemma CashbackMonotoneInPercent(amount: int, p1: int, p2: int)
    requires amount >= 0 && p1 <= p2
    ensures CalculateCashback(amount, p1) <= CalculateCashback(amount, p2)
  {
    assert amount * p1 <= amount * p2 by {
      assert amount * p2 - amount * p1 == amount * (p2 - p1);
    }
  }

  lemma CashbackNonNegative(amount: int, percent: int)
    requires amount >= 0 && percent >= 0
    ensures CalculateCashback(amount, percent) >= 0
  {
    assert amount * percent >= 0;
  }

  // ---------------------------------------------------------------------------
  // Entries and the maturation sweep

  /** The row written for a cashback entry: PENDING, available HoldDays after delivery. */
  function NewPendingEntry(
    userId: UserId, amount: int, kind: CashbackType,
    orderId: Option<OrderId>, referralId: Option<UserId>, deliveredAt: int): CashbackEntry
  {
    CashbackEntry(userId, amount, kind, Pending, orderId, referralId, deliveredAt + HoldMs)
  }

  /** Appends one pending entry to the ledger and returns it. */
  method CreateCashbackEntry(
    db: Store, userId: UserId, amount: int, kind: CashbackType,
    orderId: Option<OrderId>, referralId: Option<UserId>, deliveredAt: int)
    returns (e: CashbackEntry)
    modifies db`entries
    ensures e == NewPendingEntry(userId, amount, kind, orderId, referralId, deliveredAt)
    ensures e.status == Pending && e.availableAt == deliveredAt + HoldMs
    ensures e.userId == userId && e.amount == amount && e.kind == kind
    ensures e.orderId == orderId && e.referralId == referralId
    ensures db.entries == old(db.entries) + [e]
  {
    e := NewPendingEntry(userId, amount, kind, orderId, referralId, deliveredAt);
    db.entries := db.entries + [e];
  }

  predicate Matured(e: CashbackEntry, now: int)
  {
    e.status == Pending && e.availableAt <= now
  }

  function Promote(e: CashbackEntry, now: int): CashbackEntry
  {
    if Matured(e, now) then e.(status := Available) else e
  }

  /** The ledger after the maturation sweep at `now`. */
  function Sweep(s: seq<CashbackEntry>, now: int): (r: seq<CashbackEntry>)
    ensures |r| == |s|
  {
    seq(|s|, i requires 0 <= i < |s| => Promote(s[i], now))
  }

  /** Promotes, in place, every PENDING entry whose hold period has ended. */
  method ProcessAvailableCashback(db: Store, now: int)
    modifies db`entries
    ensures db.entries == Sweep(old(db.entries), now)
  {
    var i := 0;
    while i < |db.entries|
      invariant 0 <= i <= |db.entries| == |old(db.entries)|
      invariant forall k :: 0 <= k < i ==> db.entries[k] == Promote(old(db.entries)[k], now)
      invariant forall k :: i <= k < |db.entries| ==> db.entries[k] == old(db.entries)[k]
    {
      if Matured(db.entries[i], now) {
        db.entries := db.entries[i := db.entries[i].(status := Available)];
      }
      i := i + 1;
    }
  }

  /** The sweep changes exactly the matured PENDING entries, and only their status, to AVAILABLE. */
  lemma SweepChangesExactlyMatured(s: seq<CashbackEntry>, now: int, i: int)
    requires 0 <= i < |s|
    ensures Sweep(s, now)[i] != s[i] <==> s[i].status == Pending && s[i].availableAt <= now
    ensures Sweep(s, now)[i] == if Matured(s[i], now) then s[i].(status := Available) else s[i]
  {
  }

  function StatusRank(st: CashbackStatus): int
  {
    match st
    case Pending => 0
    case Available => 1
    case PaidOut => 2
  }

  /** Statuses only move forward, and entries whose hold has not ended stay PENDING. */
  lemma SweepNeverMovesBackward(s: seq<CashbackEntry>, now: int, i: int)
    requires 0 <= i < |s|
    ensures StatusRank(Sweep(s, now)[i].status) >= StatusRank(s[i].status)
    ensures s[i].status == Pending && s[i].availableAt > now ==> Sweep(s, now)[i].status == Pending
  {
  }

  lemma SweepIdempotent(s: seq<CashbackEntry>, now: int)
    ensures Sweep(Sweep(s, now), now) == Sweep(s, now)
  {
  }

  /** An earlier sweep makes no difference to a later one: the lazy on-read sweep loses nothing. */
  lemma SweepLaterSubsumesEarlier(s: seq<CashbackEntry>, t1: int, t2: int)
    requires t1 <= t2
    ensures Sweep(Sweep(s, t1), t2) == Sweep(s, t2)
  {
  }

  /** A new entry stays PENDING strictly before delivery plus 14 days and is promoted from then on. */
  lemma HoldPeriod(
    userId: UserId, amount: int, kind: CashbackType,
    orderId: Option<OrderId>, referralId: Option<UserId>, deliveredAt: int, now: int)
    ensures var e := NewPendingEntry(userId, amount, kind, orderId, referralId, deliveredAt);
      Sweep([e], now)[0].status == (if now < deliveredAt + 14 * 86_400_000 then Pending else Available)
  {
  }

  /** The minimum withdrawal amount. */
  function GetMinWithdrawal(): (r: int)
    ensures r == 1000
  {
    MinWithdrawal
  }
}
