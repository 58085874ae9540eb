/**
 * The referral graph reader and the free-iPhone eligibility gate. The store is
 * given as its user and order tables; `now` is an instant in milliseconds.
 */
module Referral {
  import opened Db

  /** "Active" looks back 90 days, "qualified" 365 days. */
  const ActiveWindowMs: int := 90 * DayMs
  const QualifyingWindowMs: int := 365 * DayMs
  const FreeiPhoneRequiredCount: int := 20

  // ---------------------------------------------------------------------------
  // Referral links

  /** The link a user shares: the base URL, then "/ref/", then the code. */
  function GetReferralUrl(code: string, baseUrl: string): (url: string)
    ensures |url| == |baseUrl| + 5 + |code|
    ensures url[..|baseUrl|] == baseUrl
    ensures url[|baseUrl|..|baseUrl| + 5] == "/ref/"
    ensures url[|baseUrl| + 5..] == code
  {
    baseUrl + "/ref/" + code
  }

  /** Under one base URL, distinct codes give distinct links. */
  lemma ReferralUrlDeterminesCode(c1: string, c2: string, baseUrl: string)
    requires GetReferralUrl(c1, baseUrl) == GetReferralUrl(c2, baseUrl)
    ensures c1 == c2
  {
    var url := GetReferralUrl(c1, baseUrl);
    assert c1 == url[|baseUrl| + 5..] == c2;
  }

  /** The id of the (first) user owning `code`, or None. */
  function ResolveReferral(users: seq<User>, code: string): (r: Option<UserId>)
    ensures r.None? <==> forall i :: 0 <= i < |users| ==> users[i].referralCode != code
    ensures r.Some? ==> exists i :: 0 <= i < |users| && users[i].referralCode == code && users[i].id == r.value
  {
    if users == [] then None
    else if users[0].referralCode == code then Some(users[0].id)
    else
      var r := ResolveReferral(users[1..], code);
      assert r.Some? ==> exists i :: 1 <= i < |users| && users[i].referralCode == code && users[i].id == r.value by {
        if r.Some? {
          var j :| 0 <= j < |users[1..]| && users[1..][j].referralCode == code && users[1..][j].id == r.value;
          assert users[j + 1] == users[1..][j];
        }
      }
      r
  }

  predicate UniqueCodes(users: seq<User>)
  {
    forall i, j :: 0 <= i < j < |users| ==> users[i].referralCode != users[j].referralCode
  }

  /** Referral codes are unique in the schema, so a code resolves to its owner. */
  lemma {:induction false} ResolveReferralFindsOwner(users: seq<User>, i: int)
    requires UniqueCodes(users)
    requires 0 <= i < |users|
    ensures ResolveReferral(users, users[i].referralCode) == Some(users[i].id)
  {
    if i > 0 {
      assert users[0].referralCode != users[i].referralCode;
      assert users[1..][i - 1] == users[i];
      ResolveReferralFindsOwner(users[1..], i - 1);
    }
  }

  // ---------------------------------------------------------------------------
  // Referrals and delivery windows

  /** The users whose `referredById` is `referrerId`, in table order. */
  function Referrals(users: seq<User>, referrerId: UserId): (r: seq<User>)
    ensures |r| <= |users|
    ensures forall u :: u in r <==> u in users && u.referredById == Some(referrerId)
  {
    if users == [] then []
    else
      (if users[0].referredById == Some(referrerId) then [users[0]] else []) + Referrals(users[1..], referrerId)
  }

  /** Each user appears in the referrals exactly as often as in the table, if they name `referrerId`. */
  lemma {:induction false} ReferralsCounts(users: seq<User>, referrerId: UserId)
    ensures forall u :: (multiset(Referrals(users, referrerId))[u] ==
      if u.referredById == Some(referrerId) then multiset(users)[u] else 0)
  {
    if users != [] {
      ReferralsCounts(users[1..], referrerId);
      assert users == [users[0]] + users[1..];
    }
  }

  predicate DeliveredSince(o: Order, since: int)
  {
    o.status == Delivered && o.deliveredAt.Some? && o.deliveredAt.value >= since
  }

  /** The user has at least one DELIVERED order delivered at or after `since`. */
  predicate HasDeliveredSince(orders: seq<Order>, userId: UserId, since: int)
  {
    exists i :: 0 <= i < |orders| && orders[i].userId == userId && DeliveredSince(orders[i], since)
  }

  /** Those of `referred` that have a delivery at or after `since`, in order. */
  function WithDeliverySince(referred: seq<User>, orders: seq<Order>, since: int): (r: seq<User>)
    ensures |r| <= |referred|
    ensures forall u :: u in r <==> u in referred && HasDeliveredSince(orders, u.id, since)
  {
    if referred == [] then []
    else
      (if HasDeliveredSince(orders, referred[0].id, since) then [referred[0]] else [])
      + WithDeliverySince(referred[1..], orders, since)
  }

  /** Each referral is kept exactly as often as it is listed, if it has a delivery since `since`. */
  lemma {:induction false} WithDeliverySinceCounts(referred: seq<User>, orders: seq<Order>, since: int)
    ensures forall u :: (multiset(WithDeliverySince(referred, orders, since))[u] ==
      if HasDeliveredSince(orders, u.id, since) then multiset(referred)[u] else 0)
  {
    if referred != [] {
      WithDeliverySinceCounts(referred[1..], orders, since);
      assert referred == [referred[0]] + referred[1..];
    }
  }

  /**
   * Reference count, in one pass over the user table: the rows that name
   * `referrerId` as referrer and have a delivery at or after `since`.
   */
  function ReferredWithDeliveryCount(users: seq<User>, orders: seq<Order>, referrerId: UserId, since: int): nat
  {
    if users == [] then 0
    else
      (if users[0].referredById == Some(referrerId) && HasDeliveredSince(orders, users[0].id, since) then 1 else 0)
      + ReferredWithDeliveryCount(users[1..], orders, referrerId, since)
  }

  /** Filtering the referrals, then filtering by delivery, counts the same rows as the one-pass count. */
  lemma {:induction false} FilteredCountIsReferenceCount(users: seq<User>, orders: seq<Order>, referrerId: UserId, since: int)
    ensures |WithDeliverySince(Referrals(users, referrerId), orders, since)| == ReferredWithDeliveryCount(users, orders, referrerId, since)
  {
    if users != [] {
      var rest := Referrals(users[1..], referrerId);
      FilteredCountIsReferenceCount(users[1..], orders, referrerId, since);
      if users[0].referredById == Some(referrerId) {
        var all := [users[0]] + rest;
        assert Referrals(users, referrerId) == all;
        assert all[0] == users[0] && all[1..] == rest;
      } else {
        assert Referrals(users, referrerId) == rest;
      }
    }
  }

  /** The number of direct referrals with a DELIVERED order within the last 90 days. */
  function ActiveReferralsCount(users: seq<User>, orders: seq<Order>, userId: UserId, now: int): (n: nat)
    ensures n <= |Referrals(users, userId)|
    ensures n == ReferredWithDeliveryCount(users, orders, userId, now - ActiveWindowMs)
  {
    FilteredCountIsReferenceCount(users, orders, userId, now - ActiveWindowMs);
    |WithDeliverySince(Referrals(users, userId), orders, now - ActiveWindowMs)|
  }

  /** The number of direct referrals with a DELIVERED order within the last 365 days. */
  function GetFreeiPhoneQualifiedReferralsCount(users: seq<User>, orders: seq<Order>, userId: UserId, now: int)
    : (n: nat)
    ensures n <= |Referrals(users, userId)|
    ensures n == ReferredWithDeliveryCount(users, orders, userId, now - QualifyingWindowMs)
  {
    FilteredCountIsReferenceCount(users, orders, userId, now - QualifyingWindowMs);
    |WithDeliverySince(Referrals(users, userId), orders, now - QualifyingWindowMs)|
  }

  /** Looking further back never loses a referral: the wider window keeps everyone the narrower one keeps. */
  lemma {:induction false} WiderWindowKeepsMore(referred: seq<User>, orders: seq<Order>, since1: int, since2: int)
    requires since2 <= since1
    ensures |WithDeliverySince(referred, orders, since1)| <= |WithDeliverySince(referred, orders, since2)|
    ensures forall u :: u in WithDeliverySince(referred, orders, since1) ==> u in WithDeliverySince(referred, orders, since2)
  {
    if referred != [] {
      forall id: UserId | HasDeliveredSince(orders, id, since1) ensures HasDeliveredSince(orders, id, since2) {
        var i :| 0 <= i < |orders| && orders[i].userId == id && DeliveredSince(orders[i], since1);
        assert DeliveredSince(orders[i], since2);
      }
      WiderWindowKeepsMore(referred[1..], orders, since1, since2);
    }
  }

  /** Every active referral is also qualified, so there are never more active than qualified ones. */
  lemma ActiveReferralsAreQualified(users: seq<User>, orders: seq<Order>, userId: UserId, now: int)
    ensures ActiveReferralsCount(users, orders, userId, now)
      <= GetFreeiPhoneQualifiedReferralsCount(users, orders, userId, now)
  {
    WiderWindowKeepsMore(Referrals(users, userId), orders, now - ActiveWindowMs, now - QualifyingWindowMs);
  }

  /** A referral whose only delivery was 100 days ago is qualified but not active. */
  lemma WindowsDiffer(now: int)
    ensures var referrer := User(0, Customer, "A", None);
      var buyer := User(1, Customer, "B", Some(0));
      var order := Order(7, 1, Delivered, 100, 0, 100, false, Some(now - 100 * DayMs));
      && GetFreeiPhoneQualifiedReferralsCount([referrer, buyer], [order], 0, now) == 1
      && ActiveReferralsCount([referrer, buyer], [order], 0, now) == 0
  {
    var referrer := User(0, Customer, "A", None);
    var buyer := User(1, Customer, "B", Some(0));
    var order := Order(7, 1, Delivered, 100, 0, 100, false, Some(now - 100 * DayMs));
    assert Referrals([referrer, buyer], 0) == [buyer] by {
      assert [referrer, buyer][1..] == [buyer];
      assert [buyer][1..] == [];
    }
    assert [buyer][1..] == [];
    assert HasDeliveredSince([order], 1, now - QualifyingWindowMs) by {
      assert DeliveredSince([order][0], now - QualifyingWindowMs);
    }
    assert !HasDeliveredSince([order], 1, now - ActiveWindowMs);
  }

  // ---------------------------------------------------------------------------
  // Referral statistics

  /** DELIVERED, SHIPPED, PROCESSING and PAID orders count as purchases. */
  predicate CountsAsPurchase(s: OrderStatus)
  {
    s == Delivered || s == Shipped || s == Processing || s == Paid
  }

  /** The user's purchase orders, in table order. */
  function PurchaseOrders(orders: seq<Order>, userId: UserId): (r: seq<Order>)
    ensures |r| <= |orders|
    ensures forall o :: o in r <==> o in orders && o.userId == userId && CountsAsPurchase(o.status)
  {
    if orders == [] then []
    else
      (if orders[0].userId == userId && CountsAsPurchase(orders[0].status) then [orders[0]] else [])
      + PurchaseOrders(orders[1..], userId)
  }

  /** Each of the user's purchase orders is kept exactly as often as in the table. */
  lemma {:induction false} PurchaseOrdersCounts(orders: seq<Order>, userId: UserId)
    ensures forall o :: (multiset(PurchaseOrders(orders, userId))[o] ==
      if o.userId == userId && CountsAsPurchase(o.status) then multiset(orders)[o] else 0)
  {
    if orders != [] {
      PurchaseOrdersCounts(orders[1..], userId);
      assert orders == [orders[0]] + orders[1..];
    }
  }

  function SumTotals(orders: seq<Order>): int
  {
    if orders == [] then 0 else orders[0].total + SumTotals(orders[1..])
  }

  datatype ReferralSummary = ReferralSummary(userId: UserId, purchaseCount: nat, totalSpent: int, isActive: bool)

  datatype ReferralStats = ReferralStats(total: nat, active: nat, inactive: int, referrals: seq<ReferralSummary>)

  /** One row of the referral list: purchases, total spent, and the 90-day activity flag. */
  function Summary(orders: seq<Order>, u: User, now: int): ReferralSummary
  {
    var bought := PurchaseOrders(orders, u.id);
    ReferralSummary(
      u.id, |bought|, SumTotals(bought),
      exists i :: 0 <= i < |bought| && DeliveredSince(bought[i], now - ActiveWindowMs))
  }

  /** A row's activity flag, computed over the purchase orders, agrees with the count's predicate. */
  lemma SummaryActiveAgrees(orders: seq<Order>, u: User, now: int)
    ensures Summary(orders, u, now).isActive <==> HasDeliveredSince(orders, u.id, now - ActiveWindowMs)
  {
    var bought := PurchaseOrders(orders, u.id);
    var since := now - ActiveWindowMs;
    if HasDeliveredSince(orders, u.id, since) {
      var i :| 0 <= i < |orders| && orders[i].userId == u.id && DeliveredSince(orders[i], since);
      assert orders[i] in bought;
      var j :| 0 <= j < |bought| && bought[j] == orders[i];
      assert DeliveredSince(bought[j], since);
    }
    if Summary(orders, u, now).isActive {
      var j :| 0 <= j < |bought| && DeliveredSince(bought[j], since);
      assert bought[j] in orders;
      var i :| 0 <= i < |orders| && orders[i] == bought[j];
      assert orders[i].userId == u.id && DeliveredSince(orders[i], since);
    }
  }

  function Summaries(referred: seq<User>, orders: seq<Order>, now: int): (r: seq<ReferralSummary>)
    ensures |r| == |referred|
    ensures forall i :: 0 <= i < |referred| ==> r[i] == Summary(orders, referred[i], now)
  {
    if referred == [] then []
    else [Summary(orders, referred[0], now)] + Summaries(referred[1..], orders, now)
  }

  function CountActive(rows: seq<ReferralSummary>): nat
  {
    if rows == [] then 0 else (if rows[0].isActive then 1 else 0) + CountActive(rows[1..])
  }

  /** Counting the rows flagged active gives the same number as the active count. */
  lemma {:induction false} ActiveFlagsMatchCount(referred: seq<User>, orders: seq<Order>, now: int)
    ensures CountActive(Summaries(referred, orders, now)) == |WithDeliverySince(referred, orders, now - ActiveWindowMs)|
  {
    if referred != [] {
      SummaryActiveAgrees(orders, referred[0], now);
      assert Summaries(referred, orders, now)[1..] == Summaries(referred[1..], orders, now);
      ActiveFlagsMatchCount(referred[1..], orders, now);
    }
  }

  /** Total, active and inactive referral counts and the per-referral rows. */
  function GetReferralStats(users: seq<User>, orders: seq<Order>, userId: UserId, now: int): (r: ReferralStats)
    ensures r.total == |Referrals(users, userId)|
    ensures r.referrals == Summaries(Referrals(users, userId), orders, now)
    ensures r.active == ActiveReferralsCount(users, orders, userId, now)
    ensures 0 <= r.active <= r.total && r.inactive == r.total - r.active
    ensures |r.referrals| == r.total
    ensures CountActive(r.referrals) == r.active
    ensures forall i :: 0 <= i < |r.referrals| ==>
      r.referrals[i].purchaseCount == |PurchaseOrders(orders, r.referrals[i].userId)|
      && r.referrals[i].totalSpent == SumTotals(PurchaseOrders(orders, r.referrals[i].userId))
  {
    var referred := Referrals(users, userId);
    var total := |referred|;
    var active := ActiveReferralsCount(users, orders, userId, now);
    ActiveFlagsMatchCount(referred, orders, now);
    ReferralStats(total, active, total - active, Summaries(referred, orders, now))
  }

  // ---------------------------------------------------------------------------
  // The qualified roster

  /** The user's DELIVERED orders delivered at or after `since`, in table order. */
  function DeliveredOrdersSince(orders: seq<Order>, userId: UserId, since: int): (r: seq<Order>)
    ensures forall o :: o in r <==> o in orders && o.userId == userId && DeliveredSince(o, since)
    ensures |r| > 0 <==> HasDeliveredSince(orders, userId, since)
  {
    if orders == [] then []
    else
      var rest := DeliveredOrdersSince(orders[1..], userId, since);
      assert HasDeliveredSince(orders[1..], userId, since) ==> HasDeliveredSince(orders, userId, since) by {
        if HasDeliveredSince(orders[1..], userId, since) {
          var i :| 0 <= i < |orders[1..]| && orders[1..][i].userId == userId && DeliveredSince(orders[1..][i], since);
          assert orders[i + 1] == orders[1..][i];
        }
      }
      assert HasDeliveredSince(orders, userId, since) ==>
        (orders[0].userId == userId && DeliveredSince(orders[0], since)) || HasDeliveredSince(orders[1..], userId, since) by {
        if HasDeliveredSince(orders, userId, since) && !(orders[0].userId == userId && DeliveredSince(orders[0], since)) {
          var i :| 0 <= i < |orders| && orders[i].userId == userId && DeliveredSince(orders[i], since);
          assert orders[1..][i - 1] == orders[i];
        }
      }
      (if orders[0].userId == userId && DeliveredSince(orders[0], since) then [orders[0]] else []) + rest
  }

  /** Each of the user's orders delivered since `since` is kept exactly as often as in the table. */
  lemma {:induction false} DeliveredOrdersSinceCounts(orders: seq<Order>, userId: UserId, since: int)
    ensures forall o :: (multiset(DeliveredOrdersSince(orders, userId, since))[o] ==
      if o.userId == userId && DeliveredSince(o, since) then multiset(orders)[o] else 0)
  {
    if orders != [] {
      DeliveredOrdersSinceCounts(orders[1..], userId, since);
      assert orders == [orders[0]] + orders[1..];
    }
  }

  /** The latest delivery instant of a non-empty list of delivered orders. */
  function LatestDelivery(os: seq<Order>): (d: int)
    requires |os| > 0 && forall o :: o in os ==> o.deliveredAt.Some?
    ensures exists i :: 0 <= i < |os| && os[i].deliveredAt.value == d
    ensures forall i :: 0 <= i < |os| ==> os[i].deliveredAt.value <= d
  {
    if |os| == 1 then os[0].deliveredAt.value
    else
      var rest := LatestDelivery(os[1..]);
      assert forall i :: 1 <= i < |os| ==> os[i] == os[1..][i - 1];
      if os[0].deliveredAt.value >= rest then os[0].deliveredAt.value else rest
  }

  /**
   * One roster row. `firstPurchaseDeliveredAt` is the first element of the
   * source's list, which it orders by delivery time descending: the LATEST
   * qualifying delivery.
   */
  datatype QualifiedReferral = QualifiedReferral(
    userId: UserId,
    orders: seq<Order>,
    firstPurchaseDeliveredAt: int,
    orderCount: nat)

  /**
   * `row` is the roster row of `userId`: exactly the user's DELIVERED orders
   * inside the window, each as often as in the table, their number (at least
   * one), and the latest of their delivery instants.
   */
  ghost predicate IsRosterRow(row: QualifiedReferral, userId: UserId, orders: seq<Order>, since: int)
  {
    && row.userId == userId
    && row.orderCount == |row.orders| >= 1
    && (forall o :: o in row.orders <==> o in orders && o.userId == userId && DeliveredSince(o, since))
    && multiset(row.orders) == multiset(DeliveredOrdersSince(orders, userId, since))
    && (forall o :: o in row.orders ==> o.deliveredAt.value <= row.firstPurchaseDeliveredAt)
    && (exists o :: o in row.orders && o.deliveredAt.value == row.firstPurchaseDeliveredAt)
  }

  function RosterRow(u: User, orders: seq<Order>, since: int): (row: QualifiedReferral)
    requires HasDeliveredSince(orders, u.id, since)
    ensures IsRosterRow(row, u.id, orders, since)
  {
    var os := DeliveredOrdersSince(orders, u.id, since);
    var latest := LatestDelivery(os);
    assert forall o :: o in os ==> o.deliveredAt.value <= latest by {
      forall o | o in os ensures o.deliveredAt.value <= latest {
        var i :| 0 <= i < |os| && os[i] == o;
      }
    }
    var k :| 0 <= k < |os| && os[k].deliveredAt.value == latest;
    assert os[k] in os;
    QualifiedReferral(u.id, os, latest, |os|)
  }

  /** One row per qualified user, in the same order. */
  function Roster(qualified: seq<User>, orders: seq<Order>, since: int): (r: seq<QualifiedReferral>)
    requires forall u :: u in qualified ==> HasDeliveredSince(orders, u.id, since)
    ensures |r| == |qualified|
    ensures forall i :: 0 <= i < |r| ==> IsRosterRow(r[i], qualified[i].id, orders, since)
  {
    seq(|qualified|, i requires 0 <= i < |qualified| && qualified[i] in qualified => RosterRow(qualified[i], orders, since))
  }

  /** The referrals counted by the qualified count, each with its qualifying orders. */
  function GetFreeiPhoneQualifiedReferrals(users: seq<User>, orders: seq<Order>, userId: UserId, now: int)
    : (r: seq<QualifiedReferral>)
    ensures |r| == GetFreeiPhoneQualifiedReferralsCount(users, orders, userId, now)
    ensures forall i :: 0 <= i < |r| ==>
      exists u :: u in users && u.referredById == Some(userId) && IsRosterRow(r[i], u.id, orders, now - QualifyingWindowMs)
    ensures forall u :: u in users && u.referredById == Some(userId) && HasDeliveredSince(orders, u.id, now - QualifyingWindowMs) ==>
      exists i :: 0 <= i < |r| && r[i].userId == u.id
  {
    var since := now - QualifyingWindowMs;
    var qualified := WithDeliverySince(Referrals(users, userId), orders, since);
    var r := Roster(qualified, orders, since);
    ReferralRosterRowsBelong(users, orders, userId, since, qualified, r);
    ReferralRosterRowsCover(users, orders, userId, since, qualified, r);
    r
  }

  /** Each roster row belongs to a referral of the user with a delivery since `since`. */
  lemma ReferralRosterRowsBelong(
    users: seq<User>, orders: seq<Order>, userId: UserId, since: int, qualified: seq<User>, r: seq<QualifiedReferral>)
    requires qualified == WithDeliverySince(Referrals(users, userId), orders, since)
    requires r == Roster(qualified, orders, since)
    ensures forall i :: 0 <= i < |r| ==>
      exists u :: u in users && u.referredById == Some(userId) && IsRosterRow(r[i], u.id, orders, since)
  {
    forall i | 0 <= i < |r|
      ensures exists u :: u in users && u.referredById == Some(userId) && IsRosterRow(r[i], u.id, orders, since)
    {
      var u := qualified[i];
      assert u in qualified;
      assert u in Referrals(users, userId);
      assert IsRosterRow(r[i], u.id, orders, since);
    }
  }

  /** Each referral of the user with a delivery since `since` has a roster row. */
  lemma ReferralRosterRowsCover(
    users: seq<User>, orders: seq<Order>, userId: UserId, since: int, qualified: seq<User>, r: seq<QualifiedReferral>)
    requires qualified == WithDeliverySince(Referrals(users, userId), orders, since)
    requires r == Roster(qualified, orders, since)
    ensures forall u :: u in users && u.referredById == Some(userId) && HasDeliveredSince(orders, u.id, since) ==>
      exists i :: 0 <= i < |r| && r[i].userId == u.id
  {
    RosterCoversQualified(qualified, orders, since);
    forall u | u in users && u.referredById == Some(userId) && HasDeliveredSince(orders, u.id, since)
      ensures u in qualified
    {
      assert u in Referrals(users, userId);
    }
  }

  /** Every qualified user has a row in the roster. */
  lemma RosterCoversQualified(qualified: seq<User>, orders: seq<Order>, since: int)
    requires forall u :: u in qualified ==> HasDeliveredSince(orders, u.id, since)
    ensures forall u :: u in qualified ==>
      exists i :: 0 <= i < |qualified| && Roster(qualified, orders, since)[i].userId == u.id
  {
    forall u | u in qualified
      ensures exists i :: 0 <= i < |qualified| && Roster(qualified, orders, since)[i].userId == u.id
    {
      var k :| 0 <= k < |qualified| && qualified[k] == u;
      assert Roster(qualified, orders, since)[k].userId == u.id;
    }
  }

  // ---------------------------------------------------------------------------
  // The free-iPhone bonus

  function BonusOrders(orders: seq<Order>, userId: UserId): (r: seq<Order>)
    ensures forall o :: o in r <==> o in orders && o.userId == userId && o.isFreeiPhoneBonus
  {
    if orders == [] then []
    else
      (if orders[0].userId == userId && orders[0].isFreeiPhoneBonus then [orders[0]] else [])
      + BonusOrders(orders[1..], userId)
  }

  /** Whether the user owns any bonus order, whatever its status. */
  function HasReceivedFreeiPhoneBonus(orders: seq<Order>, userId: UserId): (r: bool)
    ensures r <==> exists i :: 0 <= i < |orders| && orders[i].userId == userId && orders[i].isFreeiPhoneBonus
  {
    var bonus := BonusOrders(orders, userId);
    assert |bonus| > 0 ==> bonus[0] in bonus;
    |bonus| > 0
  }

  predicate DeliveredBonusOf(o: Order, userId: UserId)
  {
    o.userId == userId && o.isFreeiPhoneBonus && o.status == Delivered && o.deliveredAt.Some?
  }

  /** The latest delivery instant over the user's DELIVERED bonus orders, or None. */
  function GetLastFreeiPhoneDeliveredAt(orders: seq<Order>, userId: UserId): (r: Option<int>)
    ensures r.None? <==> forall i :: 0 <= i < |orders| ==> !DeliveredBonusOf(orders[i], userId)
    ensures r.Some? ==>
      exists i :: 0 <= i < |orders| && DeliveredBonusOf(orders[i], userId) && orders[i].deliveredAt.value == r.value
    ensures r.Some? ==>
      forall i :: 0 <= i < |orders| && DeliveredBonusOf(orders[i], userId) ==> orders[i].deliveredAt.value <= r.value
  {
    if orders == [] then None
    else
      var rest := GetLastFreeiPhoneDeliveredAt(orders[1..], userId);
      assert forall i :: 1 <= i < |orders| ==> orders[i] == orders[1..][i - 1];
      if !DeliveredBonusOf(orders[0], userId) then rest
      else if rest.Some? && rest.value > orders[0].deliveredAt.value then rest
      else Some(orders[0].deliveredAt.value)
  }

  /**
   * Twenty qualified referrals, and either no delivered bonus or a last
   * delivered bonus more than 365 days before `now`.
   */
  function CanReceiveFreeiPhone(users: seq<User>, orders: seq<Order>, userId: UserId, now: int): (r: bool)
    ensures r <==>
      && GetFreeiPhoneQualifiedReferralsCount(users, orders, userId, now) >= 20
      && forall i :: 0 <= i < |orders| && DeliveredBonusOf(orders[i], userId) ==>
           orders[i].deliveredAt.value < now - 365 * 86_400_000
  {
    var count := GetFreeiPhoneQualifiedReferralsCount(users, orders, userId, now);
    if count < FreeiPhoneRequiredCount then false
    else
      match GetLastFreeiPhoneDeliveredAt(orders, userId)
      case None => true
      case Some(last) => last < now - QualifyingWindowMs
  }

  lemma {:induction false} WithDeliverySinceIgnoresUndelivered(
    referred: seq<User>, orders: seq<Order>, o: Order, since: int)
    requires o.status != Delivered
    ensures WithDeliverySince(referred, orders + [o], since) == WithDeliverySince(referred, orders, since)
  {
    if referred != [] {
      var id := referred[0].id;
      if HasDeliveredSince(orders + [o], id, since) {
        var i :| 0 <= i < |orders + [o]| && (orders + [o])[i].userId == id && DeliveredSince((orders + [o])[i], since);
        assert i < |orders| && orders[i] == (orders + [o])[i];
      }
      if HasDeliveredSince(orders, id, since) {
        var i :| 0 <= i < |orders| && orders[i].userId == id && DeliveredSince(orders[i], since);
        assert (orders + [o])[i] == orders[i];
      }
      WithDeliverySinceIgnoresUndelivered(referred[1..], orders, o, since);
    }
  }

  /**
   * A new order that is not DELIVERED (such as a freshly granted bonus order)
   * changes no one's eligibility: a granted but undelivered bonus does not block
   * a second grant.
   */
  lemma UndeliveredOrderKeepsEligibility(users: seq<User>, orders: seq<Order>, o: Order, userId: UserId, now: int)
    requires o.status != Delivered
    ensures CanReceiveFreeiPhone(users, orders + [o], userId, now) == CanReceiveFreeiPhone(users, orders, userId, now)
  {
    WithDeliverySinceIgnoresUndelivered(Referrals(users, userId), orders, o, now - QualifyingWindowMs);
    assert forall i :: 0 <= i < |orders| ==> (orders + [o])[i] == orders[i];
  }

  /** A delivered bonus blocks the user for 365 days after its delivery, however many referrals qualify. */
  lemma DeliveredBonusBlocksForAYear(users: seq<User>, orders: seq<Order>, userId: UserId, now: int, i: int)
    requires 0 <= i < |orders| && DeliveredBonusOf(orders[i], userId)
    requires orders[i].deliveredAt.value >= now - 365 * 86_400_000
    ensures !CanReceiveFreeiPhone(users, orders, userId, now)
  {
  }

  // ---------------------------------------------------------------------------
  // Candidates

  datatype Candidate = Candidate(id: UserId, referralCode: string, qualifiedReferralsCount: nat)

  /** Role USER with at least one referral, in table order. */
  function UsersWithReferrals(users: seq<User>): (r: seq<User>)
    ensures forall u :: u in r <==> u in users && u.role == Customer && |Referrals(users, u.id)| > 0
  {
    CustomersWithReferralsAmong(users, users)
  }

  /** Those of `pool` with role USER that some user of `users` names as referrer, in order. */
  function CustomersWithReferralsAmong(pool: seq<User>, users: seq<User>): (r: seq<User>)
    ensures forall u :: u in r <==> u in pool && u.role == Customer && |Referrals(users, u.id)| > 0
  {
    if pool == [] then []
    else
      (if pool[0].role == Customer && |Referrals(users, pool[0].id)| > 0 then [pool[0]] else [])
      + CustomersWithReferralsAmong(pool[1..], users)
  }

  /** Each user of the pool is kept exactly as often as listed, if it has role USER and a referral. */
  lemma {:induction false} CustomersWithReferralsAmongCounts(pool: seq<User>, users: seq<User>)
    ensures forall u :: (multiset(CustomersWithReferralsAmong(pool, users))[u] ==
      if u.role == Customer && |Referrals(users, u.id)| > 0 then multiset(pool)[u] else 0)
  {
    if pool != [] {
      CustomersWithReferralsAmongCounts(pool[1..], users);
      assert pool == [pool[0]] + pool[1..];
    }
  }

  /** Each user with role USER and a referral is listed exactly as often as in the table. */
  lemma UsersWithReferralsCounts(users: seq<User>)
    ensures forall u :: (multiset(UsersWithReferrals(users))[u] ==
      if u.role == Customer && |Referrals(users, u.id)| > 0 then multiset(users)[u] else 0)
  {
    CustomersWithReferralsAmongCounts(users, users);
  }

  /** No two user rows share an id, as the table's primary key guarantees. */
  predicate DistinctUserIds(users: seq<User>)
  {
    forall i, j :: 0 <= i < j < |users| ==> users[i].id != users[j].id
  }

  /** The head of a list with distinct ids shares its id with nothing in the tail. */
  lemma HeadIdIsFresh(pool: seq<User>)
    requires pool != [] && DistinctUserIds(pool)
    ensures DistinctUserIds(pool[1..])
    ensures forall u :: u in pool[1..] ==> u.id != pool[0].id
  {
    var tail := pool[1..];
    assert forall i :: 0 <= i < |tail| ==> tail[i] == pool[i + 1];
  }

  /** Prepending a user whose id is fresh keeps the ids distinct. */
  lemma ConsFreshUser(x: User, rest: seq<User>)
    requires DistinctUserIds(rest) && forall u :: u in rest ==> u.id != x.id
    ensures DistinctUserIds([x] + rest)
  {
    var r := [x] + rest;
    forall i, j | 0 <= i < j < |r| ensures r[i].id != r[j].id {
      assert r[j] == rest[j - 1];
      if i > 0 {
        assert r[i] == rest[i - 1];
      }
    }
  }

  /** Filtering a pool whose ids are distinct keeps them distinct. */
  lemma {:induction false} CustomersWithReferralsAmongDistinct(pool: seq<User>, users: seq<User>)
    requires DistinctUserIds(pool)
    ensures DistinctUserIds(CustomersWithReferralsAmong(pool, users))
  {
    if pool != [] {
      HeadIdIsFresh(pool);
      CustomersWithReferralsAmongDistinct(pool[1..], users);
      var rest := CustomersWithReferralsAmong(pool[1..], users);
      if pool[0].role == Customer && |Referrals(users, pool[0].id)| > 0 {
        ConsFreshUser(pool[0], rest);
      }
    }
  }

  predicate IsCandidate(users: seq<User>, orders: seq<Order>, u: User, now: int)
  {
    GetFreeiPhoneQualifiedReferralsCount(users, orders, u.id, now) >= FreeiPhoneRequiredCount
    && CanReceiveFreeiPhone(users, orders, u.id, now)
  }

  function CandidateOf(users: seq<User>, orders: seq<Order>, u: User, now: int): Candidate
  {
    Candidate(u.id, u.referralCode, GetFreeiPhoneQualifiedReferralsCount(users, orders, u.id, now))
  }

  /** The candidates among `pool`, in pool order, before sorting. */
  function CandidatesAmong(pool: seq<User>, users: seq<User>, orders: seq<Order>, now: int): (r: seq<Candidate>)
    ensures |r| <= |pool|
  {
    if pool == [] then []
    else
      CandidatesAmong(pool[..|pool| - 1], users, orders, now)
      + (if IsCandidate(users, orders, pool[|pool| - 1], now) then [CandidateOf(users, orders, pool[|pool| - 1], now)] else [])
  }

  /** Extending the pool prefix by one user appends that user's candidate, if any. */
  lemma CandidatesAmongPrefix(pool: seq<User>, i: int, users: seq<User>, orders: seq<Order>, now: int)
    requires 0 <= i < |pool|
    ensures CandidatesAmong(pool[..i + 1], users, orders, now) ==
      CandidatesAmong(pool[..i], users, orders, now)
      + (if IsCandidate(users, orders, pool[i], now) then [CandidateOf(users, orders, pool[i], now)] else [])
  {
    assert pool[..i + 1][..i] == pool[..i];
    assert pool[..i + 1][i] == pool[i];
  }

  /** No two candidates share an id. */
  predicate DistinctIds(r: seq<Candidate>)
  {
    forall i, j :: 0 <= i < j < |r| ==> r[i].id != r[j].id
  }

  /** Appending a candidate whose id is fresh keeps the ids distinct. */
  lemma SnocFreshCandidate(prev: seq<Candidate>, c: Candidate)
    requires DistinctIds(prev) && forall d :: d in prev ==> d.id != c.id
    ensures DistinctIds(prev + [c])
  {
    var r := prev + [c];
    forall i, j | 0 <= i < j < |r| ensures r[i].id != r[j].id {
      assert r[i] == prev[i];
      if j < |prev| {
        assert r[j] == prev[j];
      }
    }
  }

  /** The last user of a list with distinct ids shares its id with nothing before it. */
  lemma LastIdIsFresh(pool: seq<User>)
    requires pool != [] && DistinctUserIds(pool)
    ensures DistinctUserIds(pool[..|pool| - 1])
    ensures forall u :: u in pool[..|pool| - 1] ==> u.id != pool[|pool| - 1].id
  {
  }

  /** A pool with distinct ids yields at most one candidate per id. */
  lemma {:induction false} CandidatesAmongDistinct(pool: seq<User>, users: seq<User>, orders: seq<Order>, now: int)
    requires DistinctUserIds(pool)
    ensures DistinctIds(CandidatesAmong(pool, users, orders, now))
  {
    if pool != [] {
      var init := pool[..|pool| - 1];
      var last := pool[|pool| - 1];
      LastIdIsFresh(pool);
      CandidatesAmongDistinct(init, users, orders, now);
      var prev := CandidatesAmong(init, users, orders, now);
      if IsCandidate(users, orders, last, now) {
        var c := CandidateOf(users, orders, last, now);
        CandidatesAmongMembers(init, users, orders, now);
        forall d | d in prev ensures d.id != c.id {
          var u :| u in init && IsCandidate(users, orders, u, now) && d == CandidateOf(users, orders, u, now);
        }
        SnocFreshCandidate(prev, c);
      }
    }
  }

  /** The candidates among `pool` are exactly the records of its users who pass both checks. */
  lemma {:induction false} CandidatesAmongMembers(pool: seq<User>, users: seq<User>, orders: seq<Order>, now: int)
    ensures forall c :: c in CandidatesAmong(pool, users, orders, now) <==>
      exists u :: u in pool && IsCandidate(users, orders, u, now) && c == CandidateOf(users, orders, u, now)
  {
    if pool != [] {
      var init := pool[..|pool| - 1];
      var last := pool[|pool| - 1];
      assert forall u :: u in pool <==> u in init || u == last;
      CandidatesAmongMembers(init, users, orders, now);
    }
  }

  /** Any arrangement of the candidates holds exactly the eligible users with referrals. */
  lemma CandidatesAreEligibleUsers(r: seq<Candidate>, users: seq<User>, orders: seq<Order>, now: int)
    requires multiset(r) == multiset(CandidatesAmong(UsersWithReferrals(users), users, orders, now))
    ensures forall c :: c in r <==>
      exists u :: && u in users && u.role == Customer && |Referrals(users, u.id)| > 0
                  && IsCandidate(users, orders, u, now) && c == CandidateOf(users, orders, u, now)
  {
    CandidatesAmongMembers(UsersWithReferrals(users), users, orders, now);
    forall c ensures c in r <==> c in CandidatesAmong(UsersWithReferrals(users), users, orders, now) {
      assert c in r <==> c in multiset(r);
    }
  }

  predicate SortedByCountDesc(s: seq<Candidate>)
  {
    forall i, j :: 0 <= i < j < |s| ==> s[i].qualifiedReferralsCount >= s[j].qualifiedReferralsCount
  }

  /** Prepending an element no smaller than the head keeps the order. */
  lemma SortedCons(x: Candidate, rest: seq<Candidate>)
    requires SortedByCountDesc(rest)
    requires rest != [] ==> x.qualifiedReferralsCount >= rest[0].qualifiedReferralsCount
    ensures SortedByCountDesc([x] + rest)
  {
    var r := [x] + rest;
    forall i, j | 0 <= i < j < |r| ensures r[i].qualifiedReferralsCount >= r[j].qualifiedReferralsCount {
      assert r[j] == rest[j - 1];
      if i > 0 {
        assert r[i] == rest[i - 1];
      } else if j > 1 {
        assert rest[0].qualifiedReferralsCount >= rest[j - 1].qualifiedReferralsCount;
      }
    }
  }

  /** Keeping the head of `s` in front of `c` inserted into the tail keeps the order and the elements. */
  lemma InsertBehindHead(c: Candidate, s: seq<Candidate>, rest: seq<Candidate>)
    requires SortedByCountDesc(s) && s != [] && s[0].qualifiedReferralsCount > c.qualifiedReferralsCount
    requires SortedByCountDesc(rest) && |rest| == |s|
    requires rest[0] == c || (|s| > 1 && rest[0] == s[1])
    requires multiset(rest) == multiset(s[1..]) + multiset{c}
    ensures SortedByCountDesc([s[0]] + rest)
    ensures multiset([s[0]] + rest) == multiset(s) + multiset{c}
  {
    assert s == [s[0]] + s[1..];
    SortedCons(s[0], rest);
  }

  /** Inserts `c` before the first element whose count is not greater than its own. */
  function InsertByCount(c: Candidate, s: seq<Candidate>): (r: seq<Candidate>)
    requires SortedByCountDesc(s)
    ensures |r| == |s| + 1
    ensures r[0] == c || (s != [] && r[0] == s[0])
    ensures SortedByCountDesc(r)
    ensures multiset(r) == multiset(s) + multiset{c}
  {
    if s == [] || s[0].qualifiedReferralsCount <= c.qualifiedReferralsCount then
      SortedCons(c, s);
      [c] + s
    else
      var rest := InsertByCount(c, s[1..]);
      InsertBehindHead(c, s, rest);
      [s[0]] + rest
  }

  /** The head of a list with distinct ids shares its id with nothing in the tail. */
  lemma CandidateHeadIsFresh(s: seq<Candidate>)
    requires s != [] && DistinctIds(s)
    ensures DistinctIds(s[1..])
    ensures forall d :: d in s[1..] ==> d.id != s[0].id
  {
    var tail := s[1..];
    assert forall i :: 0 <= i < |tail| ==> tail[i] == s[i + 1];
  }

  /** Prepending a candidate whose id is fresh keeps the ids distinct. */
  lemma ConsFreshCandidate(x: Candidate, rest: seq<Candidate>)
    requires DistinctIds(rest) && forall d :: d in rest ==> d.id != x.id
    ensures DistinctIds([x] + rest)
  {
    var r := [x] + rest;
    forall i, j | 0 <= i < j < |r| ensures r[i].id != r[j].id {
      assert r[j] == rest[j - 1];
      if i > 0 {
        assert r[i] == rest[i - 1];
      }
    }
  }

  /** Inserting a candidate whose id is new keeps the ids distinct. */
  lemma {:induction false} InsertByCountDistinct(c: Candidate, s: seq<Candidate>)
    requires SortedByCountDesc(s) && DistinctIds(s)
    requires forall d :: d in s ==> d.id != c.id
    ensures DistinctIds(InsertByCount(c, s))
  {
    if s == [] || s[0].qualifiedReferralsCount <= c.qualifiedReferralsCount {
      ConsFreshCandidate(c, s);
    } else {
      CandidateHeadIsFresh(s);
      assert s[0] in s;
      InsertByCountDistinct(c, s[1..]);
      var rest := InsertByCount(c, s[1..]);
      forall d | d in rest ensures d.id != s[0].id {
        assert d in multiset(rest);
      }
      ConsFreshCandidate(s[0], rest);
    }
  }

  /** Sorting keeps the ids distinct. */
  lemma {:induction false} SortByCountDescDistinct(s: seq<Candidate>)
    requires DistinctIds(s)
    ensures DistinctIds(SortByCountDesc(s))
  {
    if s != [] {
      CandidateHeadIsFresh(s);
      SortByCountDescDistinct(s[1..]);
      var sorted := SortByCountDesc(s[1..]);
      forall d | d in sorted ensures d.id != s[0].id {
        assert d in multiset(sorted);
      }
      InsertByCountDistinct(s[0], sorted);
    }
  }

  /** With distinct user ids, the sorted candidate list names each user at most once. */
  lemma CandidateListDistinct(users: seq<User>, orders: seq<Order>, now: int)
    ensures DistinctUserIds(users) ==>
      DistinctIds(SortByCountDesc(CandidatesAmong(UsersWithReferrals(users), users, orders, now)))
  {
    if DistinctUserIds(users) {
      CustomersWithReferralsAmongDistinct(users, users);
      CandidatesAmongDistinct(UsersWithReferrals(users), users, orders, now);
      SortByCountDescDistinct(CandidatesAmong(UsersWithReferrals(users), users, orders, now));
    }
  }

  /** Insertion sort by qualified count, largest first. */
  function SortByCountDesc(s: seq<Candidate>): (r: seq<Candidate>)
    ensures SortedByCountDesc(r)
    ensures multiset(r) == multiset(s)
  {
    if s == [] then []
    else
      assert s == [s[0]] + s[1..];
      InsertByCount(s[0], SortByCountDesc(s[1..]))
  }

  /**
   * The users of role USER with referrals who have at least 20 qualified
   * referrals and may receive the bonus, largest count first.
   */
  method GetFreeiPhoneCandidates(users: seq<User>, orders: seq<Order>, now: int) returns (r: seq<Candidate>)
    ensures SortedByCountDesc(r)
    ensures multiset(r) == multiset(CandidatesAmong(UsersWithReferrals(users), users, orders, now))
    ensures forall c :: c in r <==>
      exists u :: && u in users && u.role == Customer && |Referrals(users, u.id)| > 0
                  && IsCandidate(users, orders, u, now) && c == CandidateOf(users, orders, u, now)
    ensures DistinctUserIds(users) ==> DistinctIds(r)
  {
    var usersWithReferrals := UsersWithReferrals(users);
    var candidates: seq<Candidate> := [];
    for i := 0 to |usersWithReferrals|
      invariant candidates == CandidatesAmong(usersWithReferrals[..i], users, orders, now)
    {
      var u := usersWithReferrals[i];
      ghost var step := if IsCandidate(users, orders, u, now) then [CandidateOf(users, orders, u, now)] else [];
      CandidatesAmongPrefix(usersWithReferrals, i, users, orders, now);
      var count := GetFreeiPhoneQualifiedReferralsCount(users, orders, u.id, now);
      if count >= FreeiPhoneRequiredCount {
        var eligible := CanReceiveFreeiPhone(users, orders, u.id, now);
        if eligible {
          assert step == [Candidate(u.id, u.referralCode, count)];
          candidates := candidates + [Candidate(u.id, u.referralCode, count)];
        } else {
          assert step == [];
        }
      } else {
        assert step == [];
      }
    }
    assert usersWithReferrals[..|usersWithReferrals|] == usersWithReferrals;
    r := SortByCountDesc(candidates);
    CandidatesAreEligibleUsers(r, users, orders, now);
    CandidateListDistinct(users, orders, now);
  }
}
