/** The admin reporting routes: aggregate counts over the store and the
    per-line-item sales ledger. Both are read-only queries over the tables
    the checkout writes, reachable only through the ADMIN gate. */
module Analytics {

  import opened Wrappers
  import opened Collections
  import opened Store
  import opened Access
  import opened Commerce

  const Approved := "APPROVED"
  const Pending := "PENDING"

  // ---------------------------------------------------------------- overview

  datatype OverviewReport = OverviewReport(
    totalUsers: nat,
    approvedArtworks: nat,
    pendingArtworks: nat,
    totalSales: nat,
    totalRevenue: int)

  predicate IsPaidOrder(o: Order) {
    o.status == Paid
  }

  function OrderTotal(o: Order): int {
    o.totalAmount
  }

  /** `COUNT(*) FROM orders WHERE status = 'PAID'`. */
  function PaidCount(orders: seq<Order>): (n: nat)
    ensures n <= |orders|
    ensures n == 0 <==> forall i :: 0 <= i < |orders| ==> !IsPaidOrder(orders[i])
  {
    if |orders| == 0 then 0
    else (if IsPaidOrder(orders[0]) then 1 else 0) + PaidCount(orders[1..])
  }

  /** `COALESCE(SUM(total_amount), 0) FROM orders WHERE status = 'PAID'`:
      the sum of an empty selection is 0 rather than NULL. */
  function PaidRevenue(orders: seq<Order>): (r: int)
    ensures (forall i :: 0 <= i < |orders| ==> !IsPaidOrder(orders[i])) ==> r == 0
    ensures (forall i :: 0 <= i < |orders| && IsPaidOrder(orders[i]) ==> orders[i].totalAmount >= 0) ==> r >= 0
  {
    if |orders| == 0 then 0
    else (if IsPaidOrder(orders[0]) then orders[0].totalAmount else 0) + PaidRevenue(orders[1..])
  }

  /** The aggregates agree with the reference reading of the SQL: count and
      sum over the PAID selection of the orders. */
  lemma {:induction false} PaidTotalsAreSelectionTotals(orders: seq<Order>)
    ensures PaidCount(orders) == |Filter(orders, IsPaidOrder)|
    ensures PaidRevenue(orders) == SumOf(Filter(orders, IsPaidOrder), OrderTotal)
  {
    if |orders| > 0 {
      PaidTotalsAreSelectionTotals(orders[1..]);
    }
  }

  lemma {:induction false} PaidTotalsAppend(xs: seq<Order>, ys: seq<Order>)
    ensures PaidCount(xs + ys) == PaidCount(xs) + PaidCount(ys)
    ensures PaidRevenue(xs + ys) == PaidRevenue(xs) + PaidRevenue(ys)
  {
    if |xs| == 0 {
      assert xs + ys == ys;
    } else {
      assert (xs + ys)[1..] == xs[1..] + ys;
      PaidTotalsAppend(xs[1..], ys);
    }
  }

  /** `WHERE is_active = TRUE`. */
  function ActiveUsers(users: map<UserId, User>): (r: set<UserId>)
    ensures forall u :: u in r <==> u in users && users[u].active
  {
    set u | u in users && users[u].active
  }

  /** `WHERE status = ?` on `artworks`. */
  function ArtworksWithStatus(art: map<ArtworkId, Artwork>, status: string): (r: set<ArtworkId>)
    ensures forall a :: a in r <==> a in art && art[a].status == status
  {
    set a | a in art && art[a].status == status
  }

  /** `GET /overview`. Only active users count; artwork statuses are
      compared with the upper-case spellings exactly. */
  function OverviewOf(s: Store): (r: OverviewReport)
    ensures r.totalUsers == |ActiveUsers(s.users)| <= |s.users|
    ensures r.approvedArtworks == |ArtworksWithStatus(s.artworks, Approved)|
    ensures r.pendingArtworks == |ArtworksWithStatus(s.artworks, Pending)|
    ensures r.approvedArtworks + r.pendingArtworks <= |s.artworks|
    ensures r.totalSales == PaidCount(s.orders) && r.totalRevenue == PaidRevenue(s.orders)
    ensures r.totalSales == 0 ==> r.totalRevenue == 0
  {
    var active := ActiveUsers(s.users);
    var approved := ArtworksWithStatus(s.artworks, Approved);
    var pending := ArtworksWithStatus(s.artworks, Pending);
    SubsetCard(active, s.users.Keys);
    assert approved !! pending;
    SubsetCard(approved + pending, s.artworks.Keys);
    assert PaidCount(s.orders) == 0 ==> PaidRevenue(s.orders) == 0 by {
      if PaidCount(s.orders) == 0 {
        NoPaidNoRevenue(s.orders);
      }
    }
    OverviewReport(|active|, |approved|, |pending|, PaidCount(s.orders), PaidRevenue(s.orders))
  }

  lemma {:induction false} NoPaidNoRevenue(orders: seq<Order>)
    requires forall i :: 0 <= i < |orders| ==> !IsPaidOrder(orders[i])
    ensures PaidRevenue(orders) == 0
  {
    if |orders| > 0 {
      NoPaidNoRevenue(orders[1..]);
    }
  }

  /** A placed checkout adds one sale and exactly its amount to the revenue,
      and leaves the user and artwork counts alone; a refused one changes
      no figure. */
  lemma CheckoutAddsOneSale(s: Store, v: UserId, b: CheckoutBody, now: int, fault: Fault)
    ensures var (s', reply) := Checkout(s, v, b, now, fault);
      && (reply.Refused? ==> OverviewOf(s') == OverviewOf(s))
      && (reply.Placed? ==>
            && OverviewOf(s').totalSales == OverviewOf(s).totalSales + 1
            && OverviewOf(s').totalRevenue == OverviewOf(s).totalRevenue + reply.amount
            && OverviewOf(s').totalUsers == OverviewOf(s).totalUsers
            && OverviewOf(s').approvedArtworks == OverviewOf(s).approvedArtworks
            && OverviewOf(s').pendingArtworks == OverviewOf(s).pendingArtworks)
  {
    var (s', reply) := Checkout(s, v, b, now, fault);
    if reply.Placed? {
      var o := s'.orders[|s.orders|];
      assert s'.orders == s.orders + [o];
      PaidTotalsAppend(s.orders, [o]);
    }
  }

  // ------------------------------------------------------------ transactions

  /** One row of `GET /transactions`; its `totalAmount` is the line item's
      unit price, not the order total. */
  datatype TransactionRow = TransactionRow(
    id: nat,
    orderId: OrderId,
    status: string,
    currency: string,
    totalAmount: int,
    paymentMethod: string,
    createdAt: int,
    buyerName: string,
    artworkTitle: string)

  /** The join condition plus the WHERE clause for one (order item, order)
      pair: the order is the item's, it is PAID, and the buyer and the
      artwork rows still exist. */
  predicate Joins(s: Store, it: OrderItem, o: Order) {
    o.id == it.orderId && IsPaidOrder(o) && o.visitorId in s.users && it.artworkId in s.artworks
  }

  function RowOf(s: Store, it: OrderItem, o: Order): TransactionRow
    requires Joins(s, it, o)
  {
    TransactionRow(it.id, o.id, o.status, o.currency, it.unitPrice, o.paymentMethod, o.createdAt,
                   s.users[o.visitorId].name, s.artworks[it.artworkId].title)
  }

  /** The rows item `it` contributes: one per joining order. */
  function RowsForItem(s: Store, it: OrderItem, orders: seq<Order>): seq<TransactionRow> {
    if |orders| == 0 then []
    else (if Joins(s, it, orders[0]) then [RowOf(s, it, orders[0])] else []) + RowsForItem(s, it, orders[1..])
  }

  /** The unordered result of the join, item by item. */
  function JoinedRows(s: Store, items: seq<OrderItem>): seq<TransactionRow> {
    if |items| == 0 then [] else RowsForItem(s, items[0], s.orders) + JoinedRows(s, items[1..])
  }

  lemma {:induction false} RowsForItemMembers(s: Store, it: OrderItem, orders: seq<Order>, row: TransactionRow)
    ensures row in RowsForItem(s, it, orders) <==>
      exists j :: 0 <= j < |orders| && Joins(s, it, orders[j]) && row == RowOf(s, it, orders[j])
  {
    if |orders| > 0 {
      RowsForItemMembers(s, it, orders[1..], row);
      if exists j :: 0 <= j < |orders[1..]| && Joins(s, it, orders[1..][j]) && row == RowOf(s, it, orders[1..][j]) {
        var j :| 0 <= j < |orders[1..]| && Joins(s, it, orders[1..][j]) && row == RowOf(s, it, orders[1..][j]);
        assert orders[j + 1] == orders[1..][j];
      }
      if exists j :: 0 <= j < |orders| && Joins(s, it, orders[j]) && row == RowOf(s, it, orders[j]) {
        var j :| 0 <= j < |orders| && Joins(s, it, orders[j]) && row == RowOf(s, it, orders[j]);
        if j > 0 {
          assert orders[1..][j - 1] == orders[j];
        }
      }
    }
  }

  /** A row is in the join exactly when it is built from some order item and
      a joining order. */
  lemma {:induction false} JoinedRowsMembers(s: Store, items: seq<OrderItem>, row: TransactionRow)
    ensures row in JoinedRows(s, items) <==>
      exists i, j :: 0 <= i < |items| && 0 <= j < |s.orders| && Joins(s, items[i], s.orders[j]) && row == RowOf(s, items[i], s.orders[j])
  {
    if |items| > 0 {
      JoinedRowsMembers(s, items[1..], row);
      RowsForItemMembers(s, items[0], s.orders, row);
      if exists i, j :: 0 <= i < |items[1..]| && 0 <= j < |s.orders| && Joins(s, items[1..][i], s.orders[j]) && row == RowOf(s, items[1..][i], s.orders[j]) {
        var i, j :| 0 <= i < |items[1..]| && 0 <= j < |s.orders| && Joins(s, items[1..][i], s.orders[j]) && row == RowOf(s, items[1..][i], s.orders[j]);
        assert items[i + 1] == items[1..][i];
      }
      if exists i, j :: 0 <= i < |items| && 0 <= j < |s.orders| && Joins(s, items[i], s.orders[j]) && row == RowOf(s, items[i], s.orders[j]) {
        var i, j :| 0 <= i < |items| && 0 <= j < |s.orders| && Joins(s, items[i], s.orders[j]) && row == RowOf(s, items[i], s.orders[j]);
        if i > 0 {
          assert items[1..][i - 1] == items[i];
        }
      }
    }
  }

  /** `ORDER BY o.created_at DESC, oi.id DESC`. */
  function RowKey(r: TransactionRow): Key {
    Key(r.createdAt, r.id)
  }

  /** `GET /transactions`. */
  function Transactions(s: Store): (r: seq<TransactionRow>)
    ensures SortedDesc(r, RowKey)
    ensures multiset(r) == multiset(JoinedRows(s, s.orderItems))
  {
    SortDesc(JoinedRows(s, s.orderItems), RowKey)
  }

  /** Every ledger row comes from one line item of a PAID order whose buyer
      and artwork still exist, and carries that item's unit price; every such
      pair appears. */
  lemma TransactionRowsAreLineItems(s: Store, row: TransactionRow)
    ensures row in Transactions(s) <==>
      exists i, j :: 0 <= i < |s.orderItems| && 0 <= j < |s.orders|
        && Joins(s, s.orderItems[i], s.orders[j]) && row == RowOf(s, s.orderItems[i], s.orders[j])
    ensures row in Transactions(s) ==> row.status == Paid
  {
    var r := Transactions(s);
    assert row in r <==> row in multiset(r);
    assert row in JoinedRows(s, s.orderItems) <==> row in multiset(JoinedRows(s, s.orderItems));
    JoinedRowsMembers(s, s.orderItems, row);
  }

  // ------------------------------------------------------------------ routes

  /** A report route's answer: the report, or the gate's refusal. */
  datatype Routed<T> = Served(value: T) | Blocked(code: nat, message: string)

  /** Every analytics route sits behind `authenticate` and `requireRoles('ADMIN')`. */
  function AdminOnly<T>(header: Option<string>, verify: string -> Option<Claims>, report: T): (r: Routed<T>)
    ensures r.Served? <==> Guard(header, verify, [Admin], ConfiguredAdminEmail).Pass?
    ensures r.Served? ==> r.value == report
    ensures r.Blocked? ==> r.code in {401, 403}
  {
    match Guard(header, verify, [Admin], ConfiguredAdminEmail)
      case Deny(code, message) => Blocked(code, message)
      case Pass(_) => Served(report)
  }

  /** `GET /overview` behind the admin gate: a served report is the store's
      overview, and a refusal is the gate's 401 or 403. */
  function OverviewRoute(s: Store, header: Option<string>, verify: string -> Option<Claims>): (r: Routed<OverviewReport>)
    ensures r.Served? ==> r.value.totalSales == PaidCount(s.orders) && r.value.totalRevenue == PaidRevenue(s.orders)
    ensures r.Served? ==> r.value.totalUsers == |ActiveUsers(s.users)|
    ensures r.Blocked? ==> r.code in {401, 403}
  {
    AdminOnly(header, verify, OverviewOf(s))
  }

  /** `GET /transactions` behind the admin gate: a served list holds exactly
      the PAID line items, and a refusal is the gate's 401 or 403. */
  function TransactionsRoute(s: Store, header: Option<string>, verify: string -> Option<Claims>): (r: Routed<seq<TransactionRow>>)
    ensures r.Served? ==> SortedDesc(r.value, RowKey) && multiset(r.value) == multiset(JoinedRows(s, s.orderItems))
    ensures r.Blocked? ==> r.code in {401, 403}
  {
    AdminOnly(header, verify, Transactions(s))
  }

  /** Only a caller whose bearer token verifies to ADMIN claims gets a report. */
  lemma ReportsOnlyForAdmins(s: Store, header: Option<string>, verify: string -> Option<Claims>)
    ensures OverviewRoute(s, header, verify).Served? <==>
      HasBearer(header) && verify(TokenOf(header)).Some? && verify(TokenOf(header)).value.role == Admin
    ensures TransactionsRoute(s, header, verify).Served? <==>
      HasBearer(header) && verify(TokenOf(header)).Some? && verify(TokenOf(header)).value.role == Admin
  {
  }
}
