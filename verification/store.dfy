/** The MySQL tables the commerce, analytics and authentication routes read
    and write, as one immutable value. Auto-increment counters are explicit.
    The schema is not part of this model; the keys assumed here are:
    one `carts` row per visitor (the only writer, `getOrCreateCart`, inserts
    one only when none exists), and UNIQUE (cart_id, artwork_id) on
    `cart_items` and UNIQUE (visitor_id, artwork_id) on `wishlists`, which is
    what makes `INSERT IGNORE` idempotent. `cart_items` is kept as the set of
    its (cart_id, artwork_id) pairs grouped by cart: a map from a cart id to
    the non-empty set of artwork ids in it. */
module Store {

  import opened Collections

  type UserId = nat
  type ArtworkId = nat
  type CartId = nat
  type OrderId = nat

  /** A `users` row joined with its `roles` row (the role is kept by name). */
  datatype User = User(name: string, email: string, passwordHash: string, role: string, active: bool)

  /** The `artworks` columns the routes read. Status is upper-case in this table. */
  datatype Artwork = Artwork(title: string, artistId: UserId, price: int, status: string)

  /** An `orders` row; `createdAt` is the column default, the time of insertion. */
  datatype Order = Order(
    id: OrderId,
    visitorId: UserId,
    status: string,
    currency: string,
    totalAmount: int,
    paymentMethod: string,
    purchaserName: string,
    mobile: string,
    address: string,
    landmark: string,
    createdAt: int)

  /** An `order_items` row: the artist and price captured at checkout. */
  datatype OrderItem = OrderItem(id: nat, orderId: OrderId, artworkId: ArtworkId, artistId: UserId, unitPrice: int)

  datatype Store = Store(
    users: map<UserId, User>,
    roles: set<string>,
    artworks: map<ArtworkId, Artwork>,
    carts: map<UserId, CartId>,
    cartItems: map<CartId, set<ArtworkId>>,
    wishlists: set<(UserId, ArtworkId)>,
    orders: seq<Order>,
    orderItems: seq<OrderItem>,
    nextUserId: nat,
    nextCartId: nat,
    nextOrderId: nat,
    nextOrderItemId: nat)

  /** The line items recorded for order `id`. */
  function ItemsOf(items: seq<OrderItem>, id: OrderId): seq<OrderItem> {
    if |items| == 0 then []
    else if items[0].orderId == id then [items[0]] + ItemsOf(items[1..], id)
    else ItemsOf(items[1..], id)
  }

  /** Sum of the captured unit prices. */
  function ItemsTotal(items: seq<OrderItem>): int {
    if |items| == 0 then 0 else items[0].unitPrice + ItemsTotal(items[1..])
  }

  lemma {:induction false} ItemsOfAppend(xs: seq<OrderItem>, ys: seq<OrderItem>, id: OrderId)
    ensures ItemsOf(xs + ys, id) == ItemsOf(xs, id) + ItemsOf(ys, id)
  {
    if |xs| == 0 {
      assert xs + ys == ys;
    } else {
      assert (xs + ys)[1..] == xs[1..] + ys;
      ItemsOfAppend(xs[1..], ys, id);
    }
  }

  lemma ItemsOfNone(xs: seq<OrderItem>, id: OrderId)
    requires forall i :: 0 <= i < |xs| ==> xs[i].orderId != id
    ensures ItemsOf(xs, id) == []
  {
  }

  lemma {:induction false} ItemsOfAll(xs: seq<OrderItem>, id: OrderId)
    requires forall i :: 0 <= i < |xs| ==> xs[i].orderId == id
    ensures ItemsOf(xs, id) == xs
  {
    if |xs| > 0 {
      ItemsOfAll(xs[1..], id);
      assert xs == [xs[0]] + xs[1..];
    }
  }

  lemma {:induction false} ItemsTotalAppend(xs: seq<OrderItem>, ys: seq<OrderItem>)
    ensures ItemsTotal(xs + ys) == ItemsTotal(xs) + ItemsTotal(ys)
  {
    if |xs| == 0 {
      assert xs + ys == ys;
    } else {
      assert (xs + ys)[1..] == xs[1..] + ys;
      ItemsTotalAppend(xs[1..], ys);
    }
  }

  /** Every order's total equals the sum of its own line items' unit prices. */
  ghost predicate LedgerBalanced(orders: seq<Order>, items: seq<OrderItem>) {
    forall i :: 0 <= i < |orders| ==> orders[i].totalAmount == ItemsTotal(ItemsOf(items, orders[i].id))
  }

  /** Appending one order together with exactly its own items keeps the
      ledger balanced, provided the new order id is fresh among the items
      already recorded and the new items carry only the new id. */
  lemma {:induction false} AppendKeepsLedger(orders: seq<Order>, items: seq<OrderItem>, o: Order, added: seq<OrderItem>)
    requires LedgerBalanced(orders, items)
    requires forall i :: 0 <= i < |orders| ==> orders[i].id != o.id
    requires forall i :: 0 <= i < |items| ==> items[i].orderId != o.id
    requires forall i :: 0 <= i < |added| ==> added[i].orderId == o.id
    requires o.totalAmount == ItemsTotal(added)
    ensures LedgerBalanced(orders + [o], items + added)
  {
    var orders', items' := orders + [o], items + added;
    forall i | 0 <= i < |orders'|
      ensures orders'[i].totalAmount == ItemsTotal(ItemsOf(items', orders'[i].id))
    {
      var id := orders'[i].id;
      ItemsOfAppend(items, added, id);
      if i < |orders| {
        assert orders'[i] == orders[i];
        ItemsOfNone(added, id);
        assert ItemsOf(items', id) == ItemsOf(items, id) + [] == ItemsOf(items, id);
      } else {
        assert orders'[i] == o;
        ItemsOfNone(items, id);
        ItemsOfAll(added, id);
        assert ItemsOf(items', id) == [] + added == added;
      }
    }
  }

  /** The invariant every route keeps. */
  ghost predicate Valid(s: Store) {
    && (forall u :: u in s.users ==> u < s.nextUserId)
    && (forall v :: v in s.carts ==> s.carts[v] < s.nextCartId)
    && (forall v, w :: v in s.carts && w in s.carts && v != w ==> s.carts[v] != s.carts[w])
    && (forall c :: c in s.cartItems ==> c < s.nextCartId)
    && NoEmptyCart(s.cartItems)
    && (forall i, j :: 0 <= i < j < |s.orders| ==> s.orders[i].id < s.orders[j].id)
    && (forall i :: 0 <= i < |s.orders| ==> s.orders[i].id < s.nextOrderId)
    && (forall i, j :: 0 <= i < j < |s.orderItems| ==> s.orderItems[i].id < s.orderItems[j].id)
    && (forall i :: 0 <= i < |s.orderItems| ==> s.orderItems[i].id < s.nextOrderItemId)
    && (forall i :: 0 <= i < |s.orderItems| ==> s.orderItems[i].orderId < s.nextOrderId)
    && LedgerBalanced(s.orders, s.orderItems)
  }

  /** The next cart id has no items yet. */
  lemma NextCartEmpty(s: Store)
    requires Valid(s)
    ensures CartItemsOf(s.cartItems, s.nextCartId) == {}
  {
  }

  /** Inserting a user under the next auto-increment id keeps the invariant. */
  lemma AddUserKeepsValid(s: Store, u: User)
    requires Valid(s)
    ensures Valid(s.(users := s.users[s.nextUserId := u], nextUserId := s.nextUserId + 1))
  {
  }

  /** Replacing the cart items by a canonical grouping over existing cart
      ids keeps the invariant. */
  lemma CartItemsUpdateKeepsValid(s: Store, items: map<CartId, set<ArtworkId>>)
    requires Valid(s)
    requires forall c :: c in items ==> c < s.nextCartId
    requires NoEmptyCart(items)
    ensures Valid(s.(cartItems := items))
  {
  }

  /** The writes of a committed checkout: order `o` and its items `added`
      are appended with the next auto-increment ids, and cart `c` is emptied. */
  function PlaceOrder(s: Store, o: Order, added: seq<OrderItem>, c: CartId): (r: Store)
    ensures |r.orders| == |s.orders| + 1 && r.orders[..|s.orders|] == s.orders && r.orders[|s.orders|] == o
    ensures |r.orderItems| == |s.orderItems| + |added|
    ensures r.orderItems[..|s.orderItems|] == s.orderItems && r.orderItems[|s.orderItems|..] == added
    ensures CartItemsOf(r.cartItems, c) == {}
    ensures forall d :: d != c ==> CartItemsOf(r.cartItems, d) == CartItemsOf(s.cartItems, d)
    ensures r.users == s.users && r.roles == s.roles && r.artworks == s.artworks && r.carts == s.carts
    ensures r.wishlists == s.wishlists
  {
    s.(orders := s.orders + [o],
       nextOrderId := s.nextOrderId + 1,
       orderItems := s.orderItems + added,
       nextOrderItemId := s.nextOrderItemId + |added|,
       cartItems := DeleteCartItems(s.cartItems, c))
  }

  /** After placing order `o`, the items recorded for it are exactly the
      ones the placement appended. */
  lemma ItemsOfPlaced(s: Store, o: Order, added: seq<OrderItem>, c: CartId)
    requires forall i :: 0 <= i < |s.orderItems| ==> s.orderItems[i].orderId < s.nextOrderId
    requires o.id == s.nextOrderId
    requires forall i :: 0 <= i < |added| ==> added[i].orderId == o.id
    ensures ItemsOf(PlaceOrder(s, o, added, c).orderItems, o.id) == added
  {
    ItemsOfAppend(s.orderItems, added, o.id);
    ItemsOfNone(s.orderItems, o.id);
    ItemsOfAll(added, o.id);
  }

  /** Placing an order whose total is the sum of its own items, with fresh
      consecutive ids, keeps the invariant. */
  lemma {:induction false} PlaceOrderKeepsValid(s: Store, o: Order, added: seq<OrderItem>, c: CartId)
    requires Valid(s)
    requires o.id == s.nextOrderId && o.totalAmount == ItemsTotal(added)
    requires forall i :: 0 <= i < |added| ==> added[i].orderId == o.id && added[i].id == s.nextOrderItemId + i
    ensures Valid(PlaceOrder(s, o, added, c))
  {
    var s' := PlaceOrder(s, o, added, c);
    AppendKeepsLedger(s.orders, s.orderItems, o, added);
    forall i, j | 0 <= i < j < |s'.orderItems|
      ensures s'.orderItems[i].id < s'.orderItems[j].id
    {
      if j >= |s.orderItems| {
        assert s'.orderItems[j] == added[j - |s.orderItems|];
        if i >= |s.orderItems| {
          assert s'.orderItems[i] == added[i - |s.orderItems|];
        }
      }
    }
    forall i | 0 <= i < |s'.orderItems|
      ensures s'.orderItems[i].id < s'.nextOrderItemId && s'.orderItems[i].orderId < s'.nextOrderId
    {
      if i >= |s.orderItems| {
        assert s'.orderItems[i] == added[i - |s.orderItems|];
      }
    }
  }

  /** The artworks in visitor `v`'s cart (empty when the visitor has no cart row). */
  function CartContents(s: Store, v: UserId): set<ArtworkId> {
    if v in s.carts then CartItemsOf(s.cartItems, s.carts[v]) else {}
  }

  /** `SELECT artwork_id FROM cart_items WHERE cart_id = ?`. */
  function CartItemsOf(items: map<CartId, set<ArtworkId>>, c: CartId): set<ArtworkId> {
    if c in items then items[c] else {}
  }

  /** The grouped form stores no empty group, so a cart without items has no entry. */
  ghost predicate NoEmptyCart(items: map<CartId, set<ArtworkId>>) {
    forall c :: c in items ==> items[c] != {}
  }

  /** The grouped form is canonical: two groupings that list the same items
      for every cart are the same map. */
  lemma CartItemsCanonical(m1: map<CartId, set<ArtworkId>>, m2: map<CartId, set<ArtworkId>>)
    requires NoEmptyCart(m1) && NoEmptyCart(m2)
    requires forall c :: CartItemsOf(m1, c) == CartItemsOf(m2, c)
    ensures m1 == m2
  {
    assert m1.Keys == m2.Keys by {
      forall c ensures c in m1 <==> c in m2 {
        assert CartItemsOf(m1, c) == CartItemsOf(m2, c);
      }
    }
    forall c | c in m1 ensures m1[c] == m2[c] {
      assert CartItemsOf(m1, c) == CartItemsOf(m2, c);
    }
  }

  /** `INSERT IGNORE INTO cart_items (cart_id, artwork_id)`. */
  function InsertCartItem(items: map<CartId, set<ArtworkId>>, c: CartId, a: ArtworkId): (r: map<CartId, set<ArtworkId>>)
    ensures CartItemsOf(r, c) == CartItemsOf(items, c) + {a}
    ensures forall d :: d != c ==> CartItemsOf(r, d) == CartItemsOf(items, d)
    ensures r.Keys == items.Keys + {c}
    ensures forall d :: d in items && items[d] != {} ==> r[d] != {}
  {
    items[c := CartItemsOf(items, c) + {a}]
  }

  /** `DELETE FROM cart_items WHERE cart_id = ? AND artwork_id = ?`; a cart
      left with no items has no entry. */
  function DeleteCartItem(items: map<CartId, set<ArtworkId>>, c: CartId, a: ArtworkId): (r: map<CartId, set<ArtworkId>>)
    ensures CartItemsOf(r, c) == CartItemsOf(items, c) - {a}
    ensures forall d :: d != c ==> CartItemsOf(r, d) == CartItemsOf(items, d)
    ensures r.Keys <= items.Keys
    ensures forall d :: d in r ==> r[d] != {} || (d in items && items[d] == {})
  {
    var rest := CartItemsOf(items, c) - {a};
    if rest == {} then items - {c} else items[c := rest]
  }

  /** `DELETE FROM cart_items WHERE cart_id = ?`. */
  function DeleteCartItems(items: map<CartId, set<ArtworkId>>, c: CartId): (r: map<CartId, set<ArtworkId>>)
    ensures CartItemsOf(r, c) == {}
    ensures forall d :: d != c ==> CartItemsOf(r, d) == CartItemsOf(items, d)
    ensures r.Keys == items.Keys - {c}
  {
    items - {c}
  }
}
