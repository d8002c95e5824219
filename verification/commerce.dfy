/** The visitor commerce routes: wishlist and cart bookkeeping and the
    cart-to-order checkout transaction. Every route here runs behind
    `authenticate` and `requireRoles('VISITOR')` (see `Access.Guard`); the
    visitor id is the authenticated user's id. */
module Commerce {

  import opened Wrappers
  import opened Text
  import opened Collections
  import opened Store

  /** A JSON response: status code and message. */
  datatype Reply = Reply(code: nat, message: string)

  // ---------------------------------------------------------------- wishlist

  function AddToWishlist(s: Store, v: UserId, a: ArtworkId): (r: (Store, Reply))
    ensures (v, a) in r.0.wishlists
    ensures forall p :: p in r.0.wishlists <==> p in s.wishlists || p == (v, a)
    ensures r.0 == s.(wishlists := r.0.wishlists)
    ensures r.1 == Reply(201, "Added to wishlist")
  {
    (s.(wishlists := s.wishlists + {(v, a)}), Reply(201, "Added to wishlist"))
  }

  function RemoveFromWishlist(s: Store, v: UserId, a: ArtworkId): (r: (Store, Reply))
    ensures (v, a) !in r.0.wishlists
    ensures forall p :: p in r.0.wishlists <==> p in s.wishlists && p != (v, a)
    ensures r.0 == s.(wishlists := r.0.wishlists)
    ensures r.1 == Reply(200, "Removed from wishlist")
  {
    (s.(wishlists := s.wishlists - {(v, a)}), Reply(200, "Removed from wishlist"))
  }

  lemma WishlistAddIdempotent(s: Store, v: UserId, a: ArtworkId)
    ensures AddToWishlist(AddToWishlist(s, v, a).0, v, a).0 == AddToWishlist(s, v, a).0
  {
  }

  lemma WishlistRemoveAbsent(s: Store, v: UserId, a: ArtworkId)
    requires (v, a) !in s.wishlists
    ensures RemoveFromWishlist(s, v, a).0 == s
  {
  }

  // -------------------------------------------------------------------- cart

  /** `getOrCreateCart`: the visitor's cart id, inserting a fresh cart row
      (the next auto-increment id) only when none exists. */
  function GetOrCreateCart(s: Store, v: UserId): (r: (Store, CartId))
    ensures v in r.0.carts && r.0.carts[v] == r.1
    ensures v in s.carts ==> r.0 == s
    ensures v !in s.carts ==> r.1 == s.nextCartId && r.0.nextCartId == s.nextCartId + 1
    ensures r.0.carts.Keys == s.carts.Keys + {v}
    ensures forall w :: w in s.carts ==> r.0.carts[w] == s.carts[w]
    ensures r.0 == s.(carts := r.0.carts, nextCartId := r.0.nextCartId)
    ensures Valid(s) ==> Valid(r.0)
  {
    if v in s.carts then (s, s.carts[v])
    else (s.(carts := s.carts[v := s.nextCartId], nextCartId := s.nextCartId + 1), s.nextCartId)
  }

  lemma GetOrCreateCartStable(s: Store, v: UserId)
    ensures var (s1, c) := GetOrCreateCart(s, v); GetOrCreateCart(s1, v) == (s1, c)
  {
  }

  /** `POST /cart/:artworkId`: `INSERT IGNORE` of (cart, artwork). */
  function AddToCart(s: Store, v: UserId, a: ArtworkId): (r: (Store, Reply))
    ensures v in r.0.carts
    ensures CartItemsOf(r.0.cartItems, r.0.carts[v]) == CartItemsOf(s.cartItems, r.0.carts[v]) + {a}
    ensures forall c :: c != r.0.carts[v] ==> CartItemsOf(r.0.cartItems, c) == CartItemsOf(s.cartItems, c)
    ensures Valid(s) ==> CartContents(r.0, v) == CartContents(s, v) + {a}
    ensures r.0 == s.(carts := r.0.carts, nextCartId := r.0.nextCartId, cartItems := r.0.cartItems)
    ensures Valid(s) ==> Valid(r.0)
    ensures r.1 == Reply(201, "Added to cart")
  {
    var (s1, c) := GetOrCreateCart(s, v);
    var s2 := s1.(cartItems := InsertCartItem(s1.cartItems, c, a));
    assert Valid(s) ==> Valid(s2) && CartContents(s2, v) == CartContents(s, v) + {a} by {
      if Valid(s) {
        assert v !in s.carts ==> c !in s.cartItems;
        assert a in CartItemsOf(s2.cartItems, c);
        CartItemsUpdateKeepsValid(s1, s2.cartItems);
      }
    }
    (s2, Reply(201, "Added to cart"))
  }

  /** `DELETE /cart/:artworkId`. It still goes through `getOrCreateCart`, so
      a visitor without a cart gets an (empty) one. */
  function RemoveFromCart(s: Store, v: UserId, a: ArtworkId): (r: (Store, Reply))
    ensures v in r.0.carts
    ensures CartItemsOf(r.0.cartItems, r.0.carts[v]) == CartItemsOf(s.cartItems, r.0.carts[v]) - {a}
    ensures forall c :: c != r.0.carts[v] ==> CartItemsOf(r.0.cartItems, c) == CartItemsOf(s.cartItems, c)
    ensures Valid(s) ==> CartContents(r.0, v) == CartContents(s, v) - {a}
    ensures r.0 == s.(carts := r.0.carts, nextCartId := r.0.nextCartId, cartItems := r.0.cartItems)
    ensures Valid(s) ==> Valid(r.0)
    ensures r.1 == Reply(200, "Removed from cart")
  {
    var (s1, c) := GetOrCreateCart(s, v);
    var s2 := s1.(cartItems := DeleteCartItem(s1.cartItems, c, a));
    assert Valid(s) ==> Valid(s2) && CartContents(s2, v) == CartContents(s, v) - {a} by {
      if Valid(s) {
        assert v !in s.carts ==> c !in s.cartItems;
        CartItemsUpdateKeepsValid(s1, s2.cartItems);
      }
    }
    (s2, Reply(200, "Removed from cart"))
  }

  /** Adding an artwork that is already in the cart changes nothing. */
  lemma AddToCartIdempotent(s: Store, v: UserId, a: ArtworkId)
    ensures AddToCart(AddToCart(s, v, a).0, v, a).0 == AddToCart(s, v, a).0
  {
  }

  /** Removing an artwork that is not in the cart changes no cart item. */
  lemma RemoveAbsentKeepsItems(s: Store, v: UserId, a: ArtworkId)
    requires Valid(s) && a !in CartContents(s, v)
    ensures RemoveFromCart(s, v, a).0.cartItems == s.cartItems
  {
    var r := RemoveFromCart(s, v, a).0;
    assert v !in s.carts ==> r.carts[v] !in s.cartItems;
    CartItemsCanonical(r.cartItems, s.cartItems);
  }

  /** Cart edits by one visitor leave every other visitor's cart alone. */
  lemma CartEditsAreLocal(s: Store, v: UserId, w: UserId, a: ArtworkId)
    requires Valid(s) && v != w
    ensures CartContents(AddToCart(s, v, a).0, w) == CartContents(s, w)
    ensures CartContents(RemoveFromCart(s, v, a).0, w) == CartContents(s, w)
  {
    var (s1, c) := GetOrCreateCart(s, v);
    assert w in s.carts ==> s1.carts[w] != c;
  }

  /** A cart item joined with its `artworks` row (`INNER JOIN artworks a ON
      a.id = ci.artwork_id`). `GET /cart` projects the title and price of
      each row, the checkout its artist and price. */
  datatype JoinRow = JoinRow(artworkId: ArtworkId, artwork: Artwork)

  /** The cart's artworks that still join to an `artworks` row. */
  function JoinedIds(s: Store, c: CartId): set<ArtworkId> {
    CartItemsOf(s.cartItems, c) * s.artworks.Keys
  }

  /** `GET /cart`: creates the cart if needed, then lists its joined rows:
      each item of the cart whose artwork still exists, once, with that
      artwork's current row. */
  function ViewCart(s: Store, v: UserId): (r: (Store, seq<JoinRow>))
    ensures r.0 == GetOrCreateCart(s, v).0
    ensures var c := r.0.carts[v];
      && (forall i :: 0 <= i < |r.1| ==>
            && r.1[i].artworkId in CartItemsOf(s.cartItems, c) && r.1[i].artworkId in s.artworks
            && r.1[i].artwork == s.artworks[r.1[i].artworkId])
      && (forall a :: a in CartItemsOf(s.cartItems, c) && a in s.artworks ==>
            exists i :: 0 <= i < |r.1| && r.1[i].artworkId == a)
      && (forall i, j :: 0 <= i < j < |r.1| ==> r.1[i].artworkId != r.1[j].artworkId)
  {
    var s1 := GetOrCreateCart(s, v).0;
    JoinRows(s, s1.carts[v]);
    (s1, Join(s, s1.carts[v]))
  }

  /** With the invariant, the rows are exactly the artworks in the visitor's
      cart that still exist, each once with its current row; a visitor
      without a cart gets one, and an empty list. */
  lemma ViewCartShowsCart(s: Store, v: UserId)
    requires Valid(s)
    ensures var r := ViewCart(s, v);
      && (forall a :: a in CartContents(s, v) && a in s.artworks <==> exists i :: 0 <= i < |r.1| && r.1[i].artworkId == a)
      && (forall i :: 0 <= i < |r.1| ==> r.1[i].artworkId in s.artworks && r.1[i].artwork == s.artworks[r.1[i].artworkId])
      && (forall i, j :: 0 <= i < j < |r.1| ==> r.1[i].artworkId != r.1[j].artworkId)
      && (v !in s.carts ==> r.1 == [] && r.0.carts[v] == s.nextCartId)
  {
    NextCartEmpty(s);
    ViewCartRows(s, v);
  }

  lemma ViewCartRows(s: Store, v: UserId)
    requires CartItemsOf(s.cartItems, s.nextCartId) == {}
    ensures var r := ViewCart(s, v);
      && (forall a :: a in CartContents(s, v) && a in s.artworks <==> exists i :: 0 <= i < |r.1| && r.1[i].artworkId == a)
      && (forall i :: 0 <= i < |r.1| ==> r.1[i].artworkId in s.artworks && r.1[i].artwork == s.artworks[r.1[i].artworkId])
      && (forall i, j :: 0 <= i < j < |r.1| ==> r.1[i].artworkId != r.1[j].artworkId)
      && (v !in s.carts ==> r.1 == [] && r.0.carts[v] == s.nextCartId)
  {
    var r := ViewCart(s, v);
    var c := r.0.carts[v];
    if v in s.carts {
      assert CartContents(s, v) == CartItemsOf(s.cartItems, c);
    } else {
      assert JoinedIds(s, c) == {};
    }
  }

  // ---------------------------------------------------------------- checkout

  /** The body of `POST /checkout`; `None` is an absent key. */
  datatype CheckoutBody = CheckoutBody(
    paymentMethod: Option<string>,
    currency: Option<string>,
    purchaserName: Option<string>,
    mobile: Option<string>,
    address: Option<string>,
    landmark: Option<string>)

  const MissingDeliveryMessage := "purchaserName, mobile, address, and landmark are required"
  const EmptyCartMessage := "Cart is empty"
  const DefaultPaymentMethod := "UPI"
  const DefaultCurrency := "INR"
  const Paid := "PAID"

  predicate DeliveryComplete(b: CheckoutBody) {
    Truthy(b.purchaserName) && Truthy(b.mobile) && Truthy(b.address) && Truthy(b.landmark)
  }

  /** The storage steps of a checkout, in execution order. `Rollback` is the
      rollback each empty-cart answer waits for before it is sent. */
  datatype Step = Connect | Begin | SelectCart | SelectItems | Rollback | InsertOrder | InsertItems | DeleteItems | Commit

  /** Where the database throws, if anywhere, and the error's message. A
      fault at a step that is never reached has no effect. */
  datatype Fault = NoFault | FailAt(step: Step, message: string)

  predicate Fails(f: Fault, st: Step) {
    f.FailAt? && f.step == st
  }

  /** A fault in the steps every checkout with a complete delivery reaches. */
  predicate FailsEarly(f: Fault) {
    Fails(f, Connect) || Fails(f, Begin) || Fails(f, SelectCart)
  }

  /** A fault in the writes and the commit, reached only when the cart joins. */
  predicate FailsInWrites(f: Fault) {
    Fails(f, InsertOrder) || Fails(f, InsertItems) || Fails(f, DeleteItems) || Fails(f, Commit)
  }

  /** `Placed` is the 201 answer with the new order's id, status and amount;
      `Refused` is a 400 or 500 answer with its message. */
  datatype CheckoutReply = Placed(orderId: OrderId, status: string, amount: int) | Refused(code: nat, message: string)

  /** What the error handler answers for a thrown storage error. */
  function ServerError(f: Fault): (r: CheckoutReply)
    ensures r.Refused? && r.code == 500
  {
    Refused(500, if f.FailAt? && f.message != "" then f.message else "Server error")
  }

  function JoinOf(art: map<ArtworkId, Artwork>, ids: seq<ArtworkId>): (r: seq<JoinRow>)
    requires forall i :: 0 <= i < |ids| ==> ids[i] in art
    ensures |r| == |ids|
    ensures forall i :: 0 <= i < |r| ==> r[i] == JoinRow(ids[i], art[ids[i]])
  {
    if |ids| == 0 then [] else [JoinRow(ids[0], art[ids[0]])] + JoinOf(art, ids[1..])
  }

  /** One row per artwork of `ids`, carrying that artwork's current row. */
  function JoinFor(art: map<ArtworkId, Artwork>, ids: set<ArtworkId>): (r: seq<JoinRow>)
    requires ids <= art.Keys
    ensures |r| == |ids|
    ensures forall i :: 0 <= i < |r| ==> r[i].artworkId in ids && r[i].artwork == art[r[i].artworkId]
    ensures forall a :: a in ids ==> exists i :: 0 <= i < |r| && r[i].artworkId == a
    ensures forall i, j :: 0 <= i < j < |r| ==> r[i].artworkId != r[j].artworkId
  {
    var sorted := SortedIds(ids);
    forall i | 0 <= i < |sorted| ensures sorted[i] in art {
      assert sorted[i] in sorted;
    }
    var r := JoinOf(art, sorted);
    forall i | 0 <= i < |r| ensures r[i].artworkId in ids && r[i].artwork == art[r[i].artworkId] {
      assert sorted[i] in sorted;
    }
    forall a | a in ids ensures exists i :: 0 <= i < |r| && r[i].artworkId == a {
      assert r[FirstIndex(sorted, a)].artworkId == a;
    }
    r
  }

  /** The join both `GET /cart` and the checkout run: one row per item of
      cart `c` whose artwork still exists, with that artwork's current row. */
  function Join(s: Store, c: CartId): seq<JoinRow> {
    JoinFor(s.artworks, JoinedIds(s, c))
  }

  /** The join of cart `c` lists each of its items whose artwork exists,
      once, with that artwork's current row. */
  lemma JoinRows(s: Store, c: CartId)
    ensures var r := Join(s, c);
      && (forall i :: 0 <= i < |r| ==>
            && r[i].artworkId in CartItemsOf(s.cartItems, c) && r[i].artworkId in s.artworks
            && r[i].artwork == s.artworks[r[i].artworkId])
      && (forall a :: a in CartItemsOf(s.cartItems, c) && a in s.artworks ==>
            exists i :: 0 <= i < |r| && r[i].artworkId == a)
      && (forall i, j :: 0 <= i < j < |r| ==> r[i].artworkId != r[j].artworkId)
  {
    var ids := JoinedIds(s, c);
    assert forall a :: a in ids <==> a in CartItemsOf(s.cartItems, c) && a in s.artworks;
  }

  function LinesTotal(lines: seq<JoinRow>): int {
    SumOf(lines, (l: JoinRow) => l.artwork.price)
  }

  /** The `order_items` tuples of the bulk insert, one per line, with
      consecutive auto-increment ids starting at `firstId`. */
  function NewItems(orderId: OrderId, firstId: nat, lines: seq<JoinRow>): (r: seq<OrderItem>)
    ensures |r| == |lines|
    ensures forall i :: 0 <= i < |r| ==>
      r[i] == OrderItem(firstId + i, orderId, lines[i].artworkId, lines[i].artwork.artistId, lines[i].artwork.price)
  {
    seq(|lines|, i requires 0 <= i < |lines| => OrderItem(firstId + i, orderId, lines[i].artworkId, lines[i].artwork.artistId, lines[i].artwork.price))
  }

  /** The order total computed from the lines is the sum of the unit prices written. */
  lemma {:induction false} NewItemsTotal(orderId: OrderId, firstId: nat, lines: seq<JoinRow>)
    ensures ItemsTotal(NewItems(orderId, firstId, lines)) == LinesTotal(lines)
    decreases |lines|
  {
    if |lines| > 0 {
      var items := NewItems(orderId, firstId, lines);
      assert items[1..] == NewItems(orderId, firstId + 1, lines[1..]);
      NewItemsTotal(orderId, firstId + 1, lines[1..]);
    }
  }

  /** The order header the transaction inserts. */
  function NewOrder(s: Store, v: UserId, b: CheckoutBody, total: int, now: int): (o: Order)
    requires DeliveryComplete(b)
    ensures o.id == s.nextOrderId && o.visitorId == v && o.status == Paid && o.totalAmount == total
    ensures o.currency == b.currency.GetOr(DefaultCurrency) && o.paymentMethod == b.paymentMethod.GetOr(DefaultPaymentMethod)
    ensures o.purchaserName == b.purchaserName.value && o.mobile == b.mobile.value
    ensures o.address == b.address.value && o.landmark == b.landmark.value && o.createdAt == now
  {
    Order(s.nextOrderId, v, Paid, b.currency.GetOr(DefaultCurrency), total, b.paymentMethod.GetOr(DefaultPaymentMethod),
          b.purchaserName.value, b.mobile.value, b.address.value, b.landmark.value, now)
  }

  /** The store a committed checkout leaves behind: one order appended, its
      items appended, and the cart's items deleted (the cart row stays). */
  function Committed(s: Store, v: UserId, b: CheckoutBody, now: int): (s': Store)
    requires DeliveryComplete(b) && v in s.carts
    ensures |s'.orders| == |s.orders| + 1 && s'.orders[..|s.orders|] == s.orders
    ensures s'.orders[|s.orders|].id == s.nextOrderId && s'.orders[|s.orders|].visitorId == v
    ensures s'.orders[|s.orders|].status == Paid
    ensures |s'.orderItems| == |s.orderItems| + |JoinedIds(s, s.carts[v])|
    ensures s'.orderItems[..|s.orderItems|] == s.orderItems
    ensures CartItemsOf(s'.cartItems, s.carts[v]) == {}
    ensures s'.users == s.users && s'.artworks == s.artworks && s'.carts == s.carts && s'.wishlists == s.wishlists
  {
    var c := s.carts[v];
    var lines := Join(s, c);
    var order := NewOrder(s, v, b, LinesTotal(lines), now);
    PlaceOrder(s, order, NewItems(order.id, s.nextOrderItemId, lines), c)
  }

  /** `POST /checkout`. Validation happens before any storage access; the
      transaction then either commits all of its writes or, on any thrown
      storage error, rolls back and answers 500 with the store untouched.
      An empty cart is answered 400 only once its rollback has succeeded. */
  function Checkout(s: Store, v: UserId, b: CheckoutBody, now: int, fault: Fault): (r: (Store, CheckoutReply))
    ensures !DeliveryComplete(b) ==> r == (s, Refused(400, MissingDeliveryMessage))
    ensures r.1.Refused? ==> r.0 == s
    ensures r.1.Placed? <==>
      && DeliveryComplete(b) && v in s.carts && JoinedIds(s, s.carts[v]) != {}
      && !FailsEarly(fault) && !Fails(fault, SelectItems) && !FailsInWrites(fault)
    ensures DeliveryComplete(b) && FailsEarly(fault) ==> r.1 == ServerError(fault)
    ensures DeliveryComplete(b) && v in s.carts && Fails(fault, SelectItems) ==> r.1 == ServerError(fault)
    ensures DeliveryComplete(b) && !FailsEarly(fault) && (v !in s.carts || (!Fails(fault, SelectItems) && JoinedIds(s, s.carts[v]) == {}))
      ==> r.1 == if Fails(fault, Rollback) then ServerError(fault) else Refused(400, EmptyCartMessage)
    ensures DeliveryComplete(b) && v in s.carts && JoinedIds(s, s.carts[v]) != {} && FailsInWrites(fault)
      ==> r.1 == ServerError(fault)
    ensures r.1.Refused? ==> r.1.code in {400, 500}
    ensures r.1.Placed? ==>
      && r.0 == Committed(s, v, b, now)
      && r.1.orderId == s.nextOrderId && r.1.status == Paid && r.1.amount == r.0.orders[|s.orders|].totalAmount
  {
    if !DeliveryComplete(b) then (s, Refused(400, MissingDeliveryMessage))
    else if FailsEarly(fault) then (s, ServerError(fault))
    else if v !in s.carts then (s, EmptyCartAnswer(fault))
    else if Fails(fault, SelectItems) then (s, ServerError(fault))
    else CheckoutJoined(s, v, b, now, fault)
  }

  /** Whether a checkout with a complete delivery reaches step `st`: the
      first three steps always, the item query when the visitor has a cart,
      the rollback when the cart is missing or nothing joins, and the writes
      otherwise. */
  predicate Reached(s: Store, v: UserId, st: Step) {
    match st
      case Connect => true
      case Begin => true
      case SelectCart => true
      case SelectItems => v in s.carts
      case Rollback => v !in s.carts || JoinedIds(s, s.carts[v]) == {}
      case _ => v in s.carts && JoinedIds(s, s.carts[v]) != {}
  }

  /** A reply is 500 exactly when a fault was reached, and then the error
      handler's answer; any other refusal is the empty-cart 400. */
  predicate AnswersByReach(r: CheckoutReply, fault: Fault, reached: bool) {
    && (r.Refused? && r.code == 500 <==> reached)
    && (reached ==> r == ServerError(fault))
    && (r.Refused? && r.code != 500 ==> r == Refused(400, EmptyCartMessage))
  }

  /** With a complete delivery, a checkout answers 500 exactly when the
      storage throws at a step it reaches. */
  lemma FaultAnswersServerError(s: Store, v: UserId, b: CheckoutBody, now: int, fault: Fault)
    requires DeliveryComplete(b)
    ensures AnswersByReach(Checkout(s, v, b, now, fault).1, fault, fault.FailAt? && Reached(s, v, fault.step))
  {
    var r := Checkout(s, v, b, now, fault).1;
    if FailsEarly(fault) {
      assert r == ServerError(fault);
    } else if v !in s.carts {
      assert r == EmptyCartAnswer(fault);
    } else if Fails(fault, SelectItems) {
      assert r == ServerError(fault);
    } else if JoinedIds(s, s.carts[v]) == {} {
      assert r == EmptyCartAnswer(fault);
    } else {
      ReachedOnceJoined(s, v, fault);
      assert r == CheckoutJoined(s, v, b, now, fault).1;
    }
  }

  /** Once the cart joins and nothing before the writes has thrown, the
      reached faults are the faults in the writes. */
  lemma ReachedOnceJoined(s: Store, v: UserId, fault: Fault)
    requires v in s.carts && JoinedIds(s, s.carts[v]) != {}
    requires !FailsEarly(fault) && !Fails(fault, SelectItems)
    ensures fault.FailAt? && Reached(s, v, fault.step) <==> FailsInWrites(fault)
  {
  }

  /** The checkout once the cart has been found and its items selected. */
  function CheckoutJoined(s: Store, v: UserId, b: CheckoutBody, now: int, fault: Fault): (r: (Store, CheckoutReply))
    requires DeliveryComplete(b) && v in s.carts
    ensures r.1.Refused? ==> r.0 == s
    ensures JoinedIds(s, s.carts[v]) == {} ==> r.1 == EmptyCartAnswer(fault)
    ensures JoinedIds(s, s.carts[v]) != {} && FailsInWrites(fault) ==> r.1 == ServerError(fault)
    ensures r.1.Placed? <==> JoinedIds(s, s.carts[v]) != {} && !FailsInWrites(fault)
    ensures r.1.Placed? ==>
      && r.0 == Committed(s, v, b, now)
      && r.1.orderId == s.nextOrderId && r.1.status == Paid && r.1.amount == r.0.orders[|s.orders|].totalAmount
  {
    var lines := Join(s, s.carts[v]);
    if |lines| == 0 then (s, EmptyCartAnswer(fault))
    else if FailsInWrites(fault) then (s, ServerError(fault))
    else (Committed(s, v, b, now), Placed(s.nextOrderId, Paid, LinesTotal(lines)))
  }

  /** The answer once an empty cart is found: the rollback runs first, and if
      it throws, the error handler answers instead. */
  function EmptyCartAnswer(fault: Fault): (r: CheckoutReply)
    ensures r.Refused?
    ensures Fails(fault, Rollback) ==> r == ServerError(fault)
    ensures !Fails(fault, Rollback) ==> r == Refused(400, EmptyCartMessage)
  {
    if Fails(fault, Rollback) then ServerError(fault) else Refused(400, EmptyCartMessage)
  }

  /** The `order_items` rows a committed checkout of visitor `v` appends. */
  function PlacedItems(s: Store, v: UserId): seq<OrderItem>
    requires v in s.carts
  {
    NewItems(s.nextOrderId, s.nextOrderItemId, Join(s, s.carts[v]))
  }

  /** The items written for the rows of a join: one per joined artwork,
      none twice, each with that artwork's artist and price. */
  lemma NewItemsOfJoin(orderId: OrderId, firstId: nat, art: map<ArtworkId, Artwork>, ids: set<ArtworkId>,
                       lines: seq<JoinRow>)
    requires ids <= art.Keys
    requires |lines| == |ids|
    requires forall i :: 0 <= i < |lines| ==> lines[i].artworkId in ids && lines[i].artwork == art[lines[i].artworkId]
    requires forall a :: a in ids ==> exists i :: 0 <= i < |lines| && lines[i].artworkId == a
    requires forall i, j :: 0 <= i < j < |lines| ==> lines[i].artworkId != lines[j].artworkId
    ensures var items := NewItems(orderId, firstId, lines);
      && |items| == |ids|
      && (forall i :: 0 <= i < |items| ==>
            && items[i].orderId == orderId && items[i].artworkId in ids
            && items[i].artistId == art[items[i].artworkId].artistId
            && items[i].unitPrice == art[items[i].artworkId].price)
      && (forall a :: a in ids ==> exists i :: 0 <= i < |items| && items[i].artworkId == a)
      && (forall i, j :: 0 <= i < j < |items| ==> items[i].artworkId != items[j].artworkId)
  {
    var items := NewItems(orderId, firstId, lines);
    forall i | 0 <= i < |items|
      ensures items[i].orderId == orderId && items[i].artworkId in ids
      ensures items[i].artistId == art[items[i].artworkId].artistId
      ensures items[i].unitPrice == art[items[i].artworkId].price
    {
      assert items[i].artworkId == lines[i].artworkId;
    }
    forall a | a in ids ensures exists i :: 0 <= i < |items| && items[i].artworkId == a {
      var k :| 0 <= k < |lines| && lines[k].artworkId == a;
      assert items[k].artworkId == a;
    }
    forall i, j | 0 <= i < j < |items| ensures items[i].artworkId != items[j].artworkId {
      assert items[i].artworkId == lines[i].artworkId && items[j].artworkId == lines[j].artworkId;
    }
  }

  /** A placed order's items are appended after the existing ones: exactly
      one per cart item that joined to an artwork, each carrying that
      artwork's artist and its price as read inside the transaction, and all
      pointing at the new order. */
  lemma CheckoutWritesOneItemPerCartItem(s: Store, v: UserId, b: CheckoutBody, now: int)
    requires DeliveryComplete(b) && v in s.carts
    ensures Committed(s, v, b, now).orderItems == s.orderItems + PlacedItems(s, v)
    ensures |PlacedItems(s, v)| == |JoinedIds(s, s.carts[v])|
    ensures forall i :: 0 <= i < |PlacedItems(s, v)| ==>
      && PlacedItems(s, v)[i].orderId == s.nextOrderId
      && PlacedItems(s, v)[i].artworkId in JoinedIds(s, s.carts[v])
      && PlacedItems(s, v)[i].artistId == s.artworks[PlacedItems(s, v)[i].artworkId].artistId
      && PlacedItems(s, v)[i].unitPrice == s.artworks[PlacedItems(s, v)[i].artworkId].price
    ensures forall a :: a in JoinedIds(s, s.carts[v]) ==>
      exists i :: 0 <= i < |PlacedItems(s, v)| && PlacedItems(s, v)[i].artworkId == a
    ensures forall i, j :: 0 <= i < j < |PlacedItems(s, v)| ==>
      PlacedItems(s, v)[i].artworkId != PlacedItems(s, v)[j].artworkId
  {
    NewItemsOfJoin(s.nextOrderId, s.nextOrderItemId, s.artworks, JoinedIds(s, s.carts[v]), Join(s, s.carts[v]));
  }

  /** The new order is the only one appended, it is PAID, carries the
      defaults for omitted payment method and currency, and its total is the
      sum of the unit prices of its own items. */
  lemma {:induction false} CheckoutAppendsOnePaidOrder(s: Store, v: UserId, b: CheckoutBody, now: int)
    requires Valid(s) && DeliveryComplete(b) && v in s.carts
    ensures var s' := Committed(s, v, b, now);
      && |s'.orders| == |s.orders| + 1
      && s'.orders[..|s.orders|] == s.orders
      && var o := s'.orders[|s.orders|];
      && o.id == s.nextOrderId && o.visitorId == v && o.status == Paid
      && o.paymentMethod == b.paymentMethod.GetOr(DefaultPaymentMethod)
      && o.currency == b.currency.GetOr(DefaultCurrency)
      && o.totalAmount == ItemsTotal(ItemsOf(s'.orderItems, o.id))
      && |ItemsOf(s'.orderItems, o.id)| == |JoinedIds(s, s.carts[v])|
  {
    var lines := Join(s, s.carts[v]);
    var o := NewOrder(s, v, b, LinesTotal(lines), now);
    var items := NewItems(o.id, s.nextOrderItemId, lines);
    ItemsOfPlaced(s, o, items, s.carts[v]);
    NewItemsTotal(o.id, s.nextOrderItemId, lines);
  }

  /** A placed order deletes every item of the visitor's cart, including
      those whose artwork no longer exists, keeps the cart row, and touches
      no other cart. */
  lemma CheckoutEmptiesOnlyThatCart(s: Store, v: UserId, b: CheckoutBody, now: int)
    requires Valid(s) && DeliveryComplete(b) && v in s.carts
    ensures var s' := Committed(s, v, b, now);
      && s'.carts == s.carts
      && CartContents(s', v) == {}
      && (forall w :: w != v ==> CartContents(s', w) == CartContents(s, w))
      && s'.artworks == s.artworks && s'.users == s.users && s'.wishlists == s.wishlists
  {
    var s' := Committed(s, v, b, now);
    var c := s.carts[v];
    forall w | w != v && w in s.carts
      ensures CartContents(s', w) == CartContents(s, w)
    {
      assert s.carts[w] != c;
      assert forall a :: a in CartContents(s', w) <==> a in CartContents(s, w);
    }
  }

  /** Checkout keeps the store invariant, on success and on failure alike. */
  lemma {:induction false} CommittedPreservesValid(s: Store, v: UserId, b: CheckoutBody, now: int)
    requires Valid(s) && DeliveryComplete(b) && v in s.carts
    ensures Valid(Committed(s, v, b, now))
  {
    var lines := Join(s, s.carts[v]);
    var o := NewOrder(s, v, b, LinesTotal(lines), now);
    NewItemsTotal(o.id, s.nextOrderItemId, lines);
    PlaceOrderKeepsValid(s, o, NewItems(o.id, s.nextOrderItemId, lines), s.carts[v]);
  }

  lemma CheckoutPreservesValid(s: Store, v: UserId, b: CheckoutBody, now: int, fault: Fault)
    requires Valid(s)
    ensures Valid(Checkout(s, v, b, now, fault).0)
  {
    if Checkout(s, v, b, now, fault).1.Placed? {
      CommittedPreservesValid(s, v, b, now);
    }
  }

  /** The checkout transaction is not idempotent by itself, but after it
      commits the cart is empty, so an immediate second checkout by the same
      visitor is refused and writes nothing. */
  lemma SecondCheckoutFindsEmptyCart(s: Store, v: UserId, b: CheckoutBody, now: int, later: int)
    requires Valid(s)
    requires Checkout(s, v, b, now, NoFault).1.Placed?
    ensures var s' := Checkout(s, v, b, now, NoFault).0;
      Checkout(s', v, b, later, NoFault) == (s', Refused(400, EmptyCartMessage))
  {
    var s' := Checkout(s, v, b, now, NoFault).0;
    CheckoutEmptiesOnlyThatCart(s, v, b, now);
    CommittedPreservesValid(s, v, b, now);
    assert JoinedIds(s', s'.carts[v]) == {};
  }
}
