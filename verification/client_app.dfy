/** The browser application's catalog and cart logic: role display names,
    filter option lists, the catalog filter, the id-list cart and wishlist,
    derived cart totals, artwork moderation, the local sales log and the
    checkout form check. React state is modelled as plain values: each
    handler maps the old value to the new one. */
module ClientApp {

  import opened Wrappers
  import opened Text
  import opened Collections
  import Commerce

  /** The artwork fields the client logic reads. */
  datatype ClientArtwork = ClientArtwork(
    id: int,
    title: string,
    artist: string,
    culture: string,
    category: string,
    price: int,
    description: string,
    status: string)

  // ------------------------------------------------------------------- roles

  const DefaultRole := "VISITOR"

  /** `normalizeRole(role = 'VISITOR')`: first character upper-cased, the
      rest lower-cased. */
  function NormalizeRole(role: Option<string>): (r: string)
    ensures |r| == |role.GetOr(DefaultRole)|
    ensures |r| > 0 ==> r[0] == UpperChar(role.GetOr(DefaultRole)[0]) && r[1..] == Lower(role.GetOr(DefaultRole)[1..])
  {
    var s := role.GetOr(DefaultRole);
    if |s| == 0 then "" else [UpperChar(s[0])] + Lower(s[1..])
  }

  /** Normalising a normalised role changes nothing. */
  lemma NormalizeRoleIdempotent(role: Option<string>)
    ensures NormalizeRole(Some(NormalizeRole(role))) == NormalizeRole(role)
  {
    var r := NormalizeRole(role);
    if |r| > 0 {
      LowerIsLowerCase(role.GetOr(DefaultRole)[1..]);
      assert UpperChar(UpperChar(role.GetOr(DefaultRole)[0])) == UpperChar(role.GetOr(DefaultRole)[0]);
    }
  }

  /** The display name does not depend on how the role was capitalised. */
  lemma NormalizeRoleIgnoresCase(role: string)
    ensures NormalizeRole(Some(Upper(role))) == NormalizeRole(Some(role))
    ensures NormalizeRole(Some(Lower(role))) == NormalizeRole(Some(role))
  {
    if |role| > 0 {
      assert Upper(role)[1..] == Upper(role[1..]);
      assert Lower(role)[1..] == Lower(role[1..]);
      LowerOfUpper(role[1..]);
      LowerIsLowerCase(role[1..]);
    }
  }

  lemma NormalizeRoleExamples()
    ensures NormalizeRole(Some("ARTIST")) == "Artist"
    ensures NormalizeRole(None) == "Visitor"
  {
    assert Lower("RTIST") == "rtist";
    assert Lower("ISITOR") == "isitor";
  }

  // ---------------------------------------------------------- option lists

  function Cultures(arts: seq<ClientArtwork>): (r: seq<string>)
    ensures |r| == |arts|
    ensures forall i :: 0 <= i < |arts| ==> r[i] == arts[i].culture
  {
    seq(|arts|, i requires 0 <= i < |arts| => arts[i].culture)
  }

  function Categories(arts: seq<ClientArtwork>): (r: seq<string>)
    ensures |r| == |arts|
    ensures forall i :: 0 <= i < |arts| ==> r[i] == arts[i].category
  {
    seq(|arts|, i requires 0 <= i < |arts| => arts[i].category)
  }

  function Artists(arts: seq<ClientArtwork>): (r: seq<string>)
    ensures |r| == |arts|
    ensures forall i :: 0 <= i < |arts| ==> r[i] == arts[i].artist
  {
    seq(|arts|, i requires 0 <= i < |arts| => arts[i].artist)
  }

  /** `[first, ...new Set(values)]`: the catch-all entry, then each distinct
      value once, in the order it first occurs. */
  function OptionList(first: string, values: seq<string>): (r: seq<string>)
    ensures |r| >= 1 && r[0] == first
    ensures NoDuplicates(r[1..])
    ensures forall x :: x in r[1..] <==> x in values
    ensures forall i, j :: 1 <= i < j < |r| ==> FirstIndex(values, r[i]) < FirstIndex(values, r[j])
  {
    var d := Distinct(values);
    assert ([first] + d)[1..] == d;
    [first] + d
  }

  /** Every culture present in the catalog is offered exactly once after 'All'. */
  lemma CultureOptionsCoverCatalog(arts: seq<ClientArtwork>, k: nat)
    requires k < |arts|
    ensures arts[k].culture in OptionList("All", Cultures(arts))[1..]
  {
    assert Cultures(arts)[k] == arts[k].culture;
  }

  // ----------------------------------------------------------------- filter

  /** The predicate of the dashboard's `filteredArtworks`. Status is not consulted. */
  predicate Matches(search: string, culture: string, category: string, artist: string, priceRange: int, a: ClientArtwork) {
    var q := Lower(search);
    && (Contains(Lower(a.title), q) || Contains(Lower(a.artist), q) || Contains(Lower(a.description), q))
    && (culture == "All" || a.culture == culture)
    && (category == "All" || a.category == category)
    && (artist == "All" || a.artist == artist)
    && a.price <= priceRange
  }

  function FilteredArtworks(arts: seq<ClientArtwork>, search: string, culture: string, category: string,
                            artist: string, priceRange: int): (r: seq<ClientArtwork>)
    ensures forall a :: a in r <==> a in arts && Matches(search, culture, category, artist, priceRange, a)
    ensures forall a :: multiset(r)[a] == if Matches(search, culture, category, artist, priceRange, a) then multiset(arts)[a] else 0
    ensures IsSubseq(r, arts)
  {
    Filter(arts, (a: ClientArtwork) => Matches(search, culture, category, artist, priceRange, a))
  }

  /** The initial price ceiling of the dashboard's price slider. */
  const InitialPriceRange := 100000

  /** With the initial filter settings, every artwork priced within the
      initial ceiling is shown, whatever its status: when all are, the list
      is the whole catalog. */
  lemma InitialFilterShowsAll(arts: seq<ClientArtwork>)
    requires forall i :: 0 <= i < |arts| ==> arts[i].price <= InitialPriceRange
    ensures FilteredArtworks(arts, "", "All", "All", "All", InitialPriceRange) == arts
  {
    var r := FilteredArtworks(arts, "", "All", "All", "All", InitialPriceRange);
    forall a | a in arts ensures Matches("", "All", "All", "All", InitialPriceRange, a) {
      ContainsEmpty(Lower(a.title));
    }
    assert multiset(r) == multiset(arts);
    assert |r| == |multiset(r)|;
    SubseqLength(r, arts);
  }

  // ---------------------------------------------------------- cart, wishlist

  /** The predicate `item !== id`. */
  function Other(id: int): int -> bool {
    (x: int) => x != id
  }

  /** `toggleCart` and `toggleWishlist`: remove the id if present, else append it. */
  function Toggle(ids: seq<int>, id: int): (r: seq<int>)
    ensures id in r <==> id !in ids
    ensures forall x :: x != id ==> (x in r <==> x in ids)
    ensures id in ids ==> IsSubseq(r, ids)
    ensures id !in ids ==> r == ids + [id]
    ensures NoDuplicates(ids) ==> NoDuplicates(r)
  {
    if id in ids then
      var r := Filter(ids, Other(id));
      assert NoDuplicates(ids) ==> NoDuplicates(r) by {
        if NoDuplicates(ids) {
          FilterNoDuplicates(ids, Other(id));
        }
      }
      r
    else ids + [id]
  }

  /** Toggling an absent id twice restores the list. */
  lemma ToggleTwiceRestores(ids: seq<int>, id: int)
    requires id !in ids
    ensures Toggle(Toggle(ids, id), id) == ids
  {
    FilterAppend(ids, [id], Other(id));
    FilterAll(ids, Other(id));
    assert Filter([id], Other(id)) == [];
  }

  /** Toggling a present id of a duplicate-free list twice moves it to the end. */
  lemma ToggleTwiceMovesToEnd(ids: seq<int>, id: int)
    requires id in ids && NoDuplicates(ids)
    ensures id in Toggle(Toggle(ids, id), id)
    ensures forall x :: x in Toggle(Toggle(ids, id), id) <==> x in ids
  {
  }

  /** `artworks.filter((a) => cart.includes(a.id))`: catalog order, not cart order. */
  function CartItems(arts: seq<ClientArtwork>, cart: seq<int>): (r: seq<ClientArtwork>)
    ensures forall a :: a in r <==> a in arts && a.id in cart
    ensures IsSubseq(r, arts)
    ensures |r| <= |arts|
  {
    if |arts| == 0 then []
    else
      var rest := CartItems(arts[1..], cart);
      assert forall a :: a in arts <==> a == arts[0] || a in arts[1..];
      if arts[0].id in cart then
        assert ([arts[0]] + rest)[1..] == rest;
        [arts[0]] + rest
      else rest
  }

  /** `cartItems.reduce((sum, item) => sum + item.price, 0)`. */
  function CartTotal(arts: seq<ClientArtwork>, cart: seq<int>): int {
    Prices(CartItems(arts, cart))
  }

  function Prices(items: seq<ClientArtwork>): int {
    if |items| == 0 then 0 else items[0].price + Prices(items[1..])
  }

  /** The total price of the catalog entries carrying `id`. */
  function PriceOfId(arts: seq<ClientArtwork>, id: int): int {
    if |arts| == 0 then 0 else (if arts[0].id == id then arts[0].price else 0) + PriceOfId(arts[1..], id)
  }

  /** Adding an id to the cart adds the price of the catalog entries with
      that id; removing it subtracts the same amount. */
  lemma {:induction false} ToggleCartTotal(arts: seq<ClientArtwork>, cart: seq<int>, id: int)
    ensures id !in cart ==> CartTotal(arts, Toggle(cart, id)) == CartTotal(arts, cart) + PriceOfId(arts, id)
    ensures id in cart ==> CartTotal(arts, Toggle(cart, id)) == CartTotal(arts, cart) - PriceOfId(arts, id)
  {
    if |arts| > 0 {
      ToggleCartTotal(arts[1..], cart, id);
      var t := Toggle(cart, id);
      assert CartItems(arts, t) == (if arts[0].id in t then [arts[0]] else []) + CartItems(arts[1..], t);
      assert CartItems(arts, cart) == (if arts[0].id in cart then [arts[0]] else []) + CartItems(arts[1..], cart);
      PricesAppend(if arts[0].id in t then [arts[0]] else [], CartItems(arts[1..], t));
      PricesAppend(if arts[0].id in cart then [arts[0]] else [], CartItems(arts[1..], cart));
    }
  }

  lemma {:induction false} PricesAppend(xs: seq<ClientArtwork>, ys: seq<ClientArtwork>)
    ensures Prices(xs + ys) == Prices(xs) + Prices(ys)
  {
    if |xs| == 0 {
      assert xs + ys == ys;
    } else {
      assert (xs + ys)[1..] == xs[1..] + ys;
      PricesAppend(xs[1..], ys);
    }
  }

  /** The cart total counted id by id, in cart order. */
  function IdPrices(arts: seq<ClientArtwork>, cart: seq<int>): int {
    if |cart| == 0 then 0 else IdPrices(arts, cart[..|cart| - 1]) + PriceOfId(arts, cart[|cart| - 1])
  }

  /** For a cart without repeated ids, the total of the catalog entries in
      the cart is the sum, over the cart's ids, of the prices of the entries
      carrying each id. */
  lemma {:induction false} CartTotalByIds(arts: seq<ClientArtwork>, cart: seq<int>)
    requires NoDuplicates(cart)
    ensures CartTotal(arts, cart) == IdPrices(arts, cart)
  {
    if |cart| == 0 {
      EmptyCartItems(arts);
    } else {
      var c := cart[..|cart| - 1];
      var x := cart[|cart| - 1];
      assert NoDuplicates(c) by {
        forall i, j | 0 <= i < j < |c| ensures c[i] != c[j] {
          assert c[i] == cart[i] && c[j] == cart[j];
        }
      }
      assert x !in c by {
        forall i | 0 <= i < |c| ensures c[i] != x {
          assert c[i] == cart[i];
        }
      }
      CartTotalByIds(arts, c);
      ToggleCartTotal(arts, c, x);
      assert c + [x] == cart;
    }
  }

  lemma {:induction false} EmptyCartItems(arts: seq<ClientArtwork>)
    ensures CartItems(arts, []) == []
  {
    if |arts| > 0 {
      EmptyCartItems(arts[1..]);
    }
  }

  /** With unique catalog ids, the amount is the artwork's own price. */
  lemma {:induction false} PriceOfUniqueId(arts: seq<ClientArtwork>, k: nat)
    requires k < |arts|
    requires forall i, j :: 0 <= i < j < |arts| ==> arts[i].id != arts[j].id
    ensures PriceOfId(arts, arts[k].id) == arts[k].price
  {
    if k == 0 {
      PriceOfAbsentId(arts[1..], arts[0].id);
    } else {
      assert arts[0].id != arts[k].id;
      PriceOfUniqueId(arts[1..], k - 1);
    }
  }

  lemma {:induction false} PriceOfAbsentId(arts: seq<ClientArtwork>, id: int)
    requires forall i :: 0 <= i < |arts| ==> arts[i].id != id
    ensures PriceOfId(arts, id) == 0
  {
    if |arts| > 0 {
      PriceOfAbsentId(arts[1..], id);
    }
  }

  // -------------------------------------------------------------- moderation

  /** `updateArtworkStatus`: only the status of records with that id changes. */
  function UpdateArtworkStatus(arts: seq<ClientArtwork>, id: int, status: string): (r: seq<ClientArtwork>)
    ensures |r| == |arts|
    ensures forall i :: 0 <= i < |arts| ==> r[i].id == arts[i].id
    ensures forall i :: 0 <= i < |arts| && arts[i].id == id ==> r[i].status == status
    ensures forall i :: 0 <= i < |arts| ==> r[i].(status := arts[i].status) == arts[i]
    ensures forall i :: 0 <= i < |arts| && arts[i].id != id ==> r[i] == arts[i]
  {
    seq(|arts|, i requires 0 <= i < |arts| => if arts[i].id == id then arts[i].(status := status) else arts[i])
  }

  lemma UpdateArtworkStatusIdempotent(arts: seq<ClientArtwork>, id: int, status: string)
    ensures UpdateArtworkStatus(UpdateArtworkStatus(arts, id, status), id, status) == UpdateArtworkStatus(arts, id, status)
  {
  }

  /** The predicate `a.id !== id`. */
  function NotId(id: int): ClientArtwork -> bool {
    (a: ClientArtwork) => a.id != id
  }

  /** `removeArtwork`: drops every record with that id, keeps the rest in order. */
  function RemoveArtwork(arts: seq<ClientArtwork>, id: int): (r: seq<ClientArtwork>)
    ensures forall a :: a in r <==> a in arts && a.id != id
    ensures forall a :: multiset(r)[a] == if a.id != id then multiset(arts)[a] else 0
    ensures IsSubseq(r, arts)
  {
    Filter(arts, NotId(id))
  }

  datatype UploadForm = UploadForm(title: string, category: string, culture: string, price: string, description: string)

  const UploadMissingMessage := "Please fill all required fields"

  /** `handleArtworkUpload`: the new id is the catalog length plus one. The
      string-to-number conversion of the price is a parameter. */
  function Upload(arts: seq<ClientArtwork>, form: UploadForm, image: string, userName: Option<string>,
                  number: string -> int): (r: (seq<ClientArtwork>, Option<string>))
    ensures r.1.None? <==> form.title != "" && form.price != "" && image != ""
    ensures r.1.Some? ==> r == (arts, Some(UploadMissingMessage))
    ensures r.1.None? ==>
      && |r.0| == |arts| + 1 && r.0[..|arts|] == arts
      && r.0[|arts|].id == |arts| + 1
      && r.0[|arts|].title == form.title
      && r.0[|arts|].artist == OrElse(userName, "Unknown Artist")
      && r.0[|arts|].culture == form.culture
      && r.0[|arts|].category == form.category
      && r.0[|arts|].price == number(form.price)
      && r.0[|arts|].description == form.description
      && r.0[|arts|].status == "pending"
  {
    if form.title == "" || form.price == "" || image == "" then (arts, Some(UploadMissingMessage))
    else
      var a := ClientArtwork(|arts| + 1, form.title, OrElse(userName, "Unknown Artist"), form.culture,
                             form.category, number(form.price), form.description, "pending");
      (arts + [a], None)
  }

  /** Length-based ids are not unique: after a removal, an upload can reuse
      the id of a record that is still in the catalog. */
  lemma UploadIdCanCollide(a1: ClientArtwork, a2: ClientArtwork, form: UploadForm, image: string, number: string -> int)
    requires a1.id == 1 && a2.id == 2
    requires form.title != "" && form.price != "" && image != ""
    ensures var arts := Upload(RemoveArtwork([a1, a2], 1), form, image, None, number).0;
      |arts| == 2 && arts[0].id == arts[1].id
  {
    assert [a1, a2][1..] == [a2];
    assert [a2][1..] == [];
    assert RemoveArtwork([a1, a2], 1) == [a2];
  }

  /** While the ids are exactly 1 to n, in any order, the length-based id
      of an upload is fresh and the ids stay exactly 1 to n + 1. */
  lemma UploadIdFreshWhileDense(arts: seq<ClientArtwork>, form: UploadForm, image: string, userName: Option<string>,
                                number: string -> int)
    requires forall i :: 0 <= i < |arts| ==> 1 <= arts[i].id <= |arts|
    requires forall i, j :: 0 <= i < j < |arts| ==> arts[i].id != arts[j].id
    requires form.title != "" && form.price != "" && image != ""
    ensures var r := Upload(arts, form, image, userName, number).0;
      && (forall i :: 0 <= i < |r| ==> 1 <= r[i].id <= |r|)
      && (forall i, j :: 0 <= i < j < |r| ==> r[i].id != r[j].id)
  {
    var r := Upload(arts, form, image, userName, number).0;
    forall i | 0 <= i < |r| ensures 1 <= r[i].id <= |r| {
      if i < |arts| {
        assert r[i] == r[..|arts|][i];
      }
    }
    forall i, j | 0 <= i < j < |r| ensures r[i].id != r[j].id {
      assert r[i] == r[..|arts|][i];
      if j < |arts| {
        assert r[j] == r[..|arts|][j];
      }
    }
  }

  // ------------------------------------------------------------ sales log

  /** A locally recorded sale. Its id is the millisecond stamp and the
      item's index (`${Date.now()}-${index}`). */
  datatype SaleRecord = SaleRecord(stamp: int, index: nat, createdAt: int, artworkTitle: string, artist: string,
                                   buyer: string, price: int)

  function BuyerName(userName: Option<string>, purchaserName: Option<string>): string {
    OrElse(userName, OrElse(purchaserName, "Guest"))
  }

  /** `recordCompletedSales`: nothing for an empty list, otherwise one record
      per item, in item order, in front of the existing records. */
  function RecordCompletedSales(records: seq<SaleRecord>, items: seq<ClientArtwork>, userName: Option<string>,
                                purchaserName: Option<string>, stamp: int, now: int): (r: seq<SaleRecord>)
    ensures |items| == 0 ==> r == records
    ensures |r| == |items| + |records| && r[|items|..] == records
    ensures forall i :: 0 <= i < |items| ==>
      && r[i].index == i && r[i].stamp == stamp && r[i].createdAt == now
      && r[i].artworkTitle == items[i].title && r[i].artist == items[i].artist
      && r[i].price == items[i].price
      && r[i].buyer == BuyerName(userName, purchaserName)
  {
    if |items| == 0 then records
    else
      var buyer := BuyerName(userName, purchaserName);
      var sold := seq(|items|, i requires 0 <= i < |items| =>
        SaleRecord(stamp, i, now, items[i].title, items[i].artist, buyer, items[i].price));
      sold + records
  }

  lemma BuyerNamePreference(userName: Option<string>, purchaserName: Option<string>)
    ensures Truthy(userName) ==> BuyerName(userName, purchaserName) == userName.value
    ensures !Truthy(userName) && Truthy(purchaserName) ==> BuyerName(userName, purchaserName) == purchaserName.value
    ensures !Truthy(userName) && !Truthy(purchaserName) ==> BuyerName(userName, purchaserName) == "Guest"
  {
  }

  // --------------------------------------------------------------- checkout

  datatype CheckoutForm = CheckoutForm(purchaserName: string, mobile: string, address: string, landmark: string,
                                       paymentMethod: string)

  /** What `handleCheckout` does before any network activity: refuse with a
      message, or send this body. */
  datatype CheckoutAttempt = Invalid(message: string) | Send(body: Commerce.CheckoutBody)

  const CheckoutMissingMessage := "Please fill all required fields"

  function HandleCheckout(form: CheckoutForm): (r: CheckoutAttempt)
    ensures r.Invalid? <==> form.purchaserName == "" || form.mobile == "" || form.address == "" || form.landmark == ""
    ensures r.Invalid? ==> r.message == CheckoutMissingMessage
    ensures r.Send? ==> r.body.currency == Some("INR") && r.body.paymentMethod == Some(form.paymentMethod)
    ensures r.Send? ==>
      && r.body.purchaserName == Some(form.purchaserName) && r.body.mobile == Some(form.mobile)
      && r.body.address == Some(form.address) && r.body.landmark == Some(form.landmark)
  {
    if form.purchaserName == "" || form.mobile == "" || form.address == "" || form.landmark == "" then
      Invalid(CheckoutMissingMessage)
    else
      Send(Commerce.CheckoutBody(Some(form.paymentMethod), Some("INR"), Some(form.purchaserName), Some(form.mobile),
                                 Some(form.address), Some(form.landmark)))
  }

  /** The client's form check is the server's: every body the client sends
      passes the server's delivery check, and every form the client refuses
      would have been refused by it. */
  lemma ClientCheckMatchesServer(form: CheckoutForm)
    ensures HandleCheckout(form).Send? ==> Commerce.DeliveryComplete(HandleCheckout(form).body)
    ensures HandleCheckout(form).Invalid? ==>
      !Commerce.DeliveryComplete(Commerce.CheckoutBody(Some(form.paymentMethod), Some("INR"), Some(form.purchaserName),
                                                       Some(form.mobile), Some(form.address), Some(form.landmark)))
  {
  }
}
