# Virtual art gallery — a Dafny model of its core

The gallery is a React front end with an Express/MySQL back end. This
project models its decision-making core as pure Dafny functions over
immutable data:

- **Checkout of a visitor's cart into a paid order** (`Commerce`, `Store`).
  - The MySQL tables `carts`, `cart_items`, `artworks`, `orders`, `order_items`, `users`, `roles` and `wishlists` become one `Store` record.
  - `Store.Valid` is the invariant: unique and increasing ids, counters ahead of every id, every order's total equal to the sum of its items' unit prices, and no empty cart entry.
  - Checkout is a total function. A storage failure at any step is a `Fault` parameter. Every refusal returns the input store unchanged.
- **The admin reports** over the same store (`Analytics`): the overview counts and the per-line-item transaction ledger.
- **The in-memory artwork catalog** that the artworks router serves (`Catalog`): list with filters, get, create (next id = max + 1), merge-update and delete.
- **The authentication middleware and route gates** (`Access`, `ProtectedRoute`).
- **Registration and sign-in on the server** (`AuthRoutes`). Password hashing, hash comparison, token signing and token verification are function parameters.
- **Client logic:**
  - the dashboard's cart, wishlist, filters, option lists, sales records and checkout form (`ClientApp`);
  - the public gallery page's own filter and its cart that accepts repeats (`Gallery`). The model describes the component as written. The app renders `<Gallery />` without an `artworks` prop (`src/App.jsx:441`), so at run time the page filters its default empty list;
  - the sign-in form's e-mail pattern, CAPTCHA and check order (`LoginForm`);
  - the landing page's spotlight, role-to-page map and registration checks (`Home`).
- **Shared helpers:**
  - `Wrappers`: `Option`.
  - `Text`: JavaScript truthiness, `||` defaults, ASCII case mapping, `trim`, `includes`.
  - `Collections`: an order-preserving filter, de-duplication in first-occurrence order, a stable descending sort, and sums.

Storage failures, `Math.random` draws, string-to-number conversion and the crypto functions enter as parameters, so each operation is a total function of its inputs.

## Model

| member | source | states |
|---|---|---|
| Store.AppendKeepsLedger | backend/src/routes/commerce.routes.js:139-151 | If a new order's total is the sum of its new items' unit prices and no old row uses its id, every order's total still equals the sum of its own items. |
| Store.PlaceOrderKeepsValid | backend/src/routes/commerce.routes.js:140-153 | Writing one order, its items with consecutive fresh ids, and emptying a cart keeps the store invariant. |
| Store.InsertCartItem | backend/src/routes/commerce.routes.js:76-79 | The cart gains exactly the artwork. Every other cart is unchanged. No non-empty entry is lost. |
| Store.DeleteCartItem | backend/src/routes/commerce.routes.js:88-91 | The cart loses exactly the artwork. Every other cart is unchanged. |
| Store.PlaceOrder | backend/src/routes/commerce.routes.js:140-153 | The order is appended after the old orders, its items after the old items, and the cart's items are emptied while every other cart keeps its items. Users, roles, artworks, carts and wishlists are unchanged. |
| Store.DeleteCartItems | backend/src/routes/commerce.routes.js:153 | The cart ends up empty and its entry is gone. Every other cart is unchanged. |
| Commerce.AddToWishlist | backend/src/routes/commerce.routes.js:25-34 | The pair is in the wishlist afterwards. Exactly that pair is added. Nothing else in the store changes. Answers 201. |
| Commerce.RemoveFromWishlist | backend/src/routes/commerce.routes.js:36-45 | The pair is absent afterwards. Exactly that pair is removed. Nothing else changes. Answers 200. |
| Commerce.WishlistAddIdempotent | backend/src/routes/commerce.routes.js:28-31 | Adding the same pair twice leaves the store as adding it once (INSERT IGNORE). |
| Commerce.WishlistRemoveAbsent | backend/src/routes/commerce.routes.js:39-42 | Removing a pair that is not there leaves the store unchanged. |
| Commerce.GetOrCreateCart | backend/src/routes/commerce.routes.js:47-55 | An existing cart is returned with the store untouched. Otherwise exactly one cart is created with the next cart id. Other visitors' carts are kept. The invariant is kept. |
| Commerce.GetOrCreateCartStable | backend/src/routes/commerce.routes.js:47-55 | A second call finds the cart the first created and changes nothing. |
| Commerce.AddToCart | backend/src/routes/commerce.routes.js:72-82 | The visitor's cart contents become the old contents plus the artwork. Every other cart is unchanged. Only cart tables change. The invariant is kept. Answers 201. |
| Commerce.RemoveFromCart | backend/src/routes/commerce.routes.js:84-94 | The visitor's cart contents become the old contents minus the artwork. Every other cart is unchanged. The invariant is kept. Answers 200. |
| Commerce.AddToCartIdempotent | backend/src/routes/commerce.routes.js:76-79 | Adding the same artwork twice gives the same store as adding it once. |
| Commerce.RemoveAbsentKeepsItems | backend/src/routes/commerce.routes.js:88-91 | Removing an artwork that is not in the cart leaves every cart's items unchanged. |
| Commerce.CartEditsAreLocal | backend/src/routes/commerce.routes.js:72-94 | Adding or removing for one visitor never changes another visitor's cart contents. |
| Commerce.ViewCart | backend/src/routes/commerce.routes.js:57-70 | The store is the one the cart lookup leaves. Every row is an artwork in the visitor's cart that still exists, carrying its current data. Every such artwork has a row, and no artwork has two. |
| Commerce.JoinRows | backend/src/routes/commerce.routes.js:61-67 | The cart-to-artworks join lists exactly the cart's existing artworks, each once, with its current record. |
| Commerce.ViewCartShowsCart | backend/src/routes/commerce.routes.js:47-70 | In a valid store, the rows are exactly the cart's artworks that still exist, each once, with that artwork's current data. A visitor with no cart gets a new cart with the next cart id and no rows. |
| Commerce.JoinFor | backend/src/routes/commerce.routes.js:126-137 | The join yields one row per cart artwork, each carrying that artwork's stored record, with no artwork twice. |
| Commerce.NewItems | backend/src/routes/commerce.routes.js:147-151 | One order item per joined row: consecutive ids, the new order's id, and that artwork's artist and price at checkout time. |
| Commerce.NewItemsTotal | backend/src/routes/commerce.routes.js:139-151 | The order items written sum to the total computed from the joined rows. |
| Commerce.NewOrder | backend/src/routes/commerce.routes.js:99-145 | The order takes the next order id, the visitor, status PAID and the computed total. Currency defaults to INR and payment method to UPI when omitted. |
| Commerce.Committed | backend/src/routes/commerce.routes.js:139-154 | The committed writes append one PAID order with the next order id for the visitor, and one order item per joined artwork after the old items. The cart's items are emptied. Users, artworks, carts and wishlists are unchanged. |
| Commerce.EmptyCartAnswer | backend/src/routes/commerce.routes.js:120-123 | An empty cart is answered 400 "Cart is empty" after the rollback. It is answered 500 when the rollback itself fails. |
| Commerce.CheckoutJoined | backend/src/routes/commerce.routes.js:134-163 | Once the cart is found, an empty join gives the empty-cart answer and a failing write gives 500. An order is placed iff some artwork joins and no write fails. Refusals keep the store. |
| Commerce.ServerError | backend/src/routes/commerce.routes.js:161-163 | A storage failure is answered with a 500 refusal. |
| Commerce.Checkout | backend/src/routes/commerce.routes.js:96-168 | A missing delivery field gives 400 with no storage access. A failing connection, transaction start or cart lookup gives 500. A missing cart, or one with no existing artwork, gives 400 "Cart is empty", or 500 when that rollback fails. A failing item query or write gives 500. An order is placed iff delivery is complete, some cart item joins, and no step fails. Every refusal (400 or 500) leaves the store unchanged. Success answers the new order id, PAID and the new order's total. |
| Commerce.FaultAnswersServerError | backend/src/routes/commerce.routes.js:114-163 | With complete delivery data, the answer is 500 exactly when the failing step is one the request reaches, and that 500 is the failure's answer. Any other refusal is 400 "Cart is empty". |
| Commerce.CheckoutWritesOneItemPerCartItem | backend/src/routes/commerce.routes.js:126-151 | A committed checkout appends exactly one order item per joined cart artwork. Each carries that artwork's artist and price, and no artwork appears twice. |
| Commerce.NewItemsOfJoin | backend/src/routes/commerce.routes.js:126-151 | The items written for a join of distinct existing artworks are one per artwork, none twice, each carrying that artwork's artist and price and the new order's id. |
| Commerce.CheckoutAppendsOnePaidOrder | backend/src/routes/commerce.routes.js:139-160 | Exactly one PAID order is appended with the defaults applied. Its total equals the sum of its items' unit prices, and it has one item per joined cart artwork. |
| Commerce.CheckoutEmptiesOnlyThatCart | backend/src/routes/commerce.routes.js:153 | After a placed order the visitor's cart is empty, including artworks that no longer join. The cart row remains. Other carts, artworks, users and wishlists are unchanged. |
| Commerce.CommittedPreservesValid | backend/src/routes/commerce.routes.js:139-154 | The committed writes keep the store invariant. |
| Commerce.CheckoutPreservesValid | backend/src/routes/commerce.routes.js:108-163 | Checkout keeps the store invariant on every path, including refusals and rollbacks. |
| Commerce.SecondCheckoutFindsEmptyCart | backend/src/routes/commerce.routes.js:119-137 | Right after a placed order, a second checkout by the same visitor is refused with 400 "Cart is empty". |
| Analytics.PaidRevenue | backend/src/routes/analytics.routes.js:17-19 | The revenue is 0 when no order is PAID, and never negative when no PAID total is. |
| Analytics.PaidCount | backend/src/routes/analytics.routes.js:16 | The sale count is at most the number of orders, and is zero exactly when no order is PAID. |
| Analytics.PaidTotalsAreSelectionTotals | backend/src/routes/analytics.routes.js:16-19 | The sale count and the revenue equal the size and the total of the selection of PAID orders. |
| Analytics.PaidTotalsAppend | backend/src/routes/analytics.routes.js:16-19 | Count and revenue add up over concatenated order lists. |
| Analytics.ActiveUsers | backend/src/routes/analytics.routes.js:13 | Exactly the users whose active flag is set are counted. |
| Analytics.ArtworksWithStatus | backend/src/routes/analytics.routes.js:14-15 | Exactly the artworks whose status equals the given upper-case status are counted. |
| Analytics.OverviewOf | backend/src/routes/analytics.routes.js:10-29 | Users counts active users only. Approved and pending count exact upper-case statuses and together never exceed the artworks. Sales and revenue are the PAID count and total. Revenue is 0 when there are no sales. |
| Analytics.NoPaidNoRevenue | backend/src/routes/analytics.routes.js:17-19 | With no PAID order the revenue is 0. |
| Analytics.CheckoutAddsOneSale | backend/src/routes/analytics.routes.js:16-19 | A placed checkout raises sales by one and revenue by the amount it answered, and leaves the other figures alone. A refused checkout changes no figure. |
| Analytics.RowsForItemMembers | backend/src/routes/analytics.routes.js:35-49 | The rows for one order item are exactly its joins with PAID orders whose buyer and artwork exist. |
| Analytics.JoinedRowsMembers | backend/src/routes/analytics.routes.js:35-49 | A row is in the joined result iff some (order item, order) pair meets the join and the WHERE clause. |
| Analytics.Transactions | backend/src/routes/analytics.routes.js:31-55 | The ledger is a permutation of the joined rows, sorted by order time descending and then by order item id descending. |
| Analytics.TransactionRowsAreLineItems | backend/src/routes/analytics.routes.js:35-49 | Each ledger row is one line item of a PAID order with existing buyer and artwork, carrying that item's unit price. Every such pair appears. |
| Analytics.AdminOnly | backend/src/routes/analytics.routes.js:8 | A report is served iff the authentication and ADMIN gate pass. Otherwise the answer is 401 or 403. |
| Analytics.OverviewRoute | backend/src/routes/analytics.routes.js:8-29 | A served overview reports the PAID count and revenue and the active-user count. A refusal is 401 or 403. |
| Analytics.TransactionsRoute | backend/src/routes/analytics.routes.js:8-55 | A served ledger is a permutation of the joined PAID line items, sorted by order time and then item id, both descending. A refusal is 401 or 403. |
| Analytics.ReportsOnlyForAdmins | backend/src/routes/analytics.routes.js:8 | Both reports are served exactly to a bearer token that verifies to ADMIN claims, given the runtime configuration. |
| Access.TokenOf | backend/src/middleware/auth.js:11 | The token is the header with the "Bearer " prefix removed. |
| Access.Authenticate | backend/src/middleware/auth.js:4-17 | A header without the prefix gives 401 "Missing or invalid authorization token". A token the verifier rejects gives 401 "Invalid or expired token". Passing happens exactly when the verifier accepts, and the user is its claims. |
| Access.BadHeaderSkipsVerifier | backend/src/middleware/auth.js:6-8 | Without a bearer header the answer does not depend on the verifier. |
| Access.VerifierSeesOnlyToken | backend/src/middleware/auth.js:10-16 | The decision depends on the verifier only through its answer for the stripped token. |
| Access.RequireRoles | backend/src/middleware/auth.js:19-40 | No user gives 401. A role not in the list gives 403. The admin e-mail gate gives 403. Passing happens iff a user with a listed role clears the admin gate. |
| Access.Guard | backend/src/middleware/auth.js:4-40 | The chained middleware passes iff authentication passes and the role gate passes on its claims. An authentication refusal is returned as is. |
| Access.RuntimeAdminGateOpen | backend/src/config/env.js:5-14 | With no admin e-mail configured, the role gate reduces to list membership. |
| Access.RoleMatchIsCaseSensitive | backend/src/middleware/auth.js:25-27 | A lower-case "admin" role is refused by an ADMIN-only gate. |
| Access.AdminGateMatchesEmail | backend/src/middleware/auth.js:29-36 | With an admin e-mail configured, an ADMIN passes iff their lower-cased e-mail equals it. |
| AuthRoutes.NormalEmail | backend/src/routes/auth.routes.js:19 | The normalised e-mail is the trimmed input with each character lower-cased in place. It is lower case and neither starts nor ends with white space. |
| AuthRoutes.NormalEmailIdempotent | backend/src/routes/auth.routes.js:19 | Normalising a normalised e-mail changes nothing. |
| AuthRoutes.NormalRole | backend/src/routes/auth.routes.js:20 | The normalised role is the trimmed input with each character upper-cased in place. It holds no lower-case letter and neither starts nor ends with white space. |
| AuthRoutes.NormalRoleIdempotent | backend/src/routes/auth.routes.js:20 | Normalising a normalised role changes nothing. |
| AuthRoutes.Register | backend/src/routes/auth.routes.js:10-54 | The checks run in order: missing field 400, admin gate 403, taken e-mail 409, unknown role 400. A new user is stored with the normalised e-mail and role, the hashed password and the active flag, and answered 201 with a signed token. Every refusal leaves the store unchanged. |
| AuthRoutes.NoAdminRegistrationAtRuntime | backend/src/routes/auth.routes.js:22-24 | Without a configured admin e-mail, registering as ADMIN is always refused with 403. |
| AuthRoutes.RegisterPreservesValid | backend/src/routes/auth.routes.js:36-52 | Registration keeps the store invariant, and every stored e-mail stays in normal form. |
| AuthRoutes.LoginMatches | backend/src/routes/auth.routes.js:67-73 | The candidates are exactly the active users whose lower-cased e-mail equals the normalised one. |
| AuthRoutes.Login | backend/src/routes/auth.routes.js:56-100 | A missing field gives 400. No candidate gives 401. For the lowest-id candidate, a wrong password gives 401 "Invalid credentials" and the admin gate gives 403. Login succeeds iff the password compares and the gate lets the candidate through. A success carries the stored name, e-mail and role with a token signed over them. Every refusal is 400, 401 or 403. |
| AuthRoutes.AdminEmailOnlyGatesAdmins | backend/src/routes/auth.routes.js:91-93 | The configured admin e-mail changes the answer only for ADMIN users. An ADMIN whose password compares is refused 403 when an admin e-mail is set and differs from the lower-cased stored e-mail. |
| AuthRoutes.UnknownEmailLooksLikeWrongPassword | backend/src/routes/auth.routes.js:75-82 | An unknown or inactive e-mail and a wrong password get the identical 401 "Invalid credentials". |
| AuthRoutes.RegisterThenLogin | backend/src/routes/auth.routes.js:19-98 | After a successful registration, logging in with any e-mail spelling that normalises the same and with the same password returns the same user and token. |
| AuthRoutes.RegisteredIsOnlyMatch | backend/src/routes/auth.routes.js:19-52 | Right after a registration with no configured admin e-mail, the new user is the only active user whose e-mail matches the normalised e-mail. |
| AuthRoutes.LoginSingleMatch | backend/src/routes/auth.routes.js:67-98 | Without a configured admin e-mail, when exactly one user matches and the password compares, login answers 200 with that user's stored name, e-mail and role and a token signed over them. |
| AuthRoutes.ForgotPassword | backend/src/routes/auth.routes.js:102-108 | With an e-mail the answer is the fixed 200 stub message. Without one it is 400. |
| Catalog.SeedsValid | backend/src/routes/artworks.routes.js:5-54 | The three seeded records have unique ids and lower-case statuses. |
| Catalog.List | backend/src/routes/artworks.routes.js:58-77 | A record is listed iff it passes the lower-cased status filter and the case-insensitive search over title, artist and description. The result keeps catalog order. |
| Catalog.ListWithoutFilters | backend/src/routes/artworks.routes.js:58-77 | With no status and an empty search, the whole catalog is listed. |
| Catalog.FindIndex | backend/src/routes/artworks.routes.js:119-125 | The first index whose id equals the path id. None exactly when no record has that id or the id is not a number. |
| Catalog.Get | backend/src/routes/artworks.routes.js:79-88 | An unmatched or non-numeric id gives 404. Otherwise the answer is 200 with a catalog record having that id. |
| Catalog.MaxId | backend/src/routes/artworks.routes.js:97 | The value is the largest id in a non-empty catalog. |
| Catalog.NextId | backend/src/routes/artworks.routes.js:97 | The next id is 1 for an empty catalog. Otherwise it is one more than an existing id and exceeds every existing id, so it is the largest id plus one. |
| Catalog.Create | backend/src/routes/artworks.routes.js:90-117 | A falsy title, category or image, or a missing price, gives 400 with the catalog unchanged. Otherwise a 201 record is appended with the next id (the largest id plus one, 1 when empty). It carries the given title, category, price and image, status "pending", rating 0, no reviews and not featured. A falsy artist becomes "Unknown Artist", and a falsy culture, period, description or historical information becomes "". |
| Catalog.Merge | backend/src/routes/artworks.routes.js:127-136 | The id is the path id. Status is lower-cased from the body only when truthy. Every other field (title, artist, culture, period, category, price, description, historical information, image, rating, reviews, featured) is the body's value when the key is given and the current value otherwise. |
| Catalog.MergeEmptyBody | backend/src/routes/artworks.routes.js:127-136 | An empty body changes nothing. |
| Catalog.Update | backend/src/routes/artworks.routes.js:119-138 | An unmatched id gives 404 with the catalog unchanged. Otherwise the merged record replaces the match in place, the id is kept, and all other records are unchanged. |
| Catalog.Delete | backend/src/routes/artworks.routes.js:140-150 | An unmatched id gives 404 with the catalog unchanged. Otherwise the first matching record is spliced out and answered 200 with "Artwork deleted". |
| Catalog.DeleteRemovesExactlyOne | backend/src/routes/artworks.routes.js:148-149 | With unique ids, the record with that id is gone, every other record remains, and order is kept. |
| Catalog.CreatePreservesValid | backend/src/routes/artworks.routes.js:97-115 | Creation keeps ids unique and statuses lower case. |
| Catalog.UpdatePreservesValid | backend/src/routes/artworks.routes.js:127-136 | Updating keeps ids unique and statuses lower case. |
| Catalog.DeletePreservesValid | backend/src/routes/artworks.routes.js:140-150 | Deleting keeps ids unique and statuses lower case. |
| Catalog.CreateThenGet | backend/src/routes/artworks.routes.js:79-117 | A created record is returned by a get of its new id. |
| ClientApp.NormalizeRole | src/App.jsx:144-145 | The display role keeps the length of the role (default VISITOR). Its first character is upper-cased and the rest lower-cased. |
| ClientApp.NormalizeRoleIdempotent | src/App.jsx:144-145 | Normalising a normalised role changes nothing. |
| ClientApp.NormalizeRoleIgnoresCase | src/App.jsx:144-145 | Upper- or lower-casing a role first does not change its display form. |
| ClientApp.NormalizeRoleExamples | src/App.jsx:144-145 | "ARTIST" displays as "Artist". A missing role displays as "Visitor". |
| ClientApp.OptionList | src/App.jsx:159-169 | The list is the catch-all entry followed by each distinct value once, in order of first occurrence. |
| ClientApp.Cultures | src/App.jsx:159-161 | The values are the artworks' cultures, one per artwork, in order. |
| ClientApp.Categories | src/App.jsx:163-165 | The values are the artworks' categories, one per artwork, in order. |
| ClientApp.Artists | src/App.jsx:167-169 | The values are the artworks' artists, one per artwork, in order. |
| ClientApp.CultureOptionsCoverCatalog | src/App.jsx:159-161 | Every artwork's culture is offered after "All". |
| ClientApp.FilteredArtworks | src/App.jsx:171-183 | An artwork is shown iff the search is in its title, artist or description and each selection is "All" or equal, and its price is within the range. Shown artworks keep their multiplicity and order. |
| ClientApp.InitialFilterShowsAll | src/App.jsx:171-183 | With the initial selections and price range, every artwork priced within it is shown, in order. |
| ClientApp.Toggle | src/App.jsx:293-299 | The id's membership flips and every other id's is unchanged. An added id goes to the end, and a removal keeps order. No duplicate is introduced. |
| ClientApp.ToggleTwiceRestores | src/App.jsx:297-299 | Toggling an absent id twice gives back the original list. |
| ClientApp.ToggleTwiceMovesToEnd | src/App.jsx:297-299 | Toggling a present id twice keeps the same members. |
| ClientApp.CartItems | src/App.jsx:188 | The cart shows exactly the catalog artworks whose id is in the cart, in catalog order. |
| ClientApp.CartTotalByIds | src/App.jsx:188-189 | With no repeated id in the cart, the total equals the sum over cart ids of the prices of the artworks with that id. |
| ClientApp.ToggleCartTotal | src/App.jsx:188-189 | Toggling an id changes the cart total by the price of the artworks with that id, up when it was absent and down when present. |
| ClientApp.PriceOfUniqueId | src/App.jsx:189 | With unique ids, an id contributes exactly its artwork's price. |
| ClientApp.UpdateArtworkStatus | src/App.jsx:360-362 | Only the status of records with the id changes, to the new status. Every other field and record is unchanged. |
| ClientApp.UpdateArtworkStatusIdempotent | src/App.jsx:360-362 | Applying the same status update twice equals applying it once. |
| ClientApp.RemoveArtwork | src/App.jsx:356-358 | Exactly the records with the id are removed, and the rest keep their order and their multiplicity. |
| ClientApp.Upload | src/App.jsx:301-328 | The upload succeeds iff title, price and image are all given. A failure sets the message and leaves the list unchanged. A success appends one record after the old ones: id = length + 1, the entered title, culture, category and description, the converted price, status "pending", and the user as artist (else "Unknown Artist"). |
| ClientApp.UploadIdFreshWhileDense | src/App.jsx:301-316 | While the ids are exactly 1 to n with no repeat, an upload keeps them so, so the new id is fresh. |
| ClientApp.UploadIdCanCollide | src/App.jsx:307 | After removing id 1 from a two-record list, an upload creates a second record with id 2. |
| ClientApp.RecordCompletedSales | src/App.jsx:274-291 | With no items the records are unchanged. Otherwise one sale per item, in item order, is put in front of the old records, each with that item's data and the buyer name. |
| ClientApp.BuyerNamePreference | src/App.jsx:280 | The buyer is the user name, else the purchaser name, else "Guest". |
| ClientApp.HandleCheckout | src/App.jsx:383-412 | Any empty delivery field sets "Please fill all required fields" and sends nothing. Otherwise a body is sent with the purchaser name, mobile, address and landmark as entered, the chosen payment method and currency INR. |
| ClientApp.ClientCheckMatchesServer | src/App.jsx:384-387 | A body the form sends always passes the server's delivery check, and a refused form would have failed it. |
| Gallery.SearchText | src/pages/Gallery.jsx:38 | The searched text is the lower-cased title, artist and description joined by single spaces. |
| Gallery.FilteredArtworks | src/pages/Gallery.jsx:36-45 | An artwork is shown iff it matches the search, culture, category and price filters and is approved. Only approved artworks appear, in their original order, each as often as in the input. |
| Gallery.SearchShortCircuitRedundant | src/pages/Gallery.jsx:39 | Treating the empty search specially does not change which artworks match. |
| Gallery.DashboardHitIsGalleryHit | src/pages/Gallery.jsx:38-39 | Every artwork the dashboard's per-field search finds, the gallery's joined search finds too. |
| Gallery.SearchAcrossFields | src/pages/Gallery.jsx:38-39 | A search spanning title and artist ("sun rise") matches in the gallery but not on the dashboard. |
| Gallery.AddToCart | src/pages/Gallery.jsx:27-30 | The cart grows by exactly one, with the artwork appended even if already present. |
| Gallery.AddTwiceKeepsTwo | src/pages/Gallery.jsx:27-29 | Adding the same artwork twice leaves two copies. |
| Gallery.CultureOptions | src/pages/Gallery.jsx:47 | The list is "all" followed by exactly the cultures that occur, each once, in order of first occurrence. |
| Gallery.CategoryOptions | src/pages/Gallery.jsx:48 | The list is "all" followed by exactly the categories that occur, each once, in order of first occurrence. |
| Gallery.InitialGalleryShowsApproved | src/pages/Gallery.jsx:36-45 | With the page's initial settings, the gallery shows exactly the approved artworks, in order. |
| LoginForm.EmailPatternFacts | src/pages/Login.jsx:3 | A matching e-mail has exactly one '@', neither first nor last, and no white space. |
| LoginForm.IsValidEmail | src/pages/Login.jsx:3 | The two-scan decision accepts exactly the strings matching the e-mail pattern. |
| LoginForm.EmailPatternExamples | src/pages/Login.jsx:3 | "a@b.c" and "a@.b.c" match. "a@b." and "@b.c" do not. |
| LoginForm.CaptchaIndex | src/pages/Login.jsx:9 | The index is the floor of the draw times 62, always within the alphabet. |
| LoginForm.GenerateCaptcha | src/pages/Login.jsx:5-12 | The code has exactly five characters, each the alphabet character the corresponding draw selects. |
| LoginForm.CaptchaReachable | src/pages/Login.jsx:5-12 | Every five-character alphanumeric code is produced by some sequence of draws. |
| LoginForm.HandleSubmit | src/pages/Login.jsx:36-60 | Credentials are handed on iff the trimmed e-mail matches, the password is non-empty, and the trimmed answer equals the code. Otherwise the first failing check's message is set in order. A wrong answer draws a new code and clears the answer. The e-mail handed on is trimmed; the password is not. |
| Home.Spotlight | src/pages/Home.jsx:18-21 | The spotlight holds min(3, n) exhibitions drawn from the input, newest first. Every exhibition left out is no newer than any shown. |
| Home.SpotlightHoldsNewest | src/pages/Home.jsx:18-21 | The strictly newest exhibition is always in the spotlight. |
| Home.RolePath | src/pages/Home.jsx:45-50 | The four known display roles lead to "/" plus their lower-cased name. Every other role leads to "/gallery". |
| Home.RolePathOfServerRole | src/pages/Home.jsx:45-50 | A server role whose display form is known leads to the page named after its lower-cased form. |
| Home.RawServerRoleFallsBack | src/pages/Home.jsx:45-50 | The upper-case "ADMIN" is not a key of the map and leads to "/gallery". |
| Home.Settle | src/pages/Home.jsx:92-105 | After the account call, loading is off. A success navigates to the role's page with no error. A failure shows the thrown message or the fallback and does not navigate. |
| Home.HandleRegister | src/pages/Home.jsx:60-106 | The checks run in order (missing field, mismatch, shorter than 6), and the first failure sets its message. Register is called with the form's fields and the chosen role iff all pass. Loading is off on every exit. |
| Home.SixCharactersSuffice | src/pages/Home.jsx:77-81 | A confirmed six-character password is accepted, and a five-character one is refused. |
| Home.HandleLogin | src/pages/Home.jsx:37-58 | Loading is off. It navigates iff sign-in succeeded, to the page of the signed-in role with the error cleared, and shows the thrown message or the fallback otherwise. |
| ProtectedRoute.Gate | src/components/ProtectedRoute.jsx:5-27 | Loading shows the loading view. No user redirects to "/". A set requirement different from the role redirects. The page is rendered iff not loading, a user is present, and the requirement is absent or equal. |
| ProtectedRoute.RequirementOnlyNarrows | src/components/ProtectedRoute.jsx:22-24 | A page requiring a role is shown only to users the unrestricted page would show. |
| ProtectedRoute.UpperCaseRequirementRefusesDisplayRole | src/components/ProtectedRoute.jsx:22 | A user holding the display role "Admin" is turned away from a page requiring "ADMIN". |
| Text.Trim | backend/src/routes/auth.routes.js:19-20 | The result occurs in the input, everything around it is white space, and it neither starts nor ends with white space. |
| Text.TrimOfTrimmed | backend/src/routes/auth.routes.js:19-20 | A string with no white space at either end is its own trim. |
| Text.TrimIdempotent | backend/src/routes/auth.routes.js:19-20 | Trimming an already trimmed string changes nothing. |
| Text.ContainsIffOccurs | backend/src/routes/artworks.routes.js:70-72 | The substring test holds iff the needle occurs at some position. |
| Collections.Distinct | src/App.jsx:159-169 | Each value appears once, exactly the input's values, in order of first occurrence. |
| Collections.SortDesc | backend/src/routes/analytics.routes.js:50 | The result is a permutation of the input, sorted by descending key. |
| Collections.MinOf | backend/src/routes/auth.routes.js:84-88 | The result is the least element of a non-empty id set. |
| Collections.SortedIds | backend/src/routes/commerce.routes.js:126-132 | The ids of a set, each once, in strictly increasing order. |

## Left out

- **Network and process plumbing:** HTTP transport, the Express router wiring and mounting, the error-handling middleware, and the connection pool and its release. The operations are modelled as functions of the request data.
- **Mounted routers:** `backend/src/routes/index.js:1-8` mounts only the artworks router under `/api/v1` (`backend/src/app.js:15`). The commerce, analytics and auth routers are defined but not reachable in this snapshot. The model follows the routers' own code.
- **Storage failures outside checkout:** the wishlist, cart-lookup, add-to-cart, remove-from-cart and view-cart routes are modelled as always succeeding. In the code each runs one or two queries outside any transaction (`backend/src/routes/commerce.routes.js:28-31, 39-42, 47-55, 59-68, 75-79, 87-91`). A failing query answers 500, and a cart row that `getOrCreateCart` inserted before a failing cart-item INSERT stays behind. Neither is modelled.
- **Storage failures in checkout:** a request meets at most one failing step. A failing rollback on the empty-cart path answers 500. The rollback in the catch path is not modelled as failing again, because the error it handles already answers 500.
- **Concurrency and isolation:** two checkouts of the same visitor racing each other. The checkout SELECTs take no row locks. Checkout is one atomic step here.
- **Foreign code:**
  - JWT signing and verification, bcrypt hashing and comparison, and `asyncHandler` are not part of this model.
  - They appear as function parameters: verify, sign, hash and compare.
  - Token expiry belongs to the verifier.
- **Schema assumptions (the schema is not part of this model):**
  - `cart_items` and `wishlists` are sets. This assumes a UNIQUE (cart_id, artwork_id) key, so `INSERT IGNORE` is idempotent.
  - `carts` maps each visitor to one cart.
  - New users are active.
  - Roles are stored in upper case.
- **MySQL collation:** the e-mail, role and status comparisons in SQL are case-insensitive under the usual collation. The model compares exactly. Stored e-mails are lower case and roles upper case, so the two agree on the values the routes write.
- **Number parsing:** `Number()` coercion, `NaN` and decimals.
  - Path ids are `Option<int>`, with `None` for a non-numeric id.
  - The typed price ceiling and the upload price go through a conversion parameter.
  - Prices are integers.
  - Float rounding in sums is not modelled.
- **Case mapping and white space:** `toLowerCase` and `toUpperCase` are modelled on ASCII letters only. White space is the JavaScript set (ASCII, no-break space, line separators, and the Unicode space separators).
- **String length:** JavaScript counts UTF-16 code units. The six-character password bound counts Dafny characters.
- **SQL row order:**
  - The checkout join's row order is unspecified in SQL. The model lists joined artworks by ascending id.
  - A login by an e-mail held by several active users takes the lowest user id.
- **Sort stability:** JavaScript's sort is stable, so equally new exhibitions keep their input order. The model does not fix an order among ties.
- **Timestamps and identifiers:** timestamps are integers. `Date` parsing, invalid dates, `Date.now` record ids and locale formatting are not modelled.
- **Update body keys:** `PUT /:id` spreads the request body, so keys outside the artwork's fields can be added and any field overwritten with a value of another type. The model fixes the record's fields and types.
- **Client demo and network branch:** `handleCheckout`'s request, its offline branch that records a local sale, and `alert`. The model stops at the validated request body.
- **Other client plumbing:** React state, `localStorage`, `fetch`, `setTimeout`, `changeUserRole`'s optimistic update, and the authentication context's session handling.
  - The sign-in and registration calls are parameters (their outcome).
  - The context's role normalisation is the same function as `ClientApp.NormalizeRole`.
- **Other routes and pages:**
  - The users and exhibitions routes are single-statement SQL wrappers.
  - The dashboards, cards, navigation bar, footer, About and Contact pages are presentation. The navigation bar's role map and About's spotlight duplicate `Home`.
- **Upload fields:** the upload form's period, historical information and preview image are not carried by `ClientArtwork`. Neither are the rating 0, reviews 0 and `featured: false` that the upload sets (`src/App.jsx:307-313`).
- **Role lookup:** `{...}[role]` in the role-to-page map would also find inherited object properties such as `constructor`. The model's map has only the four roles.
- **Admin e-mail:** the middleware and the auth routes read `env.adminEmail`, but `backend/src/config/env.js:5-14` defines no such key. The setting is `Option<string>`, and the runtime value is `None`, which leaves the admin gates open. This follows the code.
- ClientApp.CartItems: states membership and catalog order, not the multiplicity of repeated equal records.
- ClientApp.ToggleTwiceMovesToEnd: states that the members are restored, not the position the id moves to.
- Home.Spotlight: does not state which of several equally new exhibitions the stable sort keeps.
