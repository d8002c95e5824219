/** The in-memory artwork catalog the artworks router serves: a sequence of
    records seeded with three artworks, listed with optional status and
    search filters, and read, created, merged and deleted by id. Path ids
    arrive as `Number(req.params.id)`; `None` stands for a value no record
    id can equal (NaN). */
module Catalog {

  import opened Wrappers
  import opened Text
  import opened Collections

  datatype CatalogArtwork = CatalogArtwork(
    id: int,
    title: string,
    artist: string,
    culture: string,
    period: string,
    category: string,
    price: int,
    description: string,
    historicalInfo: string,
    image: string,
    status: string,
    rating: real,
    reviews: int,
    featured: bool)

  const PendingStatus := "pending"
  const UnknownArtist := "Unknown Artist"
  const NotFoundMessage := "Artwork not found"
  const DeletedMessage := "Artwork deleted"
  const CreateMissingMessage := "title, category, price, and image are required"

  /** The three records the catalog starts with. */
  const Seeds: seq<CatalogArtwork> := [TempleDawn, KyotoMonsoon, BronzeChronicle]

  const TempleDawn := CatalogArtwork(1, "Temple Dawn", "Aarav Iyer", "Indian", "18th Century Inspired", "Painting", 28500,
    "A sunrise view over a South Indian temple complex.", "Inspired by mural traditions from Thanjavur.",
    "https://images.unsplash.com/photo-1547891654-e66ed7ebb968?auto=format&fit=crop&w=1000&q=80",
    "approved", 4.7, 86, true)

  const KyotoMonsoon := CatalogArtwork(2, "Kyoto Monsoon", "Mei Tanaka", "Japanese", "Modern", "Digital Art", 32400,
    "Rain-soaked streets around old Kyoto neighborhoods.", "Reflects ukiyo-e composition with modern lighting.",
    "https://images.unsplash.com/photo-1577083165633-14ebcdb0f658?auto=format&fit=crop&w=1000&q=80",
    "approved", 4.8, 63, true)

  const BronzeChronicle := CatalogArtwork(3, "Bronze Chronicle", "Lucas Moretti", "Italian", "Renaissance Inspired", "Sculpture", 74800,
    "Miniature bronze figures inspired by civic life.", "Built from references to Florentine guild archives.",
    "https://images.unsplash.com/photo-1460661419201-fd4cecdf8a8b?auto=format&fit=crop&w=1000&q=80",
    "pending", 0.0, 0, false)

  /** The catalog invariant: ids are unique and every status is lower-case. */
  predicate CatalogValid(cat: seq<CatalogArtwork>) {
    && (forall i, j :: 0 <= i < j < |cat| ==> cat[i].id != cat[j].id)
    && (forall i :: 0 <= i < |cat| ==> IsLowerCase(cat[i].status))
  }

  lemma SeedsValid()
    ensures CatalogValid(Seeds)
  {
    assert TempleDawn.id == 1 && KyotoMonsoon.id == 2 && BronzeChronicle.id == 3;
    assert IsLowerCase(TempleDawn.status) && IsLowerCase(KyotoMonsoon.status) && IsLowerCase(BronzeChronicle.status);
  }

  // ------------------------------------------------------------------- list

  predicate StatusPasses(status: Option<string>, a: CatalogArtwork) {
    !Truthy(status) || a.status == Lower(status.value)
  }

  /** The search is a substring of the lower-cased title, artist or description. */
  predicate SearchHit(needle: string, a: CatalogArtwork) {
    Contains(Lower(a.title), needle) || Contains(Lower(a.artist), needle) || Contains(Lower(a.description), needle)
  }

  predicate SearchPasses(search: Option<string>, a: CatalogArtwork) {
    !Truthy(search) || SearchHit(Lower(search.value), a)
  }

  predicate Listed(status: Option<string>, search: Option<string>, a: CatalogArtwork) {
    StatusPasses(status, a) && SearchPasses(search, a)
  }

  /** `GET /`: the status filter, then the search filter, each applied only
      when its query parameter is truthy. */
  function List(cat: seq<CatalogArtwork>, status: Option<string>, search: Option<string>): (r: seq<CatalogArtwork>)
    ensures forall a :: a in r <==> a in cat && Listed(status, search, a)
    ensures |r| <= |cat|
    ensures IsSubseq(r, cat)
  {
    var byStatus := if Truthy(status) then Filter(cat, (a: CatalogArtwork) => a.status == Lower(status.value)) else cat;
    var bySearch := if Truthy(search) then Filter(byStatus, (a: CatalogArtwork) => SearchHit(Lower(search.value), a)) else byStatus;
    var listed := (a: CatalogArtwork) => Listed(status, search, a);
    assert bySearch == Filter(cat, listed) by {
      if Truthy(status) && Truthy(search) {
        FilterFilter(cat, (a: CatalogArtwork) => a.status == Lower(status.value), (a: CatalogArtwork) => SearchHit(Lower(search.value), a), listed);
      } else if Truthy(status) {
        FilterExt(cat, (a: CatalogArtwork) => a.status == Lower(status.value), listed);
      } else if Truthy(search) {
        FilterExt(cat, (a: CatalogArtwork) => SearchHit(Lower(search.value), a), listed);
      } else {
        FilterAll(cat, listed);
      }
    }
    bySearch
  }

  /** An empty or absent search and status list the whole catalog. */
  lemma ListWithoutFilters(cat: seq<CatalogArtwork>)
    ensures List(cat, None, Some("")) == cat
  {
  }

  // -------------------------------------------------------------- by id

  /** `findIndex((item) => item.id === id)`; `None` is -1. */
  function FindIndex(cat: seq<CatalogArtwork>, id: Option<int>): (k: Option<nat>)
    ensures k.None? <==> id.None? || forall i :: 0 <= i < |cat| ==> cat[i].id != id.value
    ensures k.Some? ==>
      && k.value < |cat| && cat[k.value].id == id.value
      && forall i :: 0 <= i < k.value ==> cat[i].id != id.value
  {
    if id.None? || |cat| == 0 then None
    else if cat[0].id == id.value then Some(0)
    else match FindIndex(cat[1..], id)
      case None => None
      case Some(k) => Some(k + 1)
  }

  datatype Reply =
    | Item(code: nat, artwork: CatalogArtwork)
    | Deleted(code: nat, message: string, artwork: CatalogArtwork)
    | Failure(code: nat, message: string)

  /** `GET /:id`. */
  function Get(cat: seq<CatalogArtwork>, id: Option<int>): (r: Reply)
    ensures r.Failure? <==> FindIndex(cat, id).None?
    ensures r.Item? <==> FindIndex(cat, id).Some?
    ensures r.Failure? ==> r == Failure(404, NotFoundMessage)
    ensures r.Item? ==> r.code == 200 && r.artwork in cat && r.artwork.id == id.value
  {
    match FindIndex(cat, id)
      case None => Failure(404, NotFoundMessage)
      case Some(k) => Item(200, cat[k])
  }

  // ----------------------------------------------------------------- create

  datatype CreateBody = CreateBody(
    title: Option<string>,
    category: Option<string>,
    price: Option<int>,
    image: Option<string>,
    artist: Option<string>,
    culture: Option<string>,
    period: Option<string>,
    description: Option<string>,
    historicalInfo: Option<string>)

  /** `Math.max(...artworks.map((item) => item.id))`. */
  function MaxId(cat: seq<CatalogArtwork>): (m: int)
    requires |cat| > 0
    ensures forall i :: 0 <= i < |cat| ==> cat[i].id <= m
    ensures exists i :: 0 <= i < |cat| && cat[i].id == m
  {
    if |cat| == 1 then cat[0].id
    else
      var rest := MaxId(cat[1..]);
      assert forall i :: 1 <= i < |cat| ==> cat[i] == cat[1..][i - 1];
      if cat[0].id >= rest then cat[0].id else rest
  }

  /** The id `POST /` assigns: one more than the largest id, 1 when empty. */
  function NextId(cat: seq<CatalogArtwork>): (n: int)
    ensures forall i :: 0 <= i < |cat| ==> cat[i].id < n
    ensures |cat| == 0 ==> n == 1
    ensures |cat| > 0 ==> exists i :: 0 <= i < |cat| && cat[i].id == n - 1
  {
    if |cat| == 0 then 1 else MaxId(cat) + 1
  }

  /** `POST /`. The price may be 0; only an absent price is refused. */
  function Create(cat: seq<CatalogArtwork>, body: CreateBody): (r: (seq<CatalogArtwork>, Reply))
    ensures !Truthy(body.title) || !Truthy(body.category) || body.price.None? || !Truthy(body.image)
      ==> r == (cat, Failure(400, CreateMissingMessage))
    ensures r.1.Item? ==>
      && r.1.code == 201
      && r.0 == cat + [r.1.artwork]
      && r.1.artwork.id == NextId(cat)
      && (forall i :: 0 <= i < |cat| ==> cat[i].id < r.1.artwork.id)
      && (|cat| == 0 ==> r.1.artwork.id == 1)
      && r.1.artwork.title == body.title.value && r.1.artwork.category == body.category.value
      && r.1.artwork.price == body.price.value && r.1.artwork.image == body.image.value
      && r.1.artwork.artist == OrElse(body.artist, UnknownArtist)
      && r.1.artwork.culture == OrElse(body.culture, "") && r.1.artwork.period == OrElse(body.period, "")
      && r.1.artwork.description == OrElse(body.description, "")
      && r.1.artwork.historicalInfo == OrElse(body.historicalInfo, "")
      && r.1.artwork.status == PendingStatus && r.1.artwork.rating == 0.0
      && r.1.artwork.reviews == 0 && !r.1.artwork.featured
    ensures r.1.Failure? ==> r.0 == cat
    ensures r.1.Item? <==> Truthy(body.title) && Truthy(body.category) && body.price.Some? && Truthy(body.image)
  {
    if !Truthy(body.title) || !Truthy(body.category) || body.price.None? || !Truthy(body.image) then
      (cat, Failure(400, CreateMissingMessage))
    else
      var a := CatalogArtwork(NextId(cat), body.title.value, OrElse(body.artist, UnknownArtist),
        OrElse(body.culture, ""), OrElse(body.period, ""), body.category.value, body.price.value,
        OrElse(body.description, ""), OrElse(body.historicalInfo, ""), body.image.value,
        PendingStatus, 0.0, 0, false);
      (cat + [a], Item(201, a))
  }

  // ----------------------------------------------------------------- update

  /** The keys of a `PUT` body that name catalog fields; `None` is an absent key. */
  datatype UpdateBody = UpdateBody(
    title: Option<string>,
    artist: Option<string>,
    culture: Option<string>,
    period: Option<string>,
    category: Option<string>,
    price: Option<int>,
    description: Option<string>,
    historicalInfo: Option<string>,
    image: Option<string>,
    status: Option<string>,
    rating: Option<real>,
    reviews: Option<int>,
    featured: Option<bool>)

  /** `{ ...current, ...req.body, id, price, status }`. */
  function Merge(current: CatalogArtwork, id: int, body: UpdateBody): (u: CatalogArtwork)
    ensures u.id == id
    ensures body.price.None? ==> u.price == current.price
    ensures body.price.Some? ==> u.price == body.price.value
    ensures Truthy(body.status) ==> u.status == Lower(body.status.value)
    ensures !Truthy(body.status) ==> u.status == current.status
    ensures body.title.Some? ==> u.title == body.title.value
    ensures body.title.None? ==> u.title == current.title
    ensures body.artist.Some? ==> u.artist == body.artist.value
    ensures body.artist.None? ==> u.artist == current.artist
    ensures body.culture.Some? ==> u.culture == body.culture.value
    ensures body.culture.None? ==> u.culture == current.culture
    ensures body.period.Some? ==> u.period == body.period.value
    ensures body.period.None? ==> u.period == current.period
    ensures body.category.Some? ==> u.category == body.category.value
    ensures body.category.None? ==> u.category == current.category
    ensures body.description.Some? ==> u.description == body.description.value
    ensures body.description.None? ==> u.description == current.description
    ensures body.historicalInfo.Some? ==> u.historicalInfo == body.historicalInfo.value
    ensures body.historicalInfo.None? ==> u.historicalInfo == current.historicalInfo
    ensures body.image.Some? ==> u.image == body.image.value
    ensures body.image.None? ==> u.image == current.image
    ensures body.rating.Some? ==> u.rating == body.rating.value
    ensures body.rating.None? ==> u.rating == current.rating
    ensures body.reviews.Some? ==> u.reviews == body.reviews.value
    ensures body.reviews.None? ==> u.reviews == current.reviews
    ensures body.featured.Some? ==> u.featured == body.featured.value
    ensures body.featured.None? ==> u.featured == current.featured
  {
    CatalogArtwork(
      id,
      body.title.GetOr(current.title),
      body.artist.GetOr(current.artist),
      body.culture.GetOr(current.culture),
      body.period.GetOr(current.period),
      body.category.GetOr(current.category),
      body.price.GetOr(current.price),
      body.description.GetOr(current.description),
      body.historicalInfo.GetOr(current.historicalInfo),
      body.image.GetOr(current.image),
      if Truthy(body.status) then Lower(body.status.value) else current.status,
      body.rating.GetOr(current.rating),
      body.reviews.GetOr(current.reviews),
      body.featured.GetOr(current.featured))
  }

  /** An empty body changes nothing. */
  lemma MergeEmptyBody(current: CatalogArtwork)
    ensures Merge(current, current.id, UpdateBody(None, None, None, None, None, None, None, None, None, None, None, None, None)) == current
  {
  }

  /** `PUT /:id`: the first matching record is replaced in place. */
  function Update(cat: seq<CatalogArtwork>, id: Option<int>, body: UpdateBody): (r: (seq<CatalogArtwork>, Reply))
    ensures FindIndex(cat, id).None? ==> r == (cat, Failure(404, NotFoundMessage))
    ensures FindIndex(cat, id).Some? ==>
      var k := FindIndex(cat, id).value;
      && r.1 == Item(200, Merge(cat[k], id.value, body))
      && r.1.artwork.id == cat[k].id
      && |r.0| == |cat|
      && r.0[k] == r.1.artwork
      && (forall i :: 0 <= i < |cat| && i != k ==> r.0[i] == cat[i])
  {
    match FindIndex(cat, id)
      case None => (cat, Failure(404, NotFoundMessage))
      case Some(k) =>
        var u := Merge(cat[k], id.value, body);
        (cat[k := u], Item(200, u))
  }

  // ----------------------------------------------------------------- delete

  /** `DELETE /:id`: splices the first matching record out and returns it. */
  function Delete(cat: seq<CatalogArtwork>, id: Option<int>): (r: (seq<CatalogArtwork>, Reply))
    ensures FindIndex(cat, id).None? ==> r == (cat, Failure(404, NotFoundMessage))
    ensures FindIndex(cat, id).Some? ==>
      var k := FindIndex(cat, id).value;
      && r.1 == Deleted(200, DeletedMessage, cat[k])
      && r.0 == cat[..k] + cat[k + 1..]
      && |r.0| == |cat| - 1
  {
    match FindIndex(cat, id)
      case None => (cat, Failure(404, NotFoundMessage))
      case Some(k) => (cat[..k] + cat[k + 1..], Deleted(200, DeletedMessage, cat[k]))
  }

  /** With unique ids, a deletion removes exactly the record with that id and
      keeps every other record, in order. */
  lemma DeleteRemovesExactlyOne(cat: seq<CatalogArtwork>, id: int)
    requires CatalogValid(cat) && FindIndex(cat, Some(id)).Some?
    ensures var r := Delete(cat, Some(id)).0;
      && (forall a :: a in r ==> a.id != id)
      && (forall a :: a in cat && a.id != id ==> a in r)
      && IsSubseq(r, cat)
  {
    var k := FindIndex(cat, Some(id)).value;
    var r := cat[..k] + cat[k + 1..];
    SpliceAt(cat, k);
    forall a | a in r ensures a.id != id {
      var i :| 0 <= i < |r| && r[i] == a;
      var j := if i < k then i else i + 1;
      assert a == cat[j] && j != k;
    }
    forall a | a in cat && a.id != id ensures a in r {
      var i :| 0 <= i < |cat| && cat[i] == a;
      assert i != k;
    }
    SpliceIsSubseq(cat, k);
  }

  // ------------------------------------------------------------- invariant

  /** Every write keeps ids unique and statuses lower-case. */
  lemma CreatePreservesValid(cat: seq<CatalogArtwork>, body: CreateBody)
    requires CatalogValid(cat)
    ensures CatalogValid(Create(cat, body).0)
  {
  }

  lemma UpdatePreservesValid(cat: seq<CatalogArtwork>, id: Option<int>, body: UpdateBody)
    requires CatalogValid(cat)
    ensures CatalogValid(Update(cat, id, body).0)
  {
    if FindIndex(cat, id).Some? {
      var u := Update(cat, id, body).0;
      if Truthy(body.status) {
        LowerIsLowerCase(body.status.value);
      }
      assert forall i :: 0 <= i < |u| ==> u[i].id == cat[i].id;
    }
  }

  lemma DeletePreservesValid(cat: seq<CatalogArtwork>, id: Option<int>)
    requires CatalogValid(cat)
    ensures CatalogValid(Delete(cat, id).0)
  {
    if FindIndex(cat, id).Some? {
      var d := Delete(cat, id).0;
      var k := FindIndex(cat, id).value;
      assert forall i :: 0 <= i < |d| ==> d[i] == if i < k then cat[i] else cat[i + 1];
    }
  }

  /** A record created into a valid catalog can be read back by its id. */
  lemma CreateThenGet(cat: seq<CatalogArtwork>, body: CreateBody)
    requires CatalogValid(cat)
    requires Create(cat, body).1.Item?
    ensures var (cat', reply) := Create(cat, body);
      Get(cat', Some(reply.artwork.id)) == Item(200, reply.artwork)
  {
    var (cat', reply) := Create(cat, body);
    assert cat'[|cat|] == reply.artwork;
  }
}
