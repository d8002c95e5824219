/** The public gallery page. It filters the artworks it is given on its own
    terms: one search over the joined title, artist and description, lower
    case 'all' as the catch-all, an optional typed price ceiling, and only
    approved artworks. Its cart is a page-local list that accepts repeats. */
module Gallery {

  import opened Wrappers
  import opened Text
  import opened Collections
  import ClientApp

  type ClientArtwork = ClientApp.ClientArtwork

  const All := "all"
  const Approved := "approved"

  /** The lower-cased text the search looks in: the three fields joined by spaces. */
  function SearchText(a: ClientArtwork): (r: string)
    ensures r == Lower(a.title) + " " + Lower(a.artist) + " " + Lower(a.description)
  {
    var joined := a.title + " " + a.artist + " " + a.description;
    LowerAppend(a.title + " " + a.artist + " ", a.description);
    LowerAppend(a.title + " " + a.artist, " ");
    LowerAppend(a.title + " ", a.artist);
    LowerAppend(a.title, " ");
    assert Lower(" ") == " ";
    Lower(joined)
  }

  /** `!searchTerm || text.includes(searchTerm.toLowerCase())`. */
  predicate SearchMatch(term: string, a: ClientArtwork) {
    term == "" || Contains(SearchText(a), Lower(term))
  }

  /** `!maxPrice || Number(art.price) <= Number(maxPrice)`. The conversion of
      the typed ceiling is a parameter; `None` is `NaN`, which no price is
      below. */
  predicate PriceMatch(maxPrice: string, number: string -> Option<int>, a: ClientArtwork) {
    maxPrice == "" || (number(maxPrice).Some? && a.price <= number(maxPrice).value)
  }

  predicate Shown(term: string, culture: string, category: string, maxPrice: string,
                  number: string -> Option<int>, a: ClientArtwork) {
    && SearchMatch(term, a)
    && (culture == All || a.culture == culture)
    && (category == All || a.category == category)
    && PriceMatch(maxPrice, number, a)
    && a.status == Approved
  }

  /** The page's `filteredArtworks`. */
  function FilteredArtworks(arts: seq<ClientArtwork>, term: string, culture: string, category: string,
                            maxPrice: string, number: string -> Option<int>): (r: seq<ClientArtwork>)
    ensures forall a :: a in r <==> a in arts && Shown(term, culture, category, maxPrice, number, a)
    ensures forall a :: a in r ==> a.status == Approved
    ensures forall a :: multiset(r)[a] == if Shown(term, culture, category, maxPrice, number, a) then multiset(arts)[a] else 0
    ensures IsSubseq(r, arts)
  {
    Filter(arts, (a: ClientArtwork) => Shown(term, culture, category, maxPrice, number, a))
  }

  /** The empty-search short circuit changes nothing: the empty string
      occurs in every text. */
  lemma SearchShortCircuitRedundant(term: string, a: ClientArtwork)
    ensures SearchMatch(term, a) <==> Contains(SearchText(a), Lower(term))
  {
    if term == "" {
      ContainsEmpty(SearchText(a));
    }
  }

  /** Every artwork the dashboard's per-field search accepts, the gallery's
      search accepts too. */
  lemma DashboardHitIsGalleryHit(term: string, a: ClientArtwork)
    requires var q := Lower(term);
      Contains(Lower(a.title), q) || Contains(Lower(a.artist), q) || Contains(Lower(a.description), q)
    ensures SearchMatch(term, a)
  {
    var q := Lower(term);
    var t, ar, d := Lower(a.title), Lower(a.artist), Lower(a.description);
    assert SearchText(a) == t + (" " + ar + " " + d);
    assert SearchText(a) == (t + " ") + ar + (" " + d);
    assert SearchText(a) == (t + " " + ar + " ") + d + "";
    if Contains(t, q) {
      ContainsInfix("", t, " " + ar + " " + d, q);
      assert "" + t + (" " + ar + " " + d) == SearchText(a);
    } else if Contains(ar, q) {
      ContainsInfix(t + " ", ar, " " + d, q);
    } else {
      ContainsInfix(t + " " + ar + " ", d, "", q);
    }
  }

  /** The converse fails: a search spanning the title and the artist finds
      the artwork in the gallery but not on the dashboard. */
  lemma {:induction false} SearchAcrossFields(a: ClientArtwork)
    requires a.title == "sun" && a.artist == "rise" && a.description == ""
    ensures SearchMatch("sun rise", a)
    ensures !ClientApp.Matches("sun rise", "All", "All", "All", a.price, a)
  {
    assert Lower("sun") == "sun";
    assert Lower("rise") == "rise";
    assert Lower("") == "";
    assert Lower("sun rise") == "sun rise";
    assert SearchText(a) == "sun rise ";
    assert StartsWith(SearchText(a), "sun rise");
    ContainsTooLong("sun", "sun rise");
    ContainsTooLong("rise", "sun rise");
    ContainsTooLong("", "sun rise");
  }

  /** `handleAddToCart`: appends the artwork even when it is already there. */
  function AddToCart(cart: seq<ClientArtwork>, a: ClientArtwork): (r: seq<ClientArtwork>)
    ensures |r| == |cart| + 1 && r[..|cart|] == cart && r[|cart|] == a
    ensures multiset(r) == multiset(cart) + multiset{a}
  {
    cart + [a]
  }

  /** Unlike the dashboard's toggle, adding twice keeps two copies. */
  lemma AddTwiceKeepsTwo(cart: seq<ClientArtwork>, a: ClientArtwork)
    requires a !in cart
    ensures multiset(AddToCart(AddToCart(cart, a), a))[a] == 2
  {
  }

  /** `['all', ...new Set(artworks.map((a) => a.culture))]` and the same for categories. */
  function CultureOptions(arts: seq<ClientArtwork>): (r: seq<string>)
    ensures |r| >= 1 && r[0] == All
    ensures forall c :: c in r[1..] <==> exists i :: 0 <= i < |arts| && arts[i].culture == c
    ensures NoDuplicates(r[1..])
    ensures forall i :: 1 <= i < |r| ==> r[i] in ClientApp.Cultures(arts)
    ensures forall i, j :: 1 <= i < j < |r| ==>
      FirstIndex(ClientApp.Cultures(arts), r[i]) < FirstIndex(ClientApp.Cultures(arts), r[j])
  {
    var r := ClientApp.OptionList(All, ClientApp.Cultures(arts));
    assert forall c :: c in ClientApp.Cultures(arts) <==> exists i :: 0 <= i < |arts| && arts[i].culture == c by {
      forall c ensures c in ClientApp.Cultures(arts) <==> exists i :: 0 <= i < |arts| && arts[i].culture == c {
        if c in ClientApp.Cultures(arts) {
          var i :| 0 <= i < |arts| && ClientApp.Cultures(arts)[i] == c;
        }
      }
    }
    r
  }

  function CategoryOptions(arts: seq<ClientArtwork>): (r: seq<string>)
    ensures |r| >= 1 && r[0] == All
    ensures forall c :: c in r[1..] <==> exists i :: 0 <= i < |arts| && arts[i].category == c
    ensures NoDuplicates(r[1..])
    ensures forall i :: 1 <= i < |r| ==> r[i] in ClientApp.Categories(arts)
    ensures forall i, j :: 1 <= i < j < |r| ==>
      FirstIndex(ClientApp.Categories(arts), r[i]) < FirstIndex(ClientApp.Categories(arts), r[j])
  {
    var r := ClientApp.OptionList(All, ClientApp.Categories(arts));
    assert forall c :: c in ClientApp.Categories(arts) <==> exists i :: 0 <= i < |arts| && arts[i].category == c by {
      forall c ensures c in ClientApp.Categories(arts) <==> exists i :: 0 <= i < |arts| && arts[i].category == c {
        if c in ClientApp.Categories(arts) {
          var i :| 0 <= i < |arts| && ClientApp.Categories(arts)[i] == c;
        }
      }
    }
    r
  }

  /** With the page's initial settings the gallery shows exactly the approved artworks. */
  lemma InitialGalleryShowsApproved(arts: seq<ClientArtwork>, number: string -> Option<int>)
    ensures FilteredArtworks(arts, "", All, All, "", number) == Filter(arts, IsApproved)
  {
    var shown := (a: ClientArtwork) => Shown("", All, All, "", number, a);
    forall a ensures shown(a) == IsApproved(a) {
    }
    FilterExt(arts, shown, IsApproved);
  }

  predicate IsApproved(a: ClientArtwork) {
    a.status == Approved
  }
}
