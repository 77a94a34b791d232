/** The catalog page: breadcrumbs derived from the current path, the genre
    links of the side bar, the product cards with their prices, the link a card
    click follows, the genre lookup behind a category page, and the search and
    filter results that replace the card area. */
module Catalog {
  import opened Strings
  import opened Commerce

  // ---------------------------------------------------------------------------
  // breadcrumbs

  /** One breadcrumb link: its text, its `href`, and whether it has the active style. */
  datatype Crumb = Crumb(caption: string, href: string, active: bool)

  /** `parts.filter((item) => item !== '')`. */
  function NonEmpty(parts: seq<string>): (kept: seq<string>)
    ensures forall i :: 0 <= i < |kept| ==> kept[i] != ""
  {
    if parts == [] then []
    else (if parts[0] != "" then [parts[0]] else []) + NonEmpty(parts[1..])
  }

  /** The non-empty `/`-separated segments of a path, in path order. */
  function Segments(path: string): seq<string>
  {
    NonEmpty(Split(path, '/'))
  }

  /** The `href` of breadcrumb `i`: the first segment, a `/`, then segments 1..i joined by `/`. */
  function CrumbHref(segs: seq<string>, i: nat): string
    requires i < |segs|
  {
    segs[0] + "/" + Join(segs[1..i + 1], "/")
  }

  /** `createBreadCrumbs` for the router's current path. */
  function BreadCrumbs(currentPath: string): (crumbs: seq<Crumb>)
    ensures |crumbs| == |Segments(currentPath)|
    ensures forall i :: 0 <= i < |crumbs| ==> (crumbs[i].active <==> i == |crumbs| - 1)
    ensures forall i :: 0 <= i < |crumbs| ==> IsPrefix(Segments(currentPath)[0] + "/", crumbs[i].href)
  {
    var segs := Segments(currentPath);
    seq(|segs|, i requires 0 <= i < |segs| =>
      Crumb(ReplaceAll(segs[i], '_', ' '), CrumbHref(segs, i), i + 1 == |segs|))
  }

  /** One crumb per non-empty segment, in order; each label is its segment with
      every `_` shown as a space; exactly the last crumb is active. */
  lemma CrumbsFollowSegments(currentPath: string)
    ensures var crumbs, segs := BreadCrumbs(currentPath), Segments(currentPath);
      && |crumbs| == |segs|
      && (forall i :: 0 <= i < |crumbs| ==>
            && |crumbs[i].caption| == |segs[i]|
            && (forall j :: 0 <= j < |segs[i]| ==>
                  crumbs[i].caption[j] == if segs[i][j] == '_' then ' ' else segs[i][j])
            && (crumbs[i].active <==> i == |crumbs| - 1))
  {
    var crumbs, segs := BreadCrumbs(currentPath), Segments(currentPath);
    forall i | 0 <= i < |crumbs|
      ensures ReplaceAll(segs[i], '_', ' ') == Substituted(segs[i], '_', ' ')
    {
      ReplaceAllSubstitutes(segs[i], '_', ' ');
    }
  }

  /** The first crumb's `href` ends in `/`, and each `href` is a prefix of the next. */
  lemma CrumbHrefsNest(currentPath: string)
    ensures var crumbs := BreadCrumbs(currentPath);
      && (|crumbs| > 0 ==> |crumbs[0].href| > 0 && crumbs[0].href[|crumbs[0].href| - 1] == '/')
      && forall i :: 0 <= i < |crumbs| - 1 ==> IsPrefix(crumbs[i].href, crumbs[i + 1].href)
  {
    var crumbs, segs := BreadCrumbs(currentPath), Segments(currentPath);
    forall i | 0 <= i < |crumbs| - 1
      ensures IsPrefix(crumbs[i].href, crumbs[i + 1].href)
    {
      var a := segs[0] + "/";
      if i == 0 {
        assert crumbs[0].href == a;
        assert crumbs[1].href == a + segs[1];
        assert (a + segs[1])[..|a|] == a;
      } else {
        var head := Join(segs[1..i + 1], "/");
        assert segs[1..i + 2] == segs[1..i + 1] + [segs[i + 1]];
        JoinSnoc(segs[1..i + 1], segs[i + 1], "/");
        assert crumbs[i + 1].href == (a + head) + ("/" + segs[i + 1]);
        assert (a + head + ("/" + segs[i + 1]))[..|a + head|] == a + head;
      }
    }
  }

  /** With two or more segments the last crumb links to all segments joined by `/`. */
  lemma LastCrumbIsWholePath(currentPath: string)
    requires |Segments(currentPath)| >= 2
    ensures var segs := Segments(currentPath);
      BreadCrumbs(currentPath)[|segs| - 1].href == Join(segs, "/")
  {
    var segs := Segments(currentPath);
    assert segs[1..|segs|] == segs[1..];
  }

  lemma {:induction false} NonEmptyKeepsNonEmpty(parts: seq<string>)
    requires forall i :: 0 <= i < |parts| ==> parts[i] != ""
    ensures NonEmpty(parts) == parts
  {
    if parts != [] {
      NonEmptyKeepsNonEmpty(parts[1..]);
    }
  }

  /** A path made of non-empty, slash-free segments, with or without a leading
      `/`, yields exactly those segments: no segment is lost, merged or reordered. */
  lemma SegmentsOfJoinedPath(segs: seq<string>)
    requires |segs| >= 1
    requires forall i :: 0 <= i < |segs| ==> segs[i] != "" && '/' !in segs[i]
    ensures Segments(Join(segs, "/")) == segs
    ensures Segments("/" + Join(segs, "/")) == segs
  {
    var joined := Join(segs, "/");
    SplitJoin(segs, '/');
    NonEmptyKeepsNonEmpty(segs);
    var rooted := "/" + joined;
    assert rooted[0] == '/';
    assert IndexOf(rooted, '/') == 0;
    assert rooted[1..] == joined;
    assert Split(rooted, '/') == [""] + segs;
    assert ([""] + segs)[1..] == segs;
  }

  // ---------------------------------------------------------------------------
  // genre links and the category lookup

  /** A category link of the side bar: its text, `href` and `data-genre`. */
  datatype CategoryLink = CategoryLink(text: string, href: string, dataGenre: string)

  const CategoryPath: string := "/catalog/category/"

  function CategoryLinkOf(g: Genre): CategoryLink
  {
    CategoryLink(g.name, CategoryPath + g.key, g.key)
  }

  /** The links `assembleCategories` builds, one per genre, in genre order. */
  function CategoryLinks(genres: seq<Genre>): (links: seq<CategoryLink>)
    ensures |links| == |genres|
    ensures forall i :: 0 <= i < |links| ==>
      links[i].text == genres[i].name && links[i].dataGenre == genres[i].key &&
      IsPrefix(CategoryPath, links[i].href)
  {
    seq(|genres|, i requires 0 <= i < |genres| => CategoryLinkOf(genres[i]))
  }

  /** The genre key a category `href` names, if it is a category `href`. */
  function CategoryKeyOf(href: string): Option<string>
  {
    if IsPrefix(CategoryPath, href) then Some(href[|CategoryPath|..]) else None
  }

  /** `genres.find((item) => item.key === key)`, as the index found. */
  function FindGenre(genres: seq<Genre>, key: string): (r: Option<nat>)
    ensures r.Some? ==> r.value < |genres| && genres[r.value].key == key
    ensures r.Some? ==> forall j :: 0 <= j < r.value ==> genres[j].key != key
    ensures r.None? ==> forall j :: 0 <= j < |genres| ==> genres[j].key != key
  {
    if genres == [] then None
    else if genres[0].key == key then Some(0)
    else match FindGenre(genres[1..], key)
      case Some(i) => Some(i + 1)
      case None => None
  }

  /** The genre id `mountCategory` fetches for a key: that of the first genre with
      the key, when it is non-empty. */
  function GenreToFetch(genres: seq<Genre>, key: string): Option<string>
  {
    match FindGenre(genres, key)
    case Some(i) => if genres[i].id != "" then Some(genres[i].id) else None
    case None => None
  }

  /** A fetch happens only for a key some genre has, and then for the id of the
      first genre with that key; it happens whenever that id is non-empty. */
  lemma MountFetchesOnlyKnownGenres(genres: seq<Genre>, key: string)
    ensures GenreToFetch(genres, key).Some? ==>
      exists i :: 0 <= i < |genres| && genres[i].key == key && genres[i].id == GenreToFetch(genres, key).value
    ensures GenreToFetch(genres, key).Some? <==>
      exists i :: 0 <= i < |genres| && genres[i].key == key && genres[i].id != "" &&
        forall j :: 0 <= j < i ==> genres[j].key != key
  {
    match FindGenre(genres, key)
    case Some(i) =>
      if exists i' :: 0 <= i' < |genres| && genres[i'].key == key && genres[i'].id != "" &&
          forall j :: 0 <= j < i' ==> genres[j].key != key {
        var i' :| 0 <= i' < |genres| && genres[i'].key == key && genres[i'].id != "" &&
          forall j :: 0 <= j < i' ==> genres[j].key != key;
        assert i' == i;
      }
    case None =>
  }

  /** Every link of the side bar leads back to its own genre: its `href` names the
      genre's key, and when keys are distinct and the id is set, mounting that key
      fetches that genre. */
  lemma CategoryLinkResolves(genres: seq<Genre>, i: nat)
    requires i < |genres|
    ensures CategoryKeyOf(CategoryLinks(genres)[i].href) == Some(genres[i].key)
    ensures CategoryLinks(genres)[i].dataGenre == genres[i].key
    ensures (forall j, k :: 0 <= j < k < |genres| ==> genres[j].key != genres[k].key) && genres[i].id != "" ==>
      GenreToFetch(genres, genres[i].key) == Some(genres[i].id)
  {
    var href := CategoryPath + genres[i].key;
    assert href[..|CategoryPath|] == CategoryPath;
    assert href[|CategoryPath|..] == genres[i].key;
    if (forall j, k :: 0 <= j < k < |genres| ==> genres[j].key != genres[k].key) && genres[i].id != "" {
      var f := FindGenre(genres, genres[i].key);
      assert f.Some?;
      assert f.value == i;
    }
  }

  // ---------------------------------------------------------------------------
  // prices and cards

  /** One price element of a card: the amount in cents, the currency symbol, and
      whether it has the struck-through style. */
  datatype PriceTag = PriceTag(centAmount: int, symbol: string, struck: bool)

  /** `'$'` for US dollars, `'€'` for every other currency code. */
  function CurrencySymbol(currencyCode: string): (symbol: string)
    ensures symbol == "$" <==> currencyCode == "USD"
    ensures symbol == "$" || symbol == "€"
  {
    if currencyCode == "USD" then "$" else "€"
  }

  /** `assamblePrice`: the price elements of a card, from the first price. */
  function PriceTags(prices: Option<seq<Price>>): (tags: Result<seq<PriceTag>>)
    ensures tags.Thrown? <==> prices == Some([])
    ensures prices.None? ==> tags == Ok([])
    ensures prices.Some? && tags.Ok? ==> 1 <= |tags.value| <= 2 && !tags.value[|tags.value| - 1].struck
  {
    match prices
    case None => Ok([])
    case Some(ps) =>
      if ps == [] then Thrown(TypeError)
      else
        var first := ps[0];
        var symbol := CurrencySymbol(first.value.currencyCode);
        match first.discounted
        case Some(d) =>
          Ok([PriceTag(first.value.centAmount, symbol, true), PriceTag(d.value.centAmount, symbol, false)])
        case None =>
          Ok([PriceTag(first.value.centAmount, symbol, false)])
  }

  /** No price list gives an empty wrapper; an empty list throws; otherwise a
      discounted first price gives the struck original then the discounted amount,
      and an undiscounted one gives the amount alone; all in the first price's currency. */
  lemma PriceBranches(prices: Option<seq<Price>>)
    ensures prices.None? ==> PriceTags(prices) == Ok([])
    ensures PriceTags(prices).Thrown? <==> prices == Some([])
    ensures prices.Some? && prices.value != [] ==>
      var first := prices.value[0];
      var tags := PriceTags(prices).value;
      && |tags| == (if first.discounted.Some? then 2 else 1)
      && tags[0].centAmount == first.value.centAmount
      && (tags[0].struck <==> first.discounted.Some?)
      && (first.discounted.Some? ==> !tags[1].struck && tags[1].centAmount == first.discounted.value.value.centAmount)
      && forall t :: 0 <= t < |tags| ==> (tags[t].symbol == "$" <==> first.value.currencyCode == "USD")
  {
  }

  /** A product card: `data-id`, the first image, the singer (first attribute),
      the title and the price elements. */
  datatype Card = Card(id: string, imageUrl: string, imageAlt: string, singer: string, title: string,
                       price: seq<PriceTag>)

  /** A card is built only for products whose master variant has attributes and images. */
  predicate HasCardData(p: Product)
  {
    p.masterVariant.attributes.Some? && p.masterVariant.images.Some?
  }

  /** The card of one product; it throws when the first attribute, the first image
      or the first price it reads does not exist. */
  function CardOf(p: Product): (r: Result<Card>)
    requires HasCardData(p)
    ensures r.Thrown? <==>
      || p.masterVariant.attributes.value == []
      || p.masterVariant.images.value == []
      || p.masterVariant.prices == Some([])
    ensures r.Ok? ==>
      && r.value.id == p.id
      && r.value.singer == TextContent(p.masterVariant.attributes.value[0].value)
      && r.value.imageUrl == p.masterVariant.images.value[0].url
      && r.value.title == p.name
      && Ok(r.value.price) == PriceTags(p.masterVariant.prices)
  {
    var attrs := p.masterVariant.attributes.value;
    var images := p.masterVariant.images.value;
    if attrs == [] || images == [] then Thrown(TypeError)
    else match PriceTags(p.masterVariant.prices)
      case Thrown(e) => Thrown(e)
      case Ok(tags) => Ok(Card(p.id, images[0].url, p.name, TextContent(attrs[0].value), p.name, tags))
  }

  /** The products that get a card, in input order. */
  function Shown(products: seq<Product>): (shown: seq<Product>)
    ensures forall i :: 0 <= i < |shown| ==> HasCardData(shown[i])
  {
    if products == [] then []
    else
      var last := products[|products| - 1];
      Shown(products[..|products| - 1]) + (if HasCardData(last) then [last] else [])
  }

  /** The cards `assamleCards` appends to the wrapper, product by product; the
      first product whose card throws ends the whole call. */
  function CardsOf(products: seq<Product>): (r: Result<seq<Card>>)
    ensures r.Ok? ==> |r.value| <= |products|
    ensures r.Thrown? ==> r.error == TypeError
  {
    if products == [] then Ok([])
    else
      var last := products[|products| - 1];
      match CardsOf(products[..|products| - 1])
      case Thrown(e) => Thrown(e)
      case Ok(cards) =>
        if !HasCardData(last) then Ok(cards)
        else match CardOf(last)
          case Thrown(e) => Thrown(e)
          case Ok(card) => Ok(cards + [card])
  }

  /** The cards are exactly those of the shown products, one each, in input order;
      the call throws exactly when some shown product's card throws. */
  lemma {:induction false} CardsFollowShownProducts(products: seq<Product>)
    ensures CardsOf(products).Ok? <==> forall i :: 0 <= i < |Shown(products)| ==> CardOf(Shown(products)[i]).Ok?
    ensures CardsOf(products).Ok? ==>
      var cards, shown := CardsOf(products).value, Shown(products);
      && |cards| == |shown|
      && forall i :: 0 <= i < |cards| ==> cards[i] == CardOf(shown[i]).value && cards[i].id == shown[i].id
  {
    if products != [] {
      var init, last := products[..|products| - 1], products[|products| - 1];
      CardsFollowShownProducts(init);
      var shownInit := Shown(init);
      if HasCardData(last) {
        assert Shown(products) == shownInit + [last];
        assert Shown(products)[|shownInit|] == last;
        if CardsOf(products).Ok? {
          assert CardsOf(init).Ok?;
          forall i | 0 <= i < |Shown(products)| ensures CardOf(Shown(products)[i]).Ok? {
            if i < |shownInit| { assert Shown(products)[i] == shownInit[i]; }
          }
        } else if CardsOf(init).Ok? {
          assert !CardOf(Shown(products)[|shownInit|]).Ok?;
        } else {
          var i :| 0 <= i < |shownInit| && !CardOf(shownInit[i]).Ok?;
          assert Shown(products)[i] == shownInit[i];
        }
      } else {
        assert Shown(products) == shownInit;
      }
    }
  }

  /** `cardsClickHandler`'s target: the product page, a `/`, and the product's slug
      from the prefetched url table (empty when the id has none); the product
      page alone when the clicked element carries no id. */
  function ProductPath(productPage: string, slugs: map<string, string>, id: string): (path: string)
    ensures id != "" ==>
      (IsPrefix(productPage + "/", path) && path[|productPage| + 1..] == (if id in slugs then slugs[id] else ""))
    ensures id == "" ==> path == productPage
  {
    if id == "" then productPage
    else productPage + "/" + (if id in slugs then slugs[id] else "")
  }

  // ---------------------------------------------------------------------------
  // the card area and the view

  /** What occupies the card slot of the catalog wrapper. */
  datatype Content = Cards(cards: seq<Card>) | NoResults(message: string)

  /** The text `showNoResults` writes, for a search or for the filter. */
  function NoResultsMessage(search: string, filter: bool): string
  {
    if filter then "No Results Found. Please, choose another filters"
    else "No Results for <span>\"" + search + "\"</span>. Please, try another search."
  }

  /** The card slot after a replacement that runs only when the wrapper exists. */
  function Replaced(content: Option<Content>, next: Content): Option<Content>
  {
    if content.Some? then Some(next) else content
  }

  /** The card slot after rendering `products` into it: left alone when the card
      assembly throws. */
  function WithCards(content: Option<Content>, products: seq<Product>): Option<Content>
  {
    match CardsOf(products)
    case Ok(cards) => Replaced(content, Cards(cards))
    case Thrown(_) => content
  }

  class CatalogView {
    /** Prefetched genres, prefetched product slugs by id, and `PAGES.PRODUCT`. */
    const genres: seq<Genre>
    const productSlugs: map<string, string>
    const productPage: string

    /** `categoriesBtn`: every category link built so far. */
    var categoriesBtn: seq<CategoryLink>
    /** The card slot of `wrapper`; `None` while `wrapper` is `null`. */
    var content: Option<Content>
    /** The children of the breadcrumb wrapper. */
    var crumbs: seq<Crumb>

    constructor (genres: seq<Genre>, productSlugs: map<string, string>, productPage: string, currentPath: string)
      ensures this.genres == genres && this.productSlugs == productSlugs && this.productPage == productPage
      ensures categoriesBtn == [] && content == None && crumbs == BreadCrumbs(currentPath)
    {
      this.genres := genres;
      this.productSlugs := productSlugs;
      this.productPage := productPage;
      crumbs := BreadCrumbs(currentPath);
      content := None;
      categoriesBtn := [];
    }

    /** `assembleCategories`: one link per genre, each also pushed onto `categoriesBtn`. */
    method AssembleCategories() returns (links: seq<CategoryLink>)
      modifies this`categoriesBtn
      ensures links == CategoryLinks(genres)
      ensures categoriesBtn == old(categoriesBtn) + links
    {
      links := [];
      var i := 0;
      while i < |genres|
        invariant 0 <= i <= |genres|
        invariant links == CategoryLinks(genres)[..i]
        invariant categoriesBtn == old(categoriesBtn) + links
      {
        var link := CategoryLinkOf(genres[i]);
        categoriesBtn := categoriesBtn + [link];
        links := links + [link];
        i := i + 1;
      }
    }

    /** `assamleCards`: the `forEach` over the products, appending a card for each
        product that has attributes and images. */
    method AssembleCards(cardsData: seq<Product>) returns (r: Result<seq<Card>>)
      ensures r == CardsOf(cardsData)
    {
      var cards: seq<Card> := [];
      var i := 0;
      while i < |cardsData|
        invariant 0 <= i <= |cardsData|
        invariant CardsOf(cardsData[..i]) == Ok(cards)
      {
        var data := cardsData[i];
        assert cardsData[..i + 1][..i] == cardsData[..i];
        if HasCardData(data) {
          var card := CardOf(data);
          if card.Thrown? {
            assert cardsData[..i + 1] == cardsData[..i] + [data];
            assert CardsOf(cardsData[..i + 1]) == Thrown(card.error);
            CardsThrowOnPrefix(cardsData, i + 1);
            return Thrown(card.error);
          }
          cards := cards + [card.value];
        }
        i := i + 1;
      }
      assert cardsData[..i] == cardsData;
      r := Ok(cards);
    }

    /** `updateCrumbNavigation`: the breadcrumbs are rebuilt from the current path. */
    method UpdateCrumbNavigation(currentPath: string)
      modifies this`crumbs
      ensures crumbs == BreadCrumbs(currentPath)
    {
      crumbs := BreadCrumbs(currentPath);
    }

    /** `showNoResults`: the no-results box replaces the card slot when the wrapper exists. */
    method ShowNoResults(search: string, filter: bool)
      modifies this`content
      ensures content == Replaced(old(content), NoResults(NoResultsMessage(search, filter)))
    {
      if content.Some? {
        content := Some(NoResults(NoResultsMessage(search, filter)));
      }
    }

    /** Renders `products` as cards into the card slot when the wrapper exists. */
    method ReplaceWithCards(products: seq<Product>)
      modifies this`content
      ensures content == WithCards(old(content), products)
    {
      var r := AssembleCards(products);
      if r.Ok? && content.Some? {
        content := Some(Cards(r.value));
      }
    }

    /** `getSearchedProducts`, given the search response (`None` when the request
        fails) and, for a blank search, the full product list (`None` when that
        fetch yields nothing, which renders an empty card area). */
    method GetSearchedProducts(search: string, found: Option<seq<Product>>, all: Option<seq<Product>>)
      modifies this`content
      ensures search != "" && found.None? ==> content == old(content)
      ensures search != "" && found == Some([]) ==>
        content == Replaced(old(content), NoResults(NoResultsMessage(search, false)))
      ensures search != "" && found.Some? && found.value != [] ==> content == WithCards(old(content), found.value)
      ensures search == "" ==> content == WithCards(old(content), if all.Some? then all.value else [])
    {
      if search != "" {
        if found.Some? {
          if |found.value| == 0 {
            ShowNoResults(search, false);
          } else {
            ReplaceWithCards(found.value);
          }
        }
      } else {
        ReplaceWithCards(if all.Some? then all.value else []);
      }
    }

    /** The filter's submit handler, given the filtered products (`None` when the
        filter request yields nothing). */
    method SubmitFilter(cardsData: Option<seq<Product>>)
      modifies this`content
      ensures cardsData.None? ==> content == old(content)
      ensures cardsData == Some([]) ==> content == Replaced(old(content), NoResults(NoResultsMessage("", true)))
      ensures cardsData.Some? && cardsData.value != [] ==> content == WithCards(old(content), cardsData.value)
    {
      if cardsData.Some? && |cardsData.value| > 0 {
        ReplaceWithCards(cardsData.value);
      }
      if cardsData.Some? && |cardsData.value| == 0 {
        ShowNoResults("", true);
      }
    }

    /** `configure` with a product list: the side bar's genre links are built
        again and the wrapper is created around the cards. */
    method Configure(products: seq<Product>)
      modifies this`categoriesBtn, this`content
      ensures categoriesBtn == old(categoriesBtn) + CategoryLinks(genres)
      ensures CardsOf(products).Ok? ==> content == Some(Cards(CardsOf(products).value))
      ensures CardsOf(products).Thrown? ==> content == old(content)
    {
      var links := AssembleCategories();
      var r := AssembleCards(products);
      if r.Ok? {
        content := Some(Cards(r.value));
      }
    }

    /** `mountCategory`, given the current path and the products of the requested
        genre (`None` when the request yields nothing). Returns the genre id that
        is fetched, if any. */
    method MountCategory(key: string, currentPath: string, fetched: Option<seq<Product>>)
      returns (requested: Option<string>)
      modifies this`categoriesBtn, this`content, this`crumbs
      ensures requested == GenreToFetch(genres, key)
      ensures crumbs == BreadCrumbs(currentPath)
      ensures requested.None? || fetched.None? || fetched.value == [] ==>
        content == old(content) && categoriesBtn == old(categoriesBtn)
      ensures fetched.Some? && CardsOf(fetched.value).Thrown? ==>
        content == old(content) && categoriesBtn == old(categoriesBtn)
      ensures requested.Some? && fetched.Some? && fetched.value != [] && old(content).Some? ==>
        content == WithCards(old(content), fetched.value) && categoriesBtn == old(categoriesBtn)
      ensures requested.Some? && fetched.Some? && fetched.value != [] && old(content).None? &&
              CardsOf(fetched.value).Ok? ==>
        categoriesBtn == old(categoriesBtn) + CategoryLinks(genres) &&
        content == Some(Cards(CardsOf(fetched.value).value))
    {
      requested := GenreToFetch(genres, key);
      UpdateCrumbNavigation(currentPath);
      if requested.Some? && fetched.Some? && |fetched.value| > 0 {
        var r := AssembleCards(fetched.value);
        if r.Ok? {
          if content.Some? {
            content := Some(Cards(r.value));
          } else {
            Configure(fetched.value);
          }
        }
      }
    }

    /** `cardsClickHandler` for the clicked card's `data-id`: with an id the
        breadcrumbs are rebuilt; the product path to navigate to is returned.
        The walk up to an element with a `data-id` only ends at a non-empty id,
        so the empty-id branch cannot be reached from a card. */
    method CardsClickHandler(id: string, currentPath: string) returns (path: string)
      modifies this`crumbs
      ensures id != "" ==> crumbs == BreadCrumbs(currentPath)
      ensures id == "" ==> crumbs == old(crumbs)
      ensures path == ProductPath(productPage, productSlugs, id)
    {
      if id != "" {
        UpdateCrumbNavigation(currentPath);
        var slug := if id in productSlugs then productSlugs[id] else "";
        path := productPage + "/" + slug;
      } else {
        path := productPage;
      }
    }
  }

  /** Once a prefix of the products throws, the whole call throws the same way. */
  lemma {:induction false} CardsThrowOnPrefix(products: seq<Product>, n: nat)
    requires n <= |products|
    requires CardsOf(products[..n]).Thrown?
    ensures CardsOf(products) == CardsOf(products[..n])
    decreases |products| - n
  {
    if n < |products| {
      var next := products[..n + 1];
      assert next[..n] == products[..n];
      assert CardsOf(next) == CardsOf(products[..n]);
      CardsThrowOnPrefix(products, n + 1);
    } else {
      assert products[..n] == products;
    }
  }
}
