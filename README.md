# Vinyl Vibe eShop — a Dafny model of the catalog, product page, page state and street field

This project models four parts of the Vinyl Vibe record shop's browser front end:

- **Page state** (`PageState`, `state.dfy`):
  - the document title derived from a route, in its "slice" and "upper-case" modes;
  - the check for the session cookie, which decides whether a customer counts as logged in;
  - the one-time cache of the route table in local storage (`State` class).
- **Catalog page** (`Catalog`, `catalog.dfy`):
  - breadcrumbs derived from the router's current path;
  - the genre links of the side bar;
  - the product cards and their price tags;
  - the path a card click navigates to;
  - the genre lookup behind a category page;
  - the search and filter handlers that replace the card area.
  - The page object is the `CatalogView` class. Its fields are the links it has built, the card slot of its wrapper and the breadcrumbs.
- **Product page** (`ProductPage`, `product.dfy`):
  - which attributes feed the info side;
  - the price box with its discount branch and discount badge;
  - the availability line;
  - the track list;
  - the order in which the four sides are filled. A side that throws leaves out every side after it.
- **Street field of the registration form** (`StreetInput`, `street_input.dfy`): the error span under the street input. Its text and class list follow the input's validity on construction and on every `input` event (`StreetInputView` class).

`Strings` (`strings.dfy`) gives the JavaScript string operations the source uses:
- `split` on one character, which always yields at least one piece;
- `join`;
- `replace` of the first occurrence;
- `split`/`join` used as replace-all;
- ASCII `toUpperCase`, `startsWith` and `slice`;
- decimal rendering of naturals.

`Commerce` (`commerce.dfy`) holds the product projection as the commerce platform returns it. Every list in it is optional.

The rendering code reads list elements without bounds checks, and calls string methods on values that may be objects. In JavaScript such a read throws a `TypeError`. The model makes that outcome explicit as `Result.Thrown`, so contracts can say exactly which inputs throw and what is shown up to the throw.

Some points where the model follows the code rather than what one might expect:
- The Condition item reads attribute 4 when there are more than four attributes. With exactly four it reads attribute 3, which is the track list on records that have one.
- A non-relative discount shows as `$` followed by the discount value object's default string (`[object Object]`).
- An attribute value that is an object shows as `[object Object]`.

## Model

| member | source | states |
|---|---|---|
| PageState.FormatPageTitle | src/components/state/State.ts:27-33 | An empty url or `/` gives the bare store title; any other url gives a title starting with `Vinyl Vibe Store - ` |
| PageState.SliceModeTitle | src/components/state/State.ts:30 | In slice mode the suffix is one character shorter than the url: the url's second character upper-cased, then every later character of the url, except that the url's first `_` shows as a space |
| PageState.LaterUnderscoresSurvive | src/components/state/State.ts:30 | Slice mode replaces only the first underscore; any later `_` appears unchanged in the title |
| PageState.UpperModeTitle | src/components/state/State.ts:32 | In upper-case mode the suffix has the url's length, and each character is the url's character upper-cased, or a space where the url has `-` |
| PageState.AnyStartsWith | src/components/state/State.ts:11 | `some(startsWith)` holds iff some piece starts with the prefix |
| PageState.TokenValidIffAtPieceStart | src/components/state/State.ts:9-13 | The cookie check holds iff `ACCESS_TOKEN=` occurs at the start of the cookie string or right after a `;` |
| PageState.TokenAfterFirstCookieMissed | src/components/state/State.ts:10-11 | For the browser cookie string `theme=dark; token=abc`, the check as written reports no token; the trimmed check finds it |
| PageState.TrimmedCheckFindsAnyPair | src/components/state/State.ts:9-13 | With each piece trimmed, the token is found in a browser cookie string iff some cookie pair starts with `ACCESS_TOKEN=`, wherever that pair sits |
| PageState.Stash | src/components/state/State.ts:35-41 | After a stash `routes` is present. It holds the new text when no table was stored, and the storage is unchanged when one was. No other key appears or disappears |
| PageState.StashFirstWriteWins | src/components/state/State.ts:35-41 | With no route table stored, a stash stores it; a second stash changes nothing, and the first table stays stored |
| PageState.StashKeepsOtherKeys | src/components/state/State.ts:35-41 | Stashing adds, removes and changes no key other than `routes` |
| PageState.State.StashPaths | src/components/state/State.ts:35-41 | The storage becomes the stash of the old storage; when a table was already stored, the storage is unchanged |
| PageState.State.GetPaths | src/components/state/State.ts:43-48 | A table is returned iff `routes` is stored and non-empty (absent and empty both read as missing), and it is the stored text |
| Catalog.BreadCrumbs | src/components/view/pages/catalog/CatalogView.ts:421-448 | One crumb per non-empty segment. Exactly the last crumb is active, and every `href` starts with the first segment and `/` |
| Catalog.CrumbsFollowSegments | src/components/view/pages/catalog/CatalogView.ts:421-448 | There is one crumb per non-empty path segment, in path order. Each caption is its segment with every `_` as a space. Exactly the last crumb is active |
| Catalog.CrumbHrefsNest | src/components/view/pages/catalog/CatalogView.ts:432 | The first crumb's `href` ends in `/`, and each crumb's `href` is a prefix of the next one's |
| Catalog.LastCrumbIsWholePath | src/components/view/pages/catalog/CatalogView.ts:432 | With two or more segments, the last crumb links to all segments joined by `/` |
| Catalog.NonEmptyKeepsNonEmpty | src/components/view/pages/catalog/CatalogView.ts:424 | The empty-item filter keeps a list with no empty item unchanged |
| Catalog.SegmentsOfJoinedPath | src/components/view/pages/catalog/CatalogView.ts:422-424 | A path built from non-empty, slash-free segments, with or without a leading `/`, splits back into exactly those segments |
| Catalog.FindGenre | src/components/view/pages/catalog/CatalogView.ts:194 | `find` yields the first genre with the key, or none when no genre has it |
| Catalog.MountFetchesOnlyKnownGenres | src/components/view/pages/catalog/CatalogView.ts:193-198 | A genre is fetched iff some genre has the key and the first such genre has a non-empty id; the id fetched is that genre's |
| Catalog.CategoryLinks | src/components/view/pages/catalog/CatalogView.ts:164-173 | One link per genre, in genre order: its text is the genre's name, its `data-genre` the genre's key, and its `href` starts with `/catalog/category/` |
| Catalog.CategoryLinkResolves | src/components/view/pages/catalog/CatalogView.ts:164-173 | Each side-bar link's `href` is `/catalog/category/` plus its genre's key, and its `data-genre` is that key. With distinct keys and a set id, mounting that key fetches that genre |
| Catalog.CurrencySymbol | src/components/view/pages/catalog/CatalogView.ts:239 | The symbol is `$` iff the currency code is `USD`, and `€` otherwise |
| Catalog.PriceTags | src/components/view/pages/catalog/CatalogView.ts:235-254 | It throws iff the price list exists but is empty, and no list gives no tags. Otherwise there are one or two tags, and the last is never struck |
| Catalog.PriceBranches | src/components/view/pages/catalog/CatalogView.ts:235-254 | No price list gives an empty price wrapper, and an empty list throws. A discounted first price gives the struck original, then the discounted amount; an undiscounted one gives its amount alone. All tags carry the first price's currency symbol |
| Catalog.CardOf | src/components/view/pages/catalog/CatalogView.ts:100-111 | A card throws iff the product has no attributes, no images or an empty price list. Otherwise it carries the product's id, the first attribute's text as singer, the first image's url, the name as title, and `PriceTags` of the prices |
| Catalog.CardsOf | src/components/view/pages/catalog/CatalogView.ts:95-116 | There is at most one card per product, and a throw is the `TypeError` of reading a missing element |
| Catalog.CardsFollowShownProducts | src/components/view/pages/catalog/CatalogView.ts:95-116 | Card assembly succeeds iff every product with attributes and images yields a card. The cards are then exactly those products' cards, one each, in input order, each carrying its product's id |
| Catalog.CardsThrowOnPrefix | src/components/view/pages/catalog/CatalogView.ts:99-113 | Once a product's card throws, the whole assembly throws the same way, whatever follows |
| Catalog.ProductPath | src/components/view/pages/catalog/CatalogView.ts:126-135 | A card with an id leads to the product page, a `/`, and the product's slug (empty when the id has none); without an id it leads to the product page |
| Catalog.CatalogView.constructor | src/components/view/pages/catalog/CatalogView.ts:31-42 | No links built, no wrapper, and breadcrumbs for the current path |
| Catalog.CatalogView.AssembleCategories | src/components/view/pages/catalog/CatalogView.ts:157-178 | It returns one link per genre in genre order, and `categoriesBtn` grows by exactly those links |
| Catalog.CatalogView.AssembleCards | src/components/view/pages/catalog/CatalogView.ts:95-116 | The `forEach` loop yields exactly the card assembly specified by `CardsOf`, including its first throw |
| Catalog.CatalogView.UpdateCrumbNavigation | src/components/view/pages/catalog/CatalogView.ts:417-419 | The breadcrumbs become those of the current path |
| Catalog.CatalogView.ShowNoResults | src/components/view/pages/catalog/CatalogView.ts:358-372 | When the wrapper exists, the card slot becomes the no-results box with the search or filter message; otherwise nothing changes |
| Catalog.CatalogView.ReplaceWithCards | src/components/view/pages/catalog/CatalogView.ts:219-222 | The card slot becomes the assembled cards when the wrapper exists and assembly does not throw |
| Catalog.CatalogView.GetSearchedProducts | src/components/view/pages/catalog/CatalogView.ts:326-356 | A failed search changes nothing; an empty result shows the search message; other results replace the cards; a blank search shows all products |
| Catalog.CatalogView.SubmitFilter | src/components/view/pages/catalog/CatalogView.ts:291-308 | No filter data changes nothing; an empty result shows the filter message; other results replace the cards |
| Catalog.CatalogView.Configure | src/components/view/pages/catalog/CatalogView.ts:53-78 | The genre links are built again, and the wrapper is created around the assembled cards unless assembly throws |
| Catalog.CatalogView.MountCategory | src/components/view/pages/catalog/CatalogView.ts:193-210 | It requests exactly the genre `MountFetchesOnlyKnownGenres` describes and rebuilds the breadcrumbs. Non-empty results whose cards assemble replace the cards of an existing wrapper, or configure the page when there is none. If card assembly throws, neither runs, so the links and the card slot stay as they were. Anything else also leaves the page as it was |
| Catalog.CatalogView.CardsClickHandler | src/components/view/pages/catalog/CatalogView.ts:118-137 | With an id, the breadcrumbs are rebuilt; without one, they are left alone. The path navigated to is `ProductPath` of the clicked id |
| ProductPage.FillProductInfoSide | src/components/view/product-page/ProductView.ts:73-85 | It throws iff attributes exist but are fewer than four. Otherwise the title is the product's name, and there is a subtitle iff attributes exist |
| ProductPage.InfoSideSelection | src/components/view/product-page/ProductView.ts:73-110 | The info side throws iff attributes exist but are fewer than four. Otherwise: subtitle = attribute 0; Label = attribute 1; LP = attribute 2's label; Condition = attribute 4 when there are more than four, else attribute 3 |
| ProductPage.ConditionShowsTrackListWithFourAttributes | src/components/view/product-page/ProductView.ts:106 | With exactly four attributes, the last being the track list, the Condition item shows the whole track-list text, and the additional side lists its lines |
| ProductPage.MoneyAmountPlacesPoint | src/components/view/product-page/ProductView.ts:336-343 | The corrected amount puts the decimal point `fractionDigits` places from the right: with no fraction digits it is the minor units, with two it is cents / 100, and each further digit divides by ten |
| ProductPage.AsWrittenMisplacesPoint | src/components/view/product-page/ProductView.ts:337 | As written, one more fraction digit scales the amount by fd / (fd + 1), never by one tenth |
| ProductPage.AsWrittenAgreesOnlyForOneDigit | src/components/view/product-page/ProductView.ts:337 | For a non-zero amount, the written divisor gives the right amount iff the currency has exactly one fraction digit |
| ProductPage.FormatMoneyShowsFiveTimesTooMuch | src/components/view/product-page/ProductView.ts:337 | 999 cents in a two-digit currency is 9.99, but the written code formats 49.95 |
| ProductPage.PriceBox | src/components/view/product-page/ProductView.ts:281-321 | An undiscounted price gives one entry, its own money as the current price, not in the discounted style. A discounted price gives nothing when the discount request fails, and three entries otherwise. A current price is in the discounted style iff the price is discounted |
| ProductPage.PriceBoxBranches | src/components/view/product-page/ProductView.ts:281-321 | An undiscounted price shows its money alone. A discounted one shows, in order: the discounted money as current, in the discounted style; the original money as previous, with the badge; then the discount's name and description. A relative badge is permyriad / 100 percent; any other badge is `$[object Object]`. For two fraction digits, the formatter receives five times the intended amount, also for the undiscounted price shown with no discount request |
| ProductPage.FillProductAside | src/components/view/product-page/ProductView.ts:261-274 | It throws iff the price list exists but is empty. Otherwise there is a price box iff prices exist, and it is `PriceBox` of the first price. The availability line is `AvailabilityShown` |
| ProductPage.AvailabilityShown | src/components/view/product-page/ProductView.ts:267-269 | The availability line appears iff an availability record with a non-zero quantity exists, and it shows that quantity |
| ProductPage.FillAdditionalSide | src/components/view/product-page/ProductView.ts:355-364 | The description is the product's. It throws iff attributes exist and are fewer than four, or attribute 3 is a `track-list` that is not a string |
| ProductPage.AdditionalSideSelection | src/components/view/product-page/ProductView.ts:361 | No attributes gives no track list. With at least four attributes and a plain attribute 3, the track list appears iff attribute 3 is named `track-list`, and it then lists that text's lines |
| ProductPage.TrackListLines | src/components/view/product-page/ProductView.ts:377-389 | The track list has newline count + 1 items. No item contains a newline, and joining the items with newlines gives back the attribute text |
| ProductPage.InjectTrackList | src/components/view/product-page/ProductView.ts:377-389 | The `forEach` appends exactly the lines of the text, in order, newline count + 1 of them |
| ProductPage.ProductDisplay | src/components/view/product-page/ProductView.ts:57-68 | The photo side holds the images. The aside appears only after the info side, and the additional side only after the aside. A shown info side, aside and additional side are exactly the ones `FillProductInfoSide`, `FillProductAside` and `FillAdditionalSide` build |
| ProductPage.SidesInOrder | src/components/view/product-page/ProductView.ts:57-68 | A side appears only after every earlier side. The photo side shows the images. The info side is missing iff attributes exist but are fewer than four. All four sides appear iff the product is well formed |
| StreetInput.ErrorShown | src/components/view/registration/form-component/input-component/address/street-input-view/street-input-view.ts:65-73 | No class is lost and the active class is present. The text is the old text, the missing message, or the too-short message for these numbers |
| StreetInput.AfterInput | src/components/view/registration/form-component/input-component/address/street-input-view/street-input-view.ts:53-63 | No class is lost. A valid value leaves an empty text and the plain class; an invalid one leaves the active class |
| StreetInput.ConstructorShowsMissing | src/components/view/registration/form-component/input-component/address/street-input-view/street-input-view.ts:20-30 | After construction the span reads `Enter street name` and carries the active class |
| StreetInput.ShowErrorCases | src/components/view/registration/form-component/input-component/address/street-input-view/street-input-view.ts:65-73 | A missing value wins over too short. Too short reports the minimum and the entered length. With neither, the text is kept. The active class is always added |
| StreetInput.ClassesOnlyGrow | src/components/view/registration/form-component/input-component/address/street-input-view/street-input-view.ts:53-73 | Over any run of input events the span's classes only grow |
| StreetInput.LastEventDecides | src/components/view/registration/form-component/input-component/address/street-input-view/street-input-view.ts:53-63 | After a valid last event the text is empty and the plain class is present; after an invalid one the active class is present |
| StreetInput.TextStaysAnErrorText | src/components/view/registration/form-component/input-component/address/street-input-view/street-input-view.ts:53-73 | From construction on, the text is always empty, the missing message, or a too-short message for the input's minimum length |
| StreetInput.BothClassesOnceValid | src/components/view/registration/form-component/input-component/address/street-input-view/street-input-view.ts:53-63 | Once any valid input has happened after construction, both the active and the plain class stay on the span for good |
| StreetInput.TooShortMessageReportsBoth | src/components/view/registration/form-component/input-component/address/street-input-view/street-input-view.ts:70 | Two too-short messages are equal only for the same minimum length and the same entered length |
| StreetInput.StreetInputView.constructor | src/components/view/registration/form-component/input-component/address/street-input-view/street-input-view.ts:7-30 | The span is the one `ConstructorShowsMissing` describes |
| StreetInput.StreetInputView.ShowError | src/components/view/registration/form-component/input-component/address/street-input-view/street-input-view.ts:65-73 | The span becomes the `showError` state (`ErrorShown`); no class is lost, and the active class is present |
| StreetInput.StreetInputView.OnInput | src/components/view/registration/form-component/input-component/address/street-input-view/street-input-view.ts:53-63 | The span becomes the state after one input event (`AfterInput`); no class is lost |

## Left out

- Asynchrony:
  - Requests to the commerce platform are not modelled; their results are parameters.
  - These include the genre products, the search response, the filter data, the full product list, and the product's discount.
  - The order in which promise callbacks run is collapsed into one step.
- `getCategoriesView`, `proceedToCategories`, `proceedToCatalog`: these fire one request per genre from an `async` `forEach` and append whichever answers first. Their result order is not determined by the code, so they are not modelled.
- DOM assembly is not modelled: the wrapper's children, the side bar, mobile menu, filter box, search box and cart buttons.
  - The positional `childNodes[2]` swap is modelled as a single card slot.
  - `init` as written declares `assambledCards` twice and appends the cards twice. `Configure` builds the cards once.
- Also not modelled:
  - `resetBtnHandler` and `categoriesCbHandler`;
  - the resize, keypress and click listeners, apart from the handlers they call;
  - the router's `navigate`, `pushState`, `replaceState` and the history API. The product path a card click would navigate to is returned instead.
- Catalog.CatalogView.CardsClickHandler: the walk up the DOM to an element with a `data-id` is not modelled. The clicked id is a parameter; the walk only ends at a non-empty id, so the no-id branch cannot be reached from a card.
- `setPageTitle`: assigning `document.title` is not modelled. The title is `FormatPageTitle`.
- `deleteAccessToken`: cookie writes and the browser's cookie jar are not modelled. The cookie string is a parameter.
- Photo side: the carousel and the image modal are not modelled. The display records the image list the photo side is built from.
- Number formatting is not modelled: `Intl.NumberFormat` currency rendering, and JavaScript's number-to-string for `centAmount / 100`.
- ProductPage.PriceBox: entries hold the money record that `formatMoney` receives, not the formatted text. The number it formats is `MoneyAmountAsWritten`, with the written divisor (see Findings).
- `PageState.State.GetPaths`: returns the stored text, not `JSON.parse` of it. `stashPaths` is given the route table already serialised. JSON itself is not modelled.
- Catalog.PriceTags: keeps `centAmount` rather than the text `centAmount / 100` followed by the symbol.
- `toUpperCase` is modelled for ASCII letters only; other characters are unchanged.
- Constants defined in files that are not part of this model are parameters:
  - `ACCESS_TOKEN`;
  - `PAGES.PRODUCT`;
  - the CSS classes of the error span;
  - the street field's `minLength`.
- The browser's validity flags (`valid`, `valueMissing`, `tooShort`) and the entered length are inputs, not derived from the value.
- Console logging is not modelled.

## Findings

| source | as written | input that shows it | evidently intended | confidence | as-written member | corrected member |
|---|---|---|---|---|---|---|
| src/components/state/State.ts:10-11 | Splits `document.cookie` on `;` and tests each piece with `startsWith` untrimmed. The browser joins cookies with `"; "`, so every cookie after the first starts with a space | cookie string `theme=dark; token=abc` with `ACCESS_TOKEN` = `token`: reported as not logged in | find the token wherever its pair sits (trim each piece) | not executed | PageState.TokenAfterFirstCookieMissed | PageState.TrimmedCheckFindsAnyPair |
| src/components/view/product-page/ProductView.ts:337 | Divides `centAmount` by `10 * fractionDigits` | 999 cents in USD (2 fraction digits): formats 49.95 instead of 9.99; with 0 fraction digits it divides by zero | divide by 10 to the power `fractionDigits` | not executed | ProductPage.FormatMoneyShowsFiveTimesTooMuch | ProductPage.MoneyAmountPlacesPoint |
