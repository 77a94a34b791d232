/** The product page as a view model: which attributes feed the info side, the
    price box with its discount branch, the availability line, the track list,
    and the order in which the four sides are filled, a throw in one side
    leaving out the sides after it. */
module ProductPage {
  import opened Strings
  import opened Commerce

  // ---------------------------------------------------------------------------
  // info side

  datatype InfoItem = InfoItem(caption: string, text: string)

  /** The info side: the title, the subtitle, and the Label / LP / Condition items. */
  datatype InfoSide = InfoSide(title: string, subtitle: Option<string>, info: seq<InfoItem>)

  /** What `value.label` shows: the label of an enumerated value; a plain string
      has no `label`, and `undefined` shows as empty text. */
  function LabelOf(v: AttributeValue): string
  {
    match v
    case Enum(_, l) => l
    case Plain(_) => ""
  }

  /** The attribute the Condition item reads: index 4 when there are more than
      four attributes, index 3 otherwise. */
  function ConditionAttribute(attrs: seq<Attribute>): Attribute
    requires |attrs| >= 4
  {
    if |attrs| > 4 then attrs[4] else attrs[3]
  }

  /** `fillProductInfoSide`; reading an attribute past the end of the list throws. */
  function FillProductInfoSide(p: Product): (side: Result<InfoSide>)
    ensures side.Thrown? <==> p.masterVariant.attributes.Some? && |p.masterVariant.attributes.value| < 4
    ensures side.Ok? ==> side.value.title == p.name
    ensures side.Ok? ==> (side.value.subtitle.Some? <==> p.masterVariant.attributes.Some?)
  {
    match p.masterVariant.attributes
    case None => Ok(InfoSide(p.name, None, []))
    case Some(attrs) =>
      if |attrs| < 4 then Thrown(TypeError)
      else Ok(InfoSide(p.name, Some(TextContent(attrs[0].value)), [
        InfoItem("Label:", TextContent(attrs[1].value)),
        InfoItem("LP:", LabelOf(attrs[2].value)),
        InfoItem("Condition:", TextContent(ConditionAttribute(attrs).value))]))
  }

  /** The info side throws exactly when attributes exist but are fewer than four.
      Otherwise the subtitle is attribute 0, Label is attribute 1, LP is the label
      of attribute 2, and Condition is attribute 4 when there are more than four
      attributes and attribute 3 when there are exactly four. */
  lemma InfoSideSelection(p: Product)
    ensures FillProductInfoSide(p).Thrown? <==>
      p.masterVariant.attributes.Some? && |p.masterVariant.attributes.value| < 4
    ensures p.masterVariant.attributes.None? ==> FillProductInfoSide(p) == Ok(InfoSide(p.name, None, []))
    ensures FillProductInfoSide(p).Ok? && p.masterVariant.attributes.Some? ==>
      var attrs, side := p.masterVariant.attributes.value, FillProductInfoSide(p).value;
      && side.subtitle == Some(TextContent(attrs[0].value))
      && |side.info| == 3
      && side.info[0].text == TextContent(attrs[1].value)
      && side.info[1].text == LabelOf(attrs[2].value)
      && side.info[2].text == TextContent(if |attrs| > 4 then attrs[4].value else attrs[3].value)
  {
  }

  /** With exactly four attributes the fourth is read twice: when it is the track
      list, the Condition item shows the whole track list text. */
  lemma ConditionShowsTrackListWithFourAttributes(p: Product, tracks: string)
    requires p.masterVariant.attributes.Some? && |p.masterVariant.attributes.value| == 4
    requires p.masterVariant.attributes.value[3] == Attribute("track-list", Plain(tracks))
    ensures FillProductInfoSide(p).Ok?
    ensures FillProductInfoSide(p).value.info[2] == InfoItem("Condition:", tracks)
    ensures FillAdditionalSide(p) == Ok(Additional(p.description, Some(Split(tracks, '\n'))))
  {
  }

  // ---------------------------------------------------------------------------
  // money

  function Pow10(n: nat): (r: nat)
    ensures r >= 1
  {
    if n == 0 then 1 else 10 * Pow10(n - 1)
  }

  /** The amount in major units: `centAmount / 10^fractionDigits`. */
  function MoneyAmount(m: Money): real
  {
    m.centAmount as real / Pow10(m.fractionDigits) as real
  }

  /** The amount `formatMoney` passes to the number formatter, as written: it
      divides by `10 * fractionDigits`; with no fraction digits the division is
      by zero, which has no real value. */
  function MoneyAmountAsWritten(m: Money): Option<real>
  {
    if m.fractionDigits == 0 then None
    else Some(m.centAmount as real / (10 * m.fractionDigits) as real)
  }

  /** The corrected amount puts the decimal point `fractionDigits` places from
      the right: with no fraction digits it is the minor units themselves, with
      two it is cents over 100, and each further digit divides by ten. */
  lemma MoneyAmountPlacesPoint(m: Money)
    ensures m.fractionDigits == 0 ==> MoneyAmount(m) == m.centAmount as real
    ensures m.fractionDigits == 2 ==> MoneyAmount(m) == m.centAmount as real / 100.0
    ensures MoneyAmount(m.(fractionDigits := m.fractionDigits + 1)) * 10.0 == MoneyAmount(m)
  {
    var d := Pow10(m.fractionDigits) as real;
    assert Pow10(m.fractionDigits + 1) as real == 10.0 * d;
    assert m.fractionDigits == 2 ==> d == 100.0;
  }

  /** As written, one more fraction digit does not move the point one place: for
      a non-zero amount with at least one digit the written amount shrinks by
      the factor `(fd + 1) / fd`, never by ten. */
  lemma {:induction false} AsWrittenMisplacesPoint(m: Money)
    requires m.centAmount != 0 && m.fractionDigits >= 1
    ensures MoneyAmountAsWritten(m).Some?
    ensures MoneyAmountAsWritten(m.(fractionDigits := m.fractionDigits + 1)).Some?
    ensures MoneyAmountAsWritten(m.(fractionDigits := m.fractionDigits + 1)).value * (m.fractionDigits + 1) as real
         == MoneyAmountAsWritten(m).value * m.fractionDigits as real
    ensures MoneyAmountAsWritten(m.(fractionDigits := m.fractionDigits + 1)).value * 10.0 != MoneyAmountAsWritten(m).value
  {
    var fd := m.fractionDigits;
    var c := m.centAmount as real;
    var a, b := c / (10 * fd) as real, c / (10 * (fd + 1)) as real;
    assert b * (10 * (fd + 1)) as real == c;
    assert a * (10 * fd) as real == c;
    assert b * (fd + 1) as real == a * fd as real;
    assert b != 0.0;
    WrittenRatioIsNotTen(a, b, fd as real);
  }

  lemma WrittenRatioIsNotTen(a: real, b: real, f: real)
    requires f >= 1.0 && b != 0.0 && b * (f + 1.0) == a * f
    ensures b * 10.0 != a
  {
    assert b * (f + 1.0) - b * 10.0 * f == b * (1.0 - 9.0 * f);
    assert 1.0 - 9.0 * f != 0.0;
  }

  lemma {:induction false} Pow10ExceedsTenTimes(n: nat)
    requires n >= 2
    ensures Pow10(n) > 10 * n
  {
    if n > 2 {
      Pow10ExceedsTenTimes(n - 1);
    }
  }

  /** The written divisor agrees with `10^fractionDigits` only for one fraction
      digit, so every non-zero amount in a two-digit currency is shown wrongly. */
  lemma {:induction false} AsWrittenAgreesOnlyForOneDigit(m: Money)
    requires m.centAmount != 0
    ensures MoneyAmountAsWritten(m) == Some(MoneyAmount(m)) <==> m.fractionDigits == 1
  {
    var fd := m.fractionDigits;
    if fd >= 2 {
      Pow10ExceedsTenTimes(fd);
      var x, y := (10 * fd) as real, Pow10(fd) as real;
      assert x < y;
    }
  }

  /** 999 cents in dollars (two fraction digits) are 9.99, but `formatMoney`
      passes 49.95 to the formatter. */
  lemma FormatMoneyShowsFiveTimesTooMuch()
    ensures MoneyAmount(Money("USD", 999, 2)) == 9.99
    ensures MoneyAmountAsWritten(Money("USD", 999, 2)) == Some(49.95)
  {
    assert Pow10(2) == 100;
  }

  // ---------------------------------------------------------------------------
  // aside: price box and availability

  /** A discount as the platform returns it. */
  datatype DiscountValue = Relative(permyriad: int) | Absolute(money: seq<Money>) | External
  datatype ProductDiscount = ProductDiscount(name: string, description: Option<string>, value: DiscountValue)

  /** The discount badge: a relative discount as `permyriad / 100` followed by `%`;
      any other discount as `$` followed by the discount value object's default
      string. */
  datatype Badge = PercentOff(percent: real) | DollarOff(shown: string)

  function BadgeOf(v: DiscountValue): Badge
  {
    if v.Relative? then PercentOff(v.permyriad as real / 100.0) else DollarOff("[object Object]")
  }

  /** The entries of the price box. A price entry holds the money record that
      `formatMoney` renders; the amount it formats is `MoneyAmountAsWritten`. */
  datatype PriceEntry =
    | CurrentPrice(money: Money, discountedStyle: bool)
    | PreviousPrice(money: Money, badge: Badge)
    | DiscountInfo(title: string, text: Option<string>)

  /** `injectProductPrice` for the first price, given the discount fetched for a
      discounted price (`None` when that request fails, leaving the box empty). */
  function PriceBox(price: Price, discount: Option<ProductDiscount>): (entries: seq<PriceEntry>)
    ensures price.discounted.None? ==> entries == [CurrentPrice(price.value, false)]
    ensures price.discounted.Some? ==> (entries == [] <==> discount.None?)
    ensures price.discounted.Some? && discount.Some? ==> |entries| == 3
    ensures forall i :: 0 <= i < |entries| && entries[i].CurrentPrice? ==>
      (entries[i].discountedStyle <==> price.discounted.Some?)
  {
    match price.discounted
    case None => [CurrentPrice(price.value, false)]
    case Some(d) =>
      match discount
      case None => []
      case Some(body) =>
        [CurrentPrice(d.value, true),
         PreviousPrice(price.value, BadgeOf(body.value)),
         DiscountInfo(body.name, body.description)]
  }

  /** A discounted price shows the discounted money as current, in the discounted
      style, the original money as previous with the badge, then the discount's
      name and description; an undiscounted price shows its money alone. A
      relative discount's badge is its permyriad divided by 100. The amounts the
      formatter receives are the written ones, for two fraction digits five
      times the intended amount. */
  lemma PriceBoxBranches(price: Price, body: ProductDiscount)
    ensures price.discounted.None? ==>
      PriceBox(price, Some(body)) == [CurrentPrice(price.value, false)]
    ensures price.discounted.Some? ==>
      var box := PriceBox(price, Some(body));
      && |box| == 3
      && box[0] == CurrentPrice(price.discounted.value.value, true)
      && box[1].PreviousPrice? && box[1].money == price.value
      && box[2] == DiscountInfo(body.name, body.description)
      && (body.value.Relative? ==> box[1].badge.PercentOff? && box[1].badge.percent * 100.0 == body.value.permyriad as real)
      && (!body.value.Relative? ==> box[1].badge == DollarOff("[object Object]"))
    ensures price.discounted.None? && price.value.fractionDigits == 2 ==>
      && MoneyAmountAsWritten(PriceBox(price, Some(body))[0].money) == Some(MoneyAmount(price.value) * 5.0)
      && MoneyAmountAsWritten(PriceBox(price, None)[0].money) == Some(MoneyAmount(price.value) * 5.0)
  {
    if price.discounted.None? && price.value.fractionDigits == 2 {
      var c := price.value.centAmount as real;
      assert Pow10(2) == 100;
      assert MoneyAmount(price.value) == c / 100.0;
      var m := price.value;
      assert MoneyAmountAsWritten(m) == Some(c / (10 * m.fractionDigits) as real);
      assert (10 * m.fractionDigits) as real == 20.0;
      assert c / 20.0 == (c / 100.0) * 5.0;
      assert PriceBox(price, Some(body))[0].money == m;
      assert PriceBox(price, None)[0].money == m;
    }
  }

  /** `availability !== undefined && availability.availableQuantity`: the quantity
      shown, if any. */
  function AvailabilityShown(availability: Option<Availability>): (shown: Option<int>)
    ensures shown.Some? <==>
      availability.Some? && availability.value.availableQuantity.Some? &&
      availability.value.availableQuantity.value != 0
    ensures shown.Some? ==> shown.value == availability.value.availableQuantity.value
  {
    match availability
    case None => None
    case Some(a) =>
      match a.availableQuantity
      case None => None
      case Some(q) => if q != 0 then Some(q) else None
  }

  /** The aside: the price box when prices exist, and the availability line. */
  datatype Aside = Aside(priceBox: Option<seq<PriceEntry>>, availability: Option<int>)

  /** `fillProductAside`; an empty price list throws when its first price is read. */
  function FillProductAside(p: Product, discount: Option<ProductDiscount>): (aside: Result<Aside>)
    ensures aside.Thrown? <==> p.masterVariant.prices == Some([])
    ensures aside.Ok? ==> aside.value.availability == AvailabilityShown(p.masterVariant.availability)
    ensures aside.Ok? ==> (aside.value.priceBox.Some? <==> p.masterVariant.prices.Some?)
    ensures aside.Ok? && p.masterVariant.prices.Some? ==>
      aside.value.priceBox == Some(PriceBox(p.masterVariant.prices.value[0], discount))
  {
    match p.masterVariant.prices
    case None => Ok(Aside(None, AvailabilityShown(p.masterVariant.availability)))
    case Some(ps) =>
      if ps == [] then Thrown(TypeError)
      else Ok(Aside(Some(PriceBox(ps[0], discount)), AvailabilityShown(p.masterVariant.availability)))
  }

  // ---------------------------------------------------------------------------
  // additional side

  /** The additional side: the description and the track list, one item per line. */
  datatype Additional = Additional(description: Option<string>, trackList: Option<seq<string>>)

  const TrackListName: string := "track-list"

  /** `fillAdditionalSide`: the track list appears only when attribute 3 is named
      `track-list`; fewer than four attributes, or a track list that is not a
      string, throw. */
  function FillAdditionalSide(p: Product): (side: Result<Additional>)
    ensures side.Ok? ==> side.value.description == p.description
    ensures side.Thrown? <==>
      var attrs := p.masterVariant.attributes;
      attrs.Some? && (|attrs.value| < 4 || (attrs.value[3].name == TrackListName && attrs.value[3].value.Enum?))
  {
    match p.masterVariant.attributes
    case None => Ok(Additional(p.description, None))
    case Some(attrs) =>
      if |attrs| < 4 then Thrown(TypeError)
      else if attrs[3].name != TrackListName then Ok(Additional(p.description, None))
      else match attrs[3].value
        case Plain(text) => Ok(Additional(p.description, Some(Split(text, '\n'))))
        case Enum(_, _) => Thrown(TypeError)
  }

  /** With at least four attributes and a plain attribute 3, the track list
      appears exactly when attribute 3 is named `track-list`, and then lists the
      lines of its text; no attributes means no track list. */
  lemma AdditionalSideSelection(p: Product)
    ensures p.masterVariant.attributes.None? ==> FillAdditionalSide(p) == Ok(Additional(p.description, None))
    ensures p.masterVariant.attributes.Some? && |p.masterVariant.attributes.value| >= 4 &&
            p.masterVariant.attributes.value[3].value.Plain? ==>
      var a3 := p.masterVariant.attributes.value[3];
      && FillAdditionalSide(p).Ok?
      && (FillAdditionalSide(p).value.trackList.Some? <==> a3.name == TrackListName)
      && (a3.name == TrackListName ==> FillAdditionalSide(p).value.trackList == Some(Split(a3.value.text, '\n')))
  {
  }

  /** The track list has one item per line, in order: as many items as newlines
      plus one, no item holds a newline, and joining the items with newlines gives
      the attribute's text back. */
  lemma TrackListLines(text: string)
    ensures |Split(text, '\n')| == Count(text, '\n') + 1
    ensures forall i :: 0 <= i < |Split(text, '\n')| ==> '\n' !in Split(text, '\n')[i]
    ensures Join(Split(text, '\n'), "\n") == text
  {
    SplitCount(text, '\n');
    SplitPiecesAvoidSeparator(text, '\n');
    JoinSplit(text, '\n');
  }

  /** `injectTrackList`: the `forEach` that appends one item per line. */
  method InjectTrackList(text: string) returns (items: seq<string>)
    ensures items == Split(text, '\n')
    ensures |items| == Count(text, '\n') + 1
  {
    var trackArr := Split(text, '\n');
    items := [];
    var i := 0;
    while i < |trackArr|
      invariant 0 <= i <= |trackArr|
      invariant items == trackArr[..i]
    {
      items := items + [trackArr[i]];
      i := i + 1;
    }
    TrackListLines(text);
  }

  // ---------------------------------------------------------------------------
  // the whole display

  /** The product display: the photo side when images exist, then the info side,
      the aside and the additional side; `None` marks a side never appended. */
  datatype Display = Display(
    photos: Option<seq<Image>>,
    info: Option<InfoSide>,
    aside: Option<Aside>,
    additional: Option<Additional>)

  /** The `then` callback of the product request: the four sides are filled in
      order, and a side that throws ends the callback there. */
  function ProductDisplay(p: Product, discount: Option<ProductDiscount>): (d: Display)
    ensures d.photos == p.masterVariant.images
    ensures d.aside.Some? ==> d.info.Some?
    ensures d.additional.Some? ==> d.aside.Some?
    ensures d.info.Some? ==> Ok(d.info.value) == FillProductInfoSide(p)
    ensures d.aside.Some? ==> Ok(d.aside.value) == FillProductAside(p, discount)
    ensures d.additional.Some? ==> Ok(d.additional.value) == FillAdditionalSide(p)
  {
    var photos := p.masterVariant.images;
    match FillProductInfoSide(p)
    case Thrown(_) => Display(photos, None, None, None)
    case Ok(info) =>
      match FillProductAside(p, discount)
      case Thrown(_) => Display(photos, Some(info), None, None)
      case Ok(aside) =>
        match FillAdditionalSide(p)
        case Thrown(_) => Display(photos, Some(info), Some(aside), None)
        case Ok(additional) => Display(photos, Some(info), Some(aside), Some(additional))
  }

  /** A product whose attributes are absent or at least four, whose price list is
      absent or non-empty, and whose track-list attribute (if any) is a string. */
  predicate WellFormedProduct(p: Product)
  {
    && (p.masterVariant.attributes.Some? ==>
          var attrs := p.masterVariant.attributes.value;
          |attrs| >= 4 && (attrs[3].name == TrackListName ==> attrs[3].value.Plain?))
    && p.masterVariant.prices != Some([])
  }

  /** Sides appear in order — a later side only after every earlier one — and all
      four appear exactly for well-formed products. The info side is missing
      exactly when attributes exist but are fewer than four. */
  lemma {:induction false} SidesInOrder(p: Product, discount: Option<ProductDiscount>)
    ensures var d := ProductDisplay(p, discount);
      && (d.additional.Some? ==> d.aside.Some?)
      && (d.aside.Some? ==> d.info.Some?)
      && (d.photos == p.masterVariant.images)
      && (d.info.None? <==> p.masterVariant.attributes.Some? && |p.masterVariant.attributes.value| < 4)
      && (d.additional.Some? <==> WellFormedProduct(p))
  {
    InfoSideSelection(p);
    var d := ProductDisplay(p, discount);
    if WellFormedProduct(p) {
      assert FillProductInfoSide(p).Ok?;
      assert FillProductAside(p, discount).Ok?;
      assert FillAdditionalSide(p).Ok?;
    } else if p.masterVariant.prices == Some([]) {
      assert FillProductAside(p, discount).Thrown?;
    } else {
      assert FillProductInfoSide(p).Thrown? || FillAdditionalSide(p).Thrown?;
    }
  }
}
