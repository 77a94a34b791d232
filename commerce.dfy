/** The commerce platform's product projection, as far as the catalog and the
    product page read it, and the outcome of rendering code that can throw. */
module Commerce {

  /** A rendering step either finishes or throws (a `TypeError` from reading a
      property of `undefined`, or calling a string method on an object). */
  datatype Result<T> = Ok(value: T) | Thrown(error: string)

  const TypeError := "TypeError"

  /** An attribute value is either a plain string or an enumerated value with a label. */
  datatype AttributeValue = Plain(text: string) | Enum(key: string, labelText: string)

  datatype Attribute = Attribute(name: string, value: AttributeValue)

  /** An amount in minor units (`centAmount`) with its currency and number of fraction digits. */
  datatype Money = Money(currencyCode: string, centAmount: int, fractionDigits: nat)

  datatype DiscountedPrice = DiscountedPrice(value: Money, discountId: string)

  datatype Price = Price(value: Money, discounted: Option<DiscountedPrice>)

  datatype Image = Image(url: string, labelText: Option<string>)

  /** `availableQuantity` is optional in the platform's availability record. */
  datatype Availability = Availability(availableQuantity: Option<int>)

  /** The master variant: every list is optional, as in the platform's records. */
  datatype Variant = Variant(
    attributes: Option<seq<Attribute>>,
    images: Option<seq<Image>>,
    prices: Option<seq<Price>>,
    availability: Option<Availability>)

  /** A product projection; `name` and `description` are the `en-US` texts. */
  datatype Product = Product(
    id: string,
    name: string,
    description: Option<string>,
    masterVariant: Variant)

  /** A genre (category) from the prefetched catalog data. */
  datatype Genre = Genre(id: string, key: string, name: string)

  datatype Option<T> = None | Some(value: T)

  /** What assigning an attribute value to `textContent` shows: an object
      renders as its default string. */
  function TextContent(v: AttributeValue): string
  {
    match v
    case Plain(t) => t
    case Enum(_, _) => "[object Object]"
  }
}
