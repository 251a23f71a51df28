/** Values shared by every product feature: identifiers, instants, 32-bit integers,
    the product entity and the length limits of its text fields. */
module Domain {

  datatype Option<+T> = None | Some(value: T) {
    /** The wrapped value, or `default` for None (C#'s `x ?? default`). */
    function GetOr(default: T): T {
      if Some? then value else default
    }
  }

  /** 2^128. A Guid is modelled by the 128-bit number that its 32 hexadecimal
      digits spell, read in the order its canonical text shows them. */
  const GuidBound: nat := 0x1_0000_0000_0000_0000_0000_0000_0000_0000

  type Guid = g: nat | g < GuidBound

  /** Guid.Empty, the all-zero identifier that the NotEmpty rules reject. */
  const EmptyGuid: Guid := 0

  /** A DateTimeOffset in UTC as a tick count; 0 stands for default(DateTimeOffset). */
  type Instant = int

  /** C#'s `int`. Quantities and page parameters are only compared and copied,
      never computed with, so no wrap-around arises. */
  type Int32 = x: int | -0x8000_0000 <= x < 0x8000_0000

  datatype LogLevel = Information | Warning | Error

  /** The product entity. Price is C# `decimal`, which is exact; it is modelled as an
      integer number of the smallest currency unit. */
  datatype Product = Product(
    id: Guid,
    title: string,
    imageUrl: Option<string>,
    price: int,
    description: Option<string>,
    quantity: Int32,
    createdOnUtc: Instant,
    modifiedOnUtc: Option<Instant>)

  /** `after` is `before` with at most its quantity changed. */
  predicate SameExceptQuantity(before: Product, after: Product) {
    before.(quantity := after.quantity) == after
  }

  /** Constraints.Products: the maximum lengths of the product's text fields. */
  const TitleLength: nat := 200
  const ImageUrlLength: nat := 500
  const DescriptionLength: nat := 2000
}
