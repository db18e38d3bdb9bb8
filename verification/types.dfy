/** The records of the storefront: catalogue entries (branches, products and
    per-branch prices), cart rows and placed orders. Money is an exact `real`,
    quantities are `int`, identifiers and timestamps are strings. */
module Types {

  /** A value that may be absent (`null` / `undefined` in the storefront). */
  datatype Option<+T> = None | Some(value: T)

  /** How the customer receives the order; "no choice yet" is `None`. */
  datatype OrderType = Delivery | Pickup

  datatype Grind = WholeBean | EspressoGrind | FrenchPress | V60 | Aeropress | MokaPot | Chemex

  /** The identifier a grind carries in the catalogue and in cart ids. */
  function GrindName(g: Grind): string
  {
    match g
    case WholeBean => "whole_bean"
    case EspressoGrind => "espresso"
    case FrenchPress => "french_press"
    case V60 => "v60"
    case Aeropress => "aeropress"
    case MokaPot => "moka_pot"
    case Chemex => "chemex"
  }

  datatype Frequency = Weekly | Biweekly | Monthly

  function FrequencyName(f: Frequency): string
  {
    match f
    case Weekly => "weekly"
    case Biweekly => "biweekly"
    case Monthly => "monthly"
  }

  /** A recurring purchase: how often, and the percentage taken off. */
  datatype SubscriptionPlan = SubscriptionPlan(frequency: Frequency, discount: real)

  /** One cart row. `unitPrice` is the branch price captured when the row was added. */
  datatype CartItem = CartItem(
    id: string,
    productId: string,
    branchId: string,
    grind: Grind,
    subscriptionPlan: Option<SubscriptionPlan>,
    quantity: int,
    unitPrice: real)

  /** What a caller hands to `addToCart`: a cart row without its id. */
  datatype NewCartItem = NewCartItem(
    productId: string,
    branchId: string,
    grind: Grind,
    subscriptionPlan: Option<SubscriptionPlan>,
    quantity: int,
    unitPrice: real)

  datatype OrderStatus = Placed | Preparing | Ready | Completed | Cancelled

  /** A placed order: a snapshot of the cart plus customer details. */
  datatype Order = Order(
    id: string,
    orderNumber: string,
    branchId: string,
    items: seq<CartItem>,
    customerName: string,
    customerPhone: string,
    pickupTime: Option<string>,
    subtotal: real,
    total: real,
    status: OrderStatus,
    createdAt: string)

  datatype Hours = Hours(open: string, close: string, days: string)

  /** A retail location. Offers and delivery-partner links are display data and are not kept. */
  datatype Branch = Branch(
    id: string,
    name: string,
    area: string,
    address: string,
    hours: Hours,
    isOpen: bool,
    image: string,
    phone: string)

  datatype Category = EspressoBeans | Filter | Pods | Matcha | Gifts | Equipment | Merchandise

  /** The identifier a category carries in the catalogue and in the shop's address. */
  function CategoryName(c: Category): string
  {
    match c
    case EspressoBeans => "espresso"
    case Filter => "filter"
    case Pods => "pods"
    case Matcha => "matcha"
    case Gifts => "gifts"
    case Equipment => "equipment"
    case Merchandise => "merchandise"
  }

  datatype RoastLevel = Light | Medium | MediumDark | Dark

  datatype Product = Product(
    id: string,
    name: string,
    description: string,
    category: Category,
    images: seq<string>,
    tastingNotes: seq<string>,
    origin: string,
    roastLevel: RoastLevel,
    tags: seq<string>,
    grindOptions: seq<Grind>,
    weight: string,
    isSubscribable: bool)

  datatype Availability = InStock | LowStock | OutOfStock

  /** Price and stock of one product at one branch; an absent `featured` flag is `false`. */
  datatype BranchProduct = BranchProduct(
    branchId: string,
    productId: string,
    price: real,
    availability: Availability,
    featured: bool)
}
