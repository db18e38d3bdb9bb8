/** The site header: the cart badge, the "change branch" reset, which
    navigation link is highlighted, and when the text is drawn light over a
    dark hero image. */
module Header {
  import opened Types
  import Text
  import Seqs
  import Store
  import OrderTypeSwitcher

  /** The badge on the cart button: the cart's quantities added up left to right. */
  method BadgeCount(cart: seq<CartItem>) returns (count: int)
    ensures count == Store.ItemCount(cart)
  {
    count := 0;
    var i := 0;
    while i < |cart|
      invariant 0 <= i <= |cart|
      invariant count == Seqs.SumInt(cart[..i], Store.Quantity)
    {
      assert cart[..i + 1][..i] == cart[..i];
      count := count + cart[i].quantity;
      i := i + 1;
    }
    assert cart[..|cart|] == cart;
  }

  /** The header's "change branch" button forgets the branch and the order type
      and empties the cart. */
  function ChangeBranch(s: Store.State): (r: Store.State)
    ensures r.selectedBranch.None? && r.orderType.None? && r.cart == []
    ensures r.orders == s.orders && r.isCartOpen == s.isCartOpen && r.showEntryModal == s.showEntryModal
  {
    Store.ClearCart(Store.SetOrderType(Store.SetSelectedBranch(s, None), None))
  }

  /** It calls the store in a different order from the switcher's "Start over",
      but the two end in the same state. */
  lemma ChangeBranchIsStartOver(s: Store.State)
    ensures ChangeBranch(s) == OrderTypeSwitcher.Apply(s, OrderTypeSwitcher.StartOver)
  {
  }

  /** A navigation link is highlighted on its own page and, except for the
      home link, on every page whose path begins with the link's. */
  predicate IsActive(path: string, href: string)
  {
    path == href || (href != "/" && Text.StartsWith(path, href))
  }

  lemma HomeActiveOnlyAtHome(path: string)
    ensures IsActive(path, "/") <==> path == "/"
  {
  }

  lemma OtherLinksActiveOnPrefix(path: string, href: string)
    requires href != "/"
    ensures IsActive(path, href) <==> exists rest :: path == href + rest
  {
    if Text.StartsWith(path, href) {
      assert path == href + path[|href|..];
    }
    if exists rest :: path == href + rest {
      var rest :| path == href + rest;
      assert path[..|href|] == href;
    }
  }

  /** The pages whose hero image is dark. */
  const DarkHeroPages: seq<string> := ["/", "/about", "/subscriptions"]

  /** The page counts as scrolled once it has moved more than 20 pixels. */
  predicate Scrolled(scrollY: real)
  {
    scrollY > 20.0
  }

  function UseLightText(path: string, scrollY: real): (light: bool)
    ensures light <==> (path == "/" || path == "/about" || path == "/subscriptions") && scrollY <= 20.0
  {
    path in DarkHeroPages && !Scrolled(scrollY)
  }

  /** Once the page has scrolled the text is dark on every page, and pages
      without a dark hero never get light text. */
  lemma ScrolledMeansDarkText(path: string, scrollY: real)
    ensures Scrolled(scrollY) ==> !UseLightText(path, scrollY)
    ensures path !in DarkHeroPages ==> !UseLightText(path, scrollY)
    ensures UseLightText(path, scrollY) != UseLightText(path, scrollY + 1.0) ==> path in DarkHeroPages
  {
  }
}
