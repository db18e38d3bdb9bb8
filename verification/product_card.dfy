/** A product tile in the shop grid: its stock flags and badges, and the
    one-click "quick add" that puts one unit in the cart. */
module ProductCard {
  import opened Types
  import Seqs
  import Store

  /** Without a price entry for the branch the product counts as available. */
  predicate IsAvailable(bp: Option<BranchProduct>)
  {
    bp.None? || bp.value.availability != OutOfStock
  }

  predicate IsLowStock(bp: Option<BranchProduct>)
  {
    bp.Some? && bp.value.availability == LowStock
  }

  /** The badges drawn over the product image. */
  datatype Badges = Badges(featured: bool, outOfStock: bool, lowStock: bool)

  function BadgesFor(bp: Option<BranchProduct>): (b: Badges)
    ensures b.featured <==> bp.Some? && bp.value.featured
    ensures b.outOfStock <==> bp.Some? && bp.value.availability == OutOfStock
    ensures b.lowStock <==> bp.Some? && bp.value.availability == LowStock
    ensures !(b.outOfStock && b.lowStock)
  {
    Badges(bp.Some? && bp.value.featured, !IsAvailable(bp), IsLowStock(bp) && IsAvailable(bp))
  }

  /** The grind preselected for a product: its first option, else whole bean. */
  function DefaultGrind(p: Product): (g: Grind)
    ensures p.grindOptions != [] ==> g == p.grindOptions[0]
    ensures p.grindOptions == [] ==> g == WholeBean
  {
    if |p.grindOptions| > 0 then p.grindOptions[0] else WholeBean
  }

  /** Quick add does anything only with a branch selected and a price entry
      that is not out of stock. */
  predicate CanQuickAdd(s: Store.State, bp: Option<BranchProduct>)
  {
    s.selectedBranch.Some? && bp.Some? && IsAvailable(bp)
  }

  /** The merge key of the row quick add fills: one-time, default grind, selected branch. */
  function QuickAddKey(s: Store.State, product: Product): Store.MergeKey
    requires s.selectedBranch.Some?
  {
    Store.MergeKey(product.id, s.selectedBranch.value.id, DefaultGrind(product), None)
  }

  /** One unit, no subscription, at the branch's current price; the cart panel
      then opens. */
  function QuickAdd(s: Store.State, product: Product, bp: Option<BranchProduct>, now: nat): (r: Store.State)
    ensures !CanQuickAdd(s, bp) ==> r == s
    ensures CanQuickAdd(s, bp) ==>
      && r.isCartOpen && r.orders == s.orders
      && r.orderType == s.orderType && r.selectedBranch == s.selectedBranch
      && r.showEntryModal == s.showEntryModal
      && Store.ItemCount(r.cart) == Store.ItemCount(s.cart) + 1
      && Seqs.SumInt(r.cart, Store.QuantityUnder(QuickAddKey(s, product)))
         == Seqs.SumInt(s.cart, Store.QuantityUnder(QuickAddKey(s, product))) + 1
    ensures CanQuickAdd(s, bp) && |r.cart| > |s.cart| ==>
      && r.cart[..|s.cart|] == s.cart && |r.cart| == |s.cart| + 1
      && var row := r.cart[|s.cart|];
      && Store.KeyOf(row) == QuickAddKey(s, product)
      && row.quantity == 1 && row.unitPrice == bp.value.price
      && Store.CartTotal(r.cart) == Store.CartTotal(s.cart) + bp.value.price
  {
    if !CanQuickAdd(s, bp) then s
    else
      var item := NewCartItem(product.id, s.selectedBranch.value.id, DefaultGrind(product), None,
                              1, bp.value.price);
      Store.AddToCartTotals(s, item, now);
      Store.AddToCartQuantityUnderKey(s, item, now);
      Store.SetIsCartOpen(Store.AddToCart(s, item, now), true)
  }
}
