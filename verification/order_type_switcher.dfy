/** The order-type switcher in the page header: a menu that moves the store
    between delivery, pickup and "nothing chosen". Navigation and the menu's
    own open/closed flag are not part of the store and are left out. */
module OrderTypeSwitcher {
  import opened Types
  import Store

  /** The menu's buttons. */
  datatype Action = SelectDelivery | SelectPickup | ChangeBranch | StartOver

  /** The store calls each button makes, in order. */
  function Apply(s: Store.State, a: Action): (r: Store.State)
    ensures r.orders == s.orders && r.isCartOpen == s.isCartOpen && r.showEntryModal == s.showEntryModal
    ensures a == SelectDelivery ==> r.orderType == Some(Delivery) && r.selectedBranch.None? && r.cart == []
    ensures a == SelectPickup ==>
      r.orderType == Some(Pickup) && r.selectedBranch == s.selectedBranch && r.cart == s.cart
    ensures a == ChangeBranch ==> r == s
    ensures a == StartOver ==> r.orderType.None? && r.selectedBranch.None? && r.cart == []
  {
    match a
    case SelectDelivery => Store.ClearCart(Store.SetSelectedBranch(Store.SetOrderType(s, Some(Delivery)), None))
    case SelectPickup => Store.SetOrderType(s, Some(Pickup))
    case ChangeBranch => s
    case StartOver => Store.ClearCart(Store.SetSelectedBranch(Store.SetOrderType(s, None), None))
  }

  /** What the switcher shows: nothing before an order type is chosen; otherwise
      the current mode and whether "Change pickup location" is offered. */
  datatype Menu = Menu(isDelivery: bool, offersChangeBranch: bool)

  function View(s: Store.State): (m: Option<Menu>)
    ensures m.None? <==> s.orderType.None?
    ensures m.Some? ==> (m.value.isDelivery <==> s.orderType == Some(Delivery))
    ensures m.Some? ==> (m.value.offersChangeBranch <==> s.orderType == Some(Pickup) && s.selectedBranch.Some?)
  {
    match s.orderType
    case None => None
    case Some(t) => Some(Menu(t == Delivery, t == Pickup && s.selectedBranch.Some?))
  }

  /** Each button's effect does not depend on how often it is pressed. */
  lemma ActionsAreIdempotent(s: Store.State, a: Action)
    ensures Apply(Apply(s, a), a) == Apply(s, a)
  {
  }

  /** After "Delivery" the switcher shows delivery and never offers a pickup
      location change; after "Start over" it disappears altogether. */
  lemma ViewAfterActions(s: Store.State)
    ensures View(Apply(s, SelectDelivery)) == Some(Menu(true, false))
    ensures View(Apply(s, StartOver)).None?
    ensures View(Apply(s, SelectPickup)) == Some(Menu(false, s.selectedBranch.Some?))
  {
  }

  /** "Start over" returns the selection to the initial one, keeping the
      order history and the two interface flags. */
  lemma StartOverRestoresInitialSelection(s: Store.State)
    ensures Apply(s, StartOver)
         == Store.Initial.(orders := s.orders, isCartOpen := s.isCartOpen, showEntryModal := s.showEntryModal)
  {
  }
}
