/** The welcome modal that asks "delivery or pickup?", and the back button of
    the delivery page that brings it back. Navigation is left out. */
module EntryModal {
  import opened Types
  import Store

  /** The modal is drawn only while no branch is selected and the flag is set. */
  predicate Visible(s: Store.State)
  {
    s.selectedBranch.None? && s.showEntryModal
  }

  function HandleDelivery(s: Store.State): (r: Store.State)
    ensures r.orderType == Some(Delivery) && !r.showEntryModal
    ensures r.selectedBranch == s.selectedBranch && r.cart == s.cart && r.orders == s.orders
    ensures r.isCartOpen == s.isCartOpen
  {
    Store.SetShowEntryModal(Store.SetOrderType(s, Some(Delivery)), false)
  }

  function HandlePickup(s: Store.State): (r: Store.State)
    ensures r.orderType == Some(Pickup) && !r.showEntryModal
    ensures r.selectedBranch == s.selectedBranch && r.cart == s.cart && r.orders == s.orders
    ensures r.isCartOpen == s.isCartOpen
  {
    Store.SetShowEntryModal(Store.SetOrderType(s, Some(Pickup)), false)
  }

  /** The close button only hides the modal; no order type is chosen. */
  function Close(s: Store.State): (r: Store.State)
    ensures !r.showEntryModal
    ensures r.orderType == s.orderType && r.selectedBranch == s.selectedBranch
    ensures r.cart == s.cart && r.orders == s.orders && r.isCartOpen == s.isCartOpen
  {
    Store.SetShowEntryModal(s, false)
  }

  /** The delivery page's back button: forget the order type and ask again. */
  function HandleBack(s: Store.State): (r: Store.State)
    ensures r.orderType.None? && r.showEntryModal
    ensures r.selectedBranch == s.selectedBranch && r.cart == s.cart && r.orders == s.orders
    ensures r.isCartOpen == s.isCartOpen
  {
    Store.SetShowEntryModal(Store.SetOrderType(s, None), true)
  }

  /** Every choice in the modal dismisses it. */
  lemma ChoicesDismiss(s: Store.State)
    ensures !Visible(HandleDelivery(s)) && !Visible(HandlePickup(s)) && !Visible(Close(s))
  {
  }

  /** Going back from the delivery page undoes the modal's delivery choice:
      from the modal as it first appears (nothing chosen), the state returns
      exactly to where it was and the modal is visible again. */
  lemma BackUndoesDelivery(s: Store.State)
    requires Visible(s) && s.orderType.None?
    ensures HandleBack(HandleDelivery(s)) == s
    ensures Visible(HandleBack(HandleDelivery(s)))
  {
  }

  /** The modal is never drawn once a branch is selected, whatever the flag says. */
  lemma HiddenOnceBranchSelected(s: Store.State, b: Branch)
    ensures !Visible(Store.SetSelectedBranch(s, Some(b)))
    ensures Visible(Store.SetSelectedBranch(s, None)) <==> s.showEntryModal
  {
  }
}
