/** The storefront as one state machine: every button of the modelled pages
    and components that reaches the store becomes an event, and `Step` applies
    it. Checkout takes two events, because the page waits for a simulated
    payment between its guards and the order: the press, and the end of the
    wait, between which any other button may be used. The invariants below
    hold in the initial state and after every event, so they hold in every
    state a visitor can reach. */
module Session {
  import opened Types
  import Seqs
  import Store
  import OrderTypeSwitcher
  import EntryModal
  import Header
  import Branches
  import ProductCard
  import QuickView
  import Checkout

  /** The buttons that act on the store at once. */
  datatype Button =
    | Switcher(action: OrderTypeSwitcher.Action)
    | ModalDelivery
    | ModalPickup
    | ModalClose
      /** The landing page's two buttons, drawn while the home page shows it. */
    | LandingDelivery
    | LandingPickup
    | DeliveryBack
    | HeaderChangeBranch
    | PickBranch(branch: Branch)
    | QuickAdd(product: Product, bp: Option<BranchProduct>, now: nat)
      /** The quick-view dialog's button after a series of stepper presses. */
    | QuickViewAdd(product: Product, bp: Option<BranchProduct>, grind: Grind, presses: seq<bool>, now: nat)
    | Remove(id: string)
    | UpdateQuantity(id: string, quantity: int)
    | SetCartOpen(open: bool)
      /** The cart page's "Clear Cart" button. */
    | ClearCart

  datatype Event =
    | Press(button: Button)
      /** The checkout form's submit button. */
    | SubmitOrder(form: Checkout.CheckoutForm)
      /** The end of the payment wait of the `k`-th pending checkout. */
    | PaymentDone(k: nat, now: nat, orderNumber: string, createdAt: string)

  /** The store, and the checkouts whose payment wait is still running, each
      with the form it was submitted with. */
  datatype State = State(store: Store.State, payments: seq<Checkout.CheckoutForm>)

  const Initial: State := State(Store.Initial, [])

  /** The home page draws the landing hero unless delivery is chosen or a
      pickup branch is selected. */
  predicate LandingShown(s: Store.State)
  {
    s.orderType != Some(Delivery) && !(s.orderType == Some(Pickup) && s.selectedBranch.Some?)
  }

  /** Buttons act only while they are drawn: the modal's while the modal is, the landing hero's while the
      home page shows it, and the delivery options' back button only after
      delivery was chosen. None of them touches the order history. */
  function Apply(s: Store.State, b: Button): (r: Store.State)
    ensures r.orders == s.orders
  {
    match b
    case Switcher(a) => OrderTypeSwitcher.Apply(s, a)
    case ModalDelivery => if EntryModal.Visible(s) then EntryModal.HandleDelivery(s) else s
    case ModalPickup => if EntryModal.Visible(s) then EntryModal.HandlePickup(s) else s
    case ModalClose => if EntryModal.Visible(s) then EntryModal.Close(s) else s
    case LandingDelivery => if LandingShown(s) then Store.SetOrderType(s, Some(Delivery)) else s
    case LandingPickup => if LandingShown(s) then Store.SetOrderType(s, Some(Pickup)) else s
    case DeliveryBack => if s.orderType == Some(Delivery) then EntryModal.HandleBack(s) else s
    case HeaderChangeBranch => Header.ChangeBranch(s)
    case PickBranch(b) => Branches.SelectBranch(s, b)
    case QuickAdd(p, bp, now) => ProductCard.QuickAdd(s, p, bp, now)
    case QuickViewAdd(p, bp, g, presses, now) =>
      QuickView.StepsKeepPositive(1, presses);
      QuickView.AddToCart(s, p, bp, QuickView.View(0, g, QuickView.Steps(1, presses)), now)
    case Remove(id) => Store.RemoveFromCart(s, id)
    case UpdateQuantity(id, q) => Store.UpdateCartItemQuantity(s, id, q)
    case SetCartOpen(open) => Store.SetIsCartOpen(s, open)
    case ClearCart => Store.ClearCart(s)
  }

  /** The end of a payment wait creates the order from the store as it is
      then, with no guard: the cart may have changed, or emptied, meanwhile. */
  function Pay(w: State, k: nat, now: nat, orderNumber: string, createdAt: string): (r: State)
    requires k < |w.payments|
    ensures |r.payments| == |w.payments| - 1
    ensures r.payments == w.payments[..k] + w.payments[k + 1..]
    ensures r.store.orders == w.store.orders + [Store.CreateOrder(w.store, w.payments[k].customerName,
              w.payments[k].customerPhone, Some(w.payments[k].pickupTime), now, orderNumber, createdAt).1]
    ensures r.store.cart == [] && r.store.selectedBranch == w.store.selectedBranch
  {
    var f := w.payments[k];
    var (s', _) := Store.CreateOrder(w.store, f.customerName, f.customerPhone, Some(f.pickupTime),
                                     now, orderNumber, createdAt);
    State(s', w.payments[..k] + w.payments[k + 1..])
  }

  /** The submit button starts a payment only from the order form with a valid
      form; the store is untouched until the payment ends. The order history
      only ever grows, and only by one order when a payment ends. */
  function Step(w: State, e: Event): (r: State)
    ensures |w.store.orders| <= |r.store.orders| <= |w.store.orders| + 1
    ensures r.store.orders[..|w.store.orders|] == w.store.orders
    ensures |r.store.orders| > |w.store.orders| ==>
      e.PaymentDone? && r.store.cart == [] && |r.payments| == |w.payments| - 1
    ensures e.SubmitOrder? ==> r.store == w.store
  {
    match e
    case SubmitOrder(form) =>
      if Checkout.ScreenFor(w.store) == Checkout.OrderForm && Checkout.Validate(form) == []
      then w.(payments := w.payments + [form]) else w
    case PaymentDone(k, now, orderNumber, createdAt) =>
      if k < |w.payments| then Pay(w, k, now, orderNumber, createdAt) else w
    case Press(b) => w.(store := Apply(w.store, b))
  }

  /** Applies the events in order. */
  function Run(w: State, events: seq<Event>): State
    decreases |events|
  {
    if events == [] then w else Run(Step(w, events[0]), events[1..])
  }

  // ---------------------------------------------------------------- invariants

  /** Every cart row belongs to the selected branch; without one the cart is empty. */
  ghost predicate BranchScoped(cart: seq<CartItem>, branch: Option<Branch>)
  {
    forall i :: 0 <= i < |cart| ==> branch.Some? && cart[i].branchId == branch.value.id
  }

  /** A branch is selected only for pickup. */
  ghost predicate BranchMeansPickup(s: Store.State)
  {
    s.selectedBranch.Some? ==> s.orderType == Some(Pickup)
  }

  /** A placed order holds a well-formed cart from its own branch, priced at
      the cart's total, and the customer's name and phone passed the form's
      rules. The cart may be empty: it is read when the payment ends. */
  ghost predicate WellFormedOrder(o: Order)
  {
    && Store.CartInvariant(o.items)
    && (forall i :: 0 <= i < |o.items| ==> o.items[i].branchId == o.branchId)
    && o.subtotal == Store.CartTotal(o.items) && o.total == o.subtotal
    && o.status == Placed
    && o.pickupTime.Some?
    && Checkout.Validate(Checkout.CheckoutForm(o.customerName, o.customerPhone, o.pickupTime.value)) == []
  }

  ghost predicate Valid(s: Store.State)
  {
    && Store.CartInvariant(s.cart)
    && BranchScoped(s.cart, s.selectedBranch)
    && BranchMeansPickup(s)
    && forall i :: 0 <= i < |s.orders| ==> WellFormedOrder(s.orders[i])
  }

  /** The store is valid and every pending payment carries a form that passed
      the rules. */
  ghost predicate Invariant(w: State)
  {
    Valid(w.store) && forall i :: 0 <= i < |w.payments| ==> Checkout.Validate(w.payments[i]) == []
  }

  /** Under the invariants the landing hero is drawn exactly while neither
      delivery nor a branch is chosen, so its buttons never meet a branch. */
  lemma LandingShownWithoutBranch(s: Store.State)
    requires Valid(s)
    ensures LandingShown(s) <==> s.orderType != Some(Delivery) && s.selectedBranch.None?
  {
  }

  lemma InitialIsValid()
    ensures Invariant(Initial)
  {
  }

  /** Adding an item priced for the selected branch keeps the cart scoped to it. */
  lemma {:induction false} AddKeepsBranchScoped(s: Store.State, item: NewCartItem, now: nat)
    requires item.quantity >= 1 && BranchScoped(s.cart, s.selectedBranch)
    requires s.selectedBranch.Some? && item.branchId == s.selectedBranch.value.id
    ensures BranchScoped(Store.AddToCart(s, item, now).cart, s.selectedBranch)
  {
    var r := Store.AddToCart(s, item, now);
    if Store.MergeIndex(s.cart, item).None? {
      forall i | 0 <= i < |r.cart|
        ensures r.cart[i].branchId == s.selectedBranch.value.id
      {
        if i < |s.cart| {
          assert r.cart[i] == r.cart[..|s.cart|][i];
        } else {
          assert Store.KeyOf(r.cart[i]).branchId == Store.KeyOfNew(item).branchId;
        }
      }
    }
  }

  /** A change confined to the cart keeps the invariants when the new cart is
      well formed and scoped to the selected branch. */
  lemma CartEditKeepsValid(s: Store.State, r: Store.State)
    requires Valid(s) && r.orders == s.orders && r.orderType == s.orderType && r.selectedBranch == s.selectedBranch
    requires Store.CartInvariant(r.cart) && BranchScoped(r.cart, r.selectedBranch)
    ensures Valid(r)
  {
    assert forall i :: 0 <= i < |r.orders| ==> r.orders[i] == s.orders[i];
  }

  /** Quick add on a product tile keeps the invariants. */
  lemma QuickAddKeepsValid(s: Store.State, product: Product, bp: Option<BranchProduct>, now: nat)
    requires Valid(s)
    ensures Valid(ProductCard.QuickAdd(s, product, bp, now))
  {
    if ProductCard.CanQuickAdd(s, bp) {
      var item := NewCartItem(product.id, s.selectedBranch.value.id, ProductCard.DefaultGrind(product), None,
                              1, bp.value.price);
      Store.AddToCartKeepsInvariant(s, item, now);
      AddKeepsBranchScoped(s, item, now);
      var r := ProductCard.QuickAdd(s, product, bp, now);
      assert r.cart == Store.AddToCart(s, item, now).cart;
      CartEditKeepsValid(s, r);
    }
  }

  /** The quick-view dialog's add button keeps the invariants. */
  lemma QuickViewAddKeepsValid(s: Store.State, product: Product, bp: Option<BranchProduct>, v: QuickView.View,
                               now: nat)
    requires Valid(s) && v.quantity >= 1
    ensures Valid(QuickView.AddToCart(s, product, bp, v, now))
  {
    if ProductCard.CanQuickAdd(s, bp) {
      var item := NewCartItem(product.id, s.selectedBranch.value.id, v.grind, None, v.quantity,
                              QuickView.Price(bp));
      Store.AddToCartKeepsInvariant(s, item, now);
      AddKeepsBranchScoped(s, item, now);
      var r := QuickView.AddToCart(s, product, bp, v, now);
      assert r.cart == Store.AddToCart(s, item, now).cart;
      CartEditKeepsValid(s, r);
    }
  }

  /** Removing rows keeps the invariants. */
  lemma RemoveKeepsValid(s: Store.State, id: string)
    requires Valid(s)
    ensures Valid(Store.RemoveFromCart(s, id))
  {
    var r := Store.RemoveFromCart(s, id);
    Store.RemoveFromCartKeepsInvariant(s, id);
    forall i | 0 <= i < |r.cart|
      ensures r.selectedBranch.Some? && r.cart[i].branchId == r.selectedBranch.value.id
    {
      var j :| 0 <= j < |s.cart| && s.cart[j] == r.cart[i];
    }
    assert BranchScoped(r.cart, r.selectedBranch);
    assert r.orderType == s.orderType && r.selectedBranch == s.selectedBranch;
    assert r.orders == s.orders;
    CartEditKeepsValid(s, r);
  }

  /** Setting a quantity leaves every row's branch as it was. */
  lemma UpdateKeepsBranchIds(s: Store.State, id: string, quantity: int)
    requires quantity > 0
    ensures var c := Store.UpdateCartItemQuantity(s, id, quantity).cart;
      |c| == |s.cart| && forall i :: 0 <= i < |c| ==> c[i].branchId == s.cart[i].branchId
  {
  }

  /** Rows that keep their branches keep being scoped to the selected branch. */
  lemma SameBranchIdsKeepScope(a: seq<CartItem>, b: seq<CartItem>, branch: Option<Branch>)
    requires |a| == |b| && forall i :: 0 <= i < |b| ==> b[i].branchId == a[i].branchId
    requires BranchScoped(a, branch)
    ensures BranchScoped(b, branch)
  {
    if b != [] {
      assert a[0].branchId == branch.value.id;
      var id := branch.value.id;
      forall i | 0 <= i < |b|
        ensures b[i].branchId == id
      {
        assert a[i].branchId == id;
      }
    }
  }

  /** Changing a quantity keeps the invariants, also when it removes the row. */
  lemma UpdateKeepsValid(s: Store.State, id: string, quantity: int)
    requires Valid(s)
    ensures Valid(Store.UpdateCartItemQuantity(s, id, quantity))
  {
    if quantity <= 0 {
      RemoveKeepsValid(s, id);
    } else {
      var r := Store.UpdateCartItemQuantity(s, id, quantity);
      Store.UpdateCartItemQuantityKeepsInvariant(s, id, quantity);
      UpdateKeepsBranchIds(s, id, quantity);
      SameBranchIdsKeepScope(s.cart, r.cart, s.selectedBranch);
      CartEditKeepsValid(s, r);
    }
  }

  /** The end of a payment keeps the invariants, whatever happened to the
      cart during the wait: the order takes the cart as it is then. */
  lemma {:induction false} PaymentKeepsValid(s: Store.State, form: Checkout.CheckoutForm, now: nat,
                                             orderNumber: string, createdAt: string)
    requires Valid(s) && Checkout.Validate(form) == []
    ensures Valid(Store.CreateOrder(s, form.customerName, form.customerPhone, Some(form.pickupTime),
                                    now, orderNumber, createdAt).0)
  {
    var (r, o) := Store.CreateOrder(s, form.customerName, form.customerPhone, Some(form.pickupTime),
                                    now, orderNumber, createdAt);
    assert Checkout.CheckoutForm(o.customerName, o.customerPhone, o.pickupTime.value) == form;
    forall i | 0 <= i < |o.items|
      ensures o.items[i].branchId == o.branchId
    {
      assert o.items[i] == s.cart[i];
    }
    assert WellFormedOrder(o);
    forall i | 0 <= i < |r.orders|
      ensures WellFormedOrder(r.orders[i])
    {
      if i < |s.orders| {
        assert r.orders[i] == s.orders[i];
      }
    }
  }

  /** Every button that acts on the store at once keeps its invariants. */
  lemma {:induction false} ApplyKeepsValid(s: Store.State, b: Button)
    requires Valid(s)
    ensures Valid(Apply(s, b))
  {
    match b
    case QuickAdd(p, bp, now) => QuickAddKeepsValid(s, p, bp, now);
    case QuickViewAdd(p, bp, g, presses, now) =>
      QuickView.StepsKeepPositive(1, presses);
      QuickViewAddKeepsValid(s, p, bp, QuickView.View(0, g, QuickView.Steps(1, presses)), now);
    case Remove(id) => RemoveKeepsValid(s, id);
    case UpdateQuantity(id, q) => UpdateKeepsValid(s, id, q);
    case Switcher(_) =>
    case ModalDelivery =>
    case ModalPickup =>
    case ModalClose =>
    case LandingDelivery =>
    case LandingPickup =>
    case DeliveryBack =>
    case HeaderChangeBranch =>
    case PickBranch(_) =>
    case SetCartOpen(_) =>
    case ClearCart =>
  }

  /** Taking one pending payment out keeps the others' forms. */
  lemma PaymentsLeftValidated(payments: seq<Checkout.CheckoutForm>, k: nat)
    requires k < |payments| && forall i :: 0 <= i < |payments| ==> Checkout.Validate(payments[i]) == []
    ensures var rest := payments[..k] + payments[k + 1..];
      forall i :: 0 <= i < |rest| ==> Checkout.Validate(rest[i]) == []
  {
    var rest := payments[..k] + payments[k + 1..];
    forall i | 0 <= i < |rest|
      ensures Checkout.Validate(rest[i]) == []
    {
      if i < k {
        assert rest[i] == payments[i];
      } else {
        assert rest[i] == payments[i + 1];
      }
    }
  }

  /** A press of submit keeps the invariants: it queues only a valid form. */
  lemma SubmitKeepsValid(w: State, form: Checkout.CheckoutForm)
    requires Invariant(w)
    ensures Invariant(Step(w, SubmitOrder(form)))
  {
    var r := Step(w, SubmitOrder(form));
    if r != w {
      assert r.store == w.store && r.payments == w.payments + [form];
      forall i | 0 <= i < |r.payments|
        ensures Checkout.Validate(r.payments[i]) == []
      {
        if i < |w.payments| {
          assert r.payments[i] == w.payments[i];
        }
      }
    }
  }

  /** The end of a payment keeps the invariants. */
  lemma PayKeepsValid(w: State, k: nat, now: nat, orderNumber: string, createdAt: string)
    requires Invariant(w) && k < |w.payments|
    ensures Invariant(Pay(w, k, now, orderNumber, createdAt))
  {
    var f := w.payments[k];
    PaymentKeepsValid(w.store, f, now, orderNumber, createdAt);
    PaymentsLeftValidated(w.payments, k);
  }

  /** Every event keeps the invariants. */
  lemma {:induction false} StepKeepsValid(w: State, e: Event)
    requires Invariant(w)
    ensures Invariant(Step(w, e))
  {
    match e
    case SubmitOrder(form) => SubmitKeepsValid(w, form);
    case PaymentDone(k, now, orderNumber, createdAt) =>
      if k < |w.payments| {
        PayKeepsValid(w, k, now, orderNumber, createdAt);
      }
    case Press(b) => ApplyKeepsValid(w.store, b);
  }

  /** Every state a visitor can reach from a valid one is valid. */
  lemma {:induction false} RunKeepsValid(w: State, events: seq<Event>)
    requires Invariant(w)
    ensures Invariant(Run(w, events))
    decreases |events|
  {
    if events != [] {
      StepKeepsValid(w, events[0]);
      RunKeepsValid(Step(w, events[0]), events[1..]);
    }
  }

  /** No event sequence loses or rewrites a placed order. */
  lemma {:induction false} RunKeepsOrders(w: State, events: seq<Event>)
    ensures |w.store.orders| <= |Run(w, events).store.orders|
    ensures Run(w, events).store.orders[..|w.store.orders|] == w.store.orders
    decreases |events|
  {
    if events != [] {
      var t := Step(w, events[0]);
      RunKeepsOrders(t, events[1..]);
      var o := Run(w, events).store.orders;
      assert o[..|t.store.orders|] == t.store.orders;
      assert o[..|w.store.orders|] == o[..|t.store.orders|][..|w.store.orders|];
    }
  }

  /** In particular, a delivery visitor never has anything in the cart: the
      only add buttons need a selected branch. */
  lemma DeliveryCartIsEmpty(events: seq<Event>)
    ensures var s := Run(Initial, events).store;
      s.orderType == Some(Delivery) ==> s.cart == []
  {
    InitialIsValid();
    RunKeepsValid(Initial, events);
    var s := Run(Initial, events).store;
    if s.cart != [] {
      assert s.cart[0].branchId == s.selectedBranch.value.id;
    }
  }

  /** With no other button between them, pressing submit and the end of its
      payment do what the checkout page's submission does in one step. */
  lemma SubmitThenPayIsCheckout(w: State, form: Checkout.CheckoutForm, now: nat, orderNumber: string,
                                createdAt: string)
    requires w.payments == []
    ensures Run(w, [SubmitOrder(form), PaymentDone(0, now, orderNumber, createdAt)]).store
         == Checkout.Submit(w.store, form, now, orderNumber, createdAt).0
  {
    var events := [SubmitOrder(form), PaymentDone(0, now, orderNumber, createdAt)];
    var w1 := Step(w, events[0]);
    assert events[1..] == [PaymentDone(0, now, orderNumber, createdAt)];
    assert Run(w1, events[1..]) == Step(w1, events[1]);
  }

  /** The wait lets an order through with nothing in it: pressing submit with
      one row in the cart, removing that row from the cart panel, and letting
      the payment end records an order with no items and a zero total. */
  lemma RemovalDuringPaymentRecordsEmptyOrder(w: State, form: Checkout.CheckoutForm, row: CartItem, now: nat,
                                              orderNumber: string, createdAt: string)
    requires w.payments == [] && w.store.cart == [row]
    requires Checkout.ScreenFor(w.store) == Checkout.OrderForm && Checkout.Validate(form) == []
    ensures var r := Run(w, [SubmitOrder(form), Press(Remove(row.id)), PaymentDone(0, now, orderNumber, createdAt)]).store;
      && |r.orders| == |w.store.orders| + 1
      && r.orders[|w.store.orders|].items == []
      && r.orders[|w.store.orders|].total == 0.0
  {
    var events := [SubmitOrder(form), Press(Remove(row.id)), PaymentDone(0, now, orderNumber, createdAt)];
    SubmitQueues(w, form);
    var w1 := Step(w, events[0]);
    RemoveOnlyRow(w1, row);
    var w2 := Step(w1, events[1]);
    EmptyPayment(w2, now, orderNumber, createdAt);
    RunOfThree(w, events);
  }

  lemma SubmitQueues(w: State, form: Checkout.CheckoutForm)
    requires Checkout.ScreenFor(w.store) == Checkout.OrderForm && Checkout.Validate(form) == []
    ensures Step(w, SubmitOrder(form)) == w.(payments := w.payments + [form])
  {
  }

  lemma RemoveOnlyRow(w: State, row: CartItem)
    requires w.store.cart == [row]
    ensures Step(w, Press(Remove(row.id))).store.cart == []
    ensures Step(w, Press(Remove(row.id))).payments == w.payments
    ensures Step(w, Press(Remove(row.id))).store.orders == w.store.orders
  {
  }

  lemma EmptyPayment(w: State, now: nat, orderNumber: string, createdAt: string)
    requires w.store.cart == [] && |w.payments| > 0
    ensures var r := Step(w, PaymentDone(0, now, orderNumber, createdAt)).store;
      && |r.orders| == |w.store.orders| + 1
      && r.orders[|w.store.orders|].items == []
      && r.orders[|w.store.orders|].total == 0.0
  {
  }

  /** Three events applied one after the other. */
  lemma RunOfThree(w: State, events: seq<Event>)
    requires |events| == 3
    ensures Run(w, events) == Step(Step(Step(w, events[0]), events[1]), events[2])
  {
    var w1 := Step(w, events[0]);
    var w2 := Step(w1, events[1]);
    assert events[1..][0] == events[1] && events[1..][1..] == [events[2]];
    assert Run(w2, [events[2]]) == Step(w2, events[2]);
  }
}
