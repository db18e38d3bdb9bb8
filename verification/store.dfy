/** The client-side order store: order type, selected branch, cart, order
    history and two interface flags, with one transition per store action.
    Every transition is a pure function from the old state to the new one;
    the clock and the order-number generator are parameters. */
module Store {
  import opened Types
  import Text
  import Seqs

  datatype State = State(
    orderType: Option<OrderType>,
    selectedBranch: Option<Branch>,
    cart: seq<CartItem>,
    orders: seq<Order>,
    isCartOpen: bool,
    showEntryModal: bool)

  /** The state before anything was chosen or rehydrated. */
  const Initial := State(None, None, [], [], false, true)

  /** The parts of the state that are neither the cart nor the order history. */
  predicate SameSelection(a: State, b: State)
  {
    a.orderType == b.orderType && a.selectedBranch == b.selectedBranch
    && a.isCartOpen == b.isCartOpen && a.showEntryModal == b.showEntryModal
  }

  // ---------------------------------------------------------------- order type and branch

  function SetOrderType(s: State, t: Option<OrderType>): (r: State)
    ensures r.orderType == t
    ensures r.selectedBranch == s.selectedBranch && r.cart == s.cart && r.orders == s.orders
    ensures r.isCartOpen == s.isCartOpen && r.showEntryModal == s.showEntryModal
  {
    s.(orderType := t)
  }

  /** Choosing a branch (or none) always empties the cart, even when the
      branch is the one already selected. */
  function SetSelectedBranch(s: State, b: Option<Branch>): (r: State)
    ensures r.selectedBranch == b && r.cart == []
    ensures r.orderType == s.orderType && r.orders == s.orders
    ensures r.isCartOpen == s.isCartOpen && r.showEntryModal == s.showEntryModal
  {
    s.(selectedBranch := b, cart := [])
  }

  // ---------------------------------------------------------------- cart rows

  /** What makes two rows the same line of the cart: a one-time purchase has no frequency. */
  datatype MergeKey = MergeKey(productId: string, branchId: string, grind: Grind, frequency: Option<Frequency>)

  function PlanFrequency(p: Option<SubscriptionPlan>): Option<Frequency>
  {
    match p
    case None => None
    case Some(plan) => Some(plan.frequency)
  }

  function KeyOf(row: CartItem): MergeKey
  {
    MergeKey(row.productId, row.branchId, row.grind, PlanFrequency(row.subscriptionPlan))
  }

  function KeyOfNew(item: NewCartItem): MergeKey
  {
    MergeKey(item.productId, item.branchId, item.grind, PlanFrequency(item.subscriptionPlan))
  }

  /** The position of the first row an added item merges into (`findIndex`). */
  function MergeIndex(cart: seq<CartItem>, item: NewCartItem): (k: Option<nat>)
    ensures k.Some? ==> k.value < |cart| && KeyOf(cart[k.value]) == KeyOfNew(item)
    ensures k.Some? ==> forall j :: 0 <= j < k.value ==> KeyOf(cart[j]) != KeyOfNew(item)
    ensures k.None? <==> forall j :: 0 <= j < |cart| ==> KeyOf(cart[j]) != KeyOfNew(item)
  {
    if cart == [] then None
    else if KeyOf(cart[0]) == KeyOfNew(item) then Some(0)
    else
      match MergeIndex(cart[1..], item)
      case None => None
      case Some(j) => Some(j + 1)
  }

  /** A merge key written out as in row ids: product, branch, grind and the
      plan's frequency (or "onetime"), joined by hyphens. */
  function KeyText(k: MergeKey): string
  {
    var frequency := match k.frequency
      case Some(f) => FrequencyName(f)
      case None => "onetime";
    k.productId + "-" + k.branchId + "-" + GrindName(k.grind) + "-" + frequency
  }

  /** The id given to a new row: the merge key followed by the time in milliseconds. */
  function CartId(item: NewCartItem, now: nat): (id: string)
    ensures id == KeyText(KeyOfNew(item)) + "-" + Text.NatToString(now)
    ensures Text.StartsWith(id, item.productId + "-" + item.branchId + "-")
  {
    var frequency := match item.subscriptionPlan
      case Some(plan) => FrequencyName(plan.frequency)
      case None => "onetime";
    var id := item.productId + "-" + item.branchId + "-" + GrindName(item.grind) + "-" + frequency
      + "-" + Text.NatToString(now);
    assert id[..|item.productId + "-" + item.branchId + "-"|] == item.productId + "-" + item.branchId + "-";
    id
  }

  /** Two rows created under the same merge key get the same id exactly when
      they were created in the same millisecond. */
  lemma CartIdStamp(a: NewCartItem, b: NewCartItem, t: nat, u: nat)
    requires KeyOfNew(a) == KeyOfNew(b)
    ensures CartId(a, t) == CartId(b, u) <==> t == u
  {
    var prefix := KeyText(KeyOfNew(a)) + "-";
    if CartId(a, t) == CartId(b, u) {
      assert CartId(a, t)[|prefix|..] == Text.NatToString(t);
      assert CartId(b, u)[|prefix|..] == Text.NatToString(u);
      Text.ParseNatToString(t);
      Text.ParseNatToString(u);
    }
  }

  function NewRow(item: NewCartItem, now: nat): CartItem
  {
    CartItem(CartId(item, now), item.productId, item.branchId, item.grind,
             item.subscriptionPlan, item.quantity, item.unitPrice)
  }

  /** Adds `item` to the cart. A row with the same merge key absorbs the
      quantity (its price and discount stay as they were); otherwise a new row
      goes at the end. The item's branch is not compared with the selected one. */
  function AddToCart(s: State, item: NewCartItem, now: nat): (r: State)
    requires item.quantity >= 1
    ensures SameSelection(r, s) && r.orders == s.orders
    ensures MergeIndex(s.cart, item).Some? ==>
      var k := MergeIndex(s.cart, item).value;
      && |r.cart| == |s.cart|
      && r.cart[k] == s.cart[k].(quantity := s.cart[k].quantity + item.quantity)
      && forall j :: 0 <= j < |s.cart| && j != k ==> r.cart[j] == s.cart[j]
    ensures MergeIndex(s.cart, item).None? ==>
      && |r.cart| == |s.cart| + 1
      && r.cart[..|s.cart|] == s.cart
      && var row := r.cart[|s.cart|];
      && KeyOf(row) == KeyOfNew(item)
      && row.id == CartId(item, now)
      && row.subscriptionPlan == item.subscriptionPlan
      && row.quantity == item.quantity && row.unitPrice == item.unitPrice
  {
    match MergeIndex(s.cart, item)
    case Some(k) =>
      s.(cart := s.cart[k := s.cart[k].(quantity := s.cart[k].quantity + item.quantity)])
    case None =>
      s.(cart := s.cart + [NewRow(item, now)])
  }

  /** Drops every row carrying `id`; the others keep their order. */
  function RemoveFromCart(s: State, id: string): (r: State)
    ensures SameSelection(r, s) && r.orders == s.orders
    ensures forall i :: 0 <= i < |r.cart| ==> r.cart[i].id != id && r.cart[i] in s.cart
    ensures forall i :: 0 <= i < |s.cart| && s.cart[i].id != id ==> s.cart[i] in r.cart
    ensures Seqs.IsSubseq(r.cart, s.cart)
    ensures (forall i :: 0 <= i < |s.cart| ==> s.cart[i].id != id) ==> r.cart == s.cart
    ensures forall row :: multiset(r.cart)[row] == if row.id == id then 0 else multiset(s.cart)[row]
  {
    var keep := (row: CartItem) => row.id != id;
    Seqs.FilterIsSubseq(s.cart, keep);
    Seqs.FilterCounts(s.cart, keep);
    assert (forall i :: 0 <= i < |s.cart| ==> s.cart[i].id != id) ==> Seqs.Filter(s.cart, keep) == s.cart by {
      if forall i :: 0 <= i < |s.cart| ==> s.cart[i].id != id {
        Seqs.FilterKeepsAll(s.cart, keep);
      }
    }
    s.(cart := Seqs.Filter(s.cart, keep))
  }

  /** Sets the quantity of the rows carrying `id`; a quantity of zero or less removes them. */
  function UpdateCartItemQuantity(s: State, id: string, quantity: int): (r: State)
    ensures quantity <= 0 ==> r == RemoveFromCart(s, id)
    ensures quantity > 0 ==> SameSelection(r, s) && r.orders == s.orders && |r.cart| == |s.cart|
    ensures quantity > 0 ==> forall i :: 0 <= i < |s.cart| ==>
      r.cart[i] == if s.cart[i].id == id then s.cart[i].(quantity := quantity) else s.cart[i]
  {
    if quantity <= 0 then RemoveFromCart(s, id)
    else
      s.(cart := seq(|s.cart|, i requires 0 <= i < |s.cart| =>
        if s.cart[i].id == id then s.cart[i].(quantity := quantity) else s.cart[i]))
  }

  function ClearCart(s: State): (r: State)
    ensures r.cart == [] && SameSelection(r, s) && r.orders == s.orders
  {
    s.(cart := [])
  }

  // ---------------------------------------------------------------- derived values

  /** A row's contribution to the total: price times quantity, less the plan's discount. */
  function LineTotal(row: CartItem): real
  {
    var itemTotal := row.unitPrice * row.quantity as real;
    match row.subscriptionPlan
    case Some(plan) => itemTotal * (1.0 - plan.discount / 100.0)
    case None => itemTotal
  }

  function Quantity(row: CartItem): int
  {
    row.quantity
  }

  function CartTotal(cart: seq<CartItem>): real
  {
    Seqs.SumReal(cart, LineTotal)
  }

  function ItemCount(cart: seq<CartItem>): int
  {
    Seqs.SumInt(cart, Quantity)
  }

  /** The discounted line total is linear in the quantity. */
  lemma LineTotalSplits(row: CartItem, extra: int)
    ensures LineTotal(row.(quantity := row.quantity + extra))
         == LineTotal(row) + LineTotal(row.(quantity := extra))
  {
    var p := row.unitPrice;
    assert p * (row.quantity + extra) as real == p * row.quantity as real + p * extra as real;
  }

  /** A row with a non-negative price and quantity and a discount of at most
      100 percent never lowers the total. */
  lemma LineTotalNonNegative(row: CartItem)
    requires row.unitPrice >= 0.0 && row.quantity >= 0
    requires row.subscriptionPlan.Some? ==> row.subscriptionPlan.value.discount <= 100.0
    ensures LineTotal(row) >= 0.0
  {
    var itemTotal := row.unitPrice * row.quantity as real;
    assert itemTotal >= 0.0;
  }

  ghost predicate Priced(cart: seq<CartItem>)
  {
    forall i :: 0 <= i < |cart| ==>
      && cart[i].unitPrice >= 0.0 && cart[i].quantity >= 0
      && (cart[i].subscriptionPlan.Some? ==> cart[i].subscriptionPlan.value.discount <= 100.0)
  }

  lemma {:induction false} CartTotalNonNegative(cart: seq<CartItem>)
    requires Priced(cart)
    ensures CartTotal(cart) >= 0.0
  {
    if cart != [] {
      CartTotalNonNegative(cart[..|cart| - 1]);
      LineTotalNonNegative(cart[|cart| - 1]);
    }
  }

  lemma EmptyCartTotals()
    ensures CartTotal([]) == 0.0 && ItemCount([]) == 0
  {
  }

  /** Adding an item raises the item count by exactly its quantity, and the
      total by that quantity priced at the row that receives it. */
  lemma AddToCartTotals(s: State, item: NewCartItem, now: nat)
    requires item.quantity >= 1
    ensures ItemCount(AddToCart(s, item, now).cart) == ItemCount(s.cart) + item.quantity
    ensures MergeIndex(s.cart, item).None? ==>
      CartTotal(AddToCart(s, item, now).cart) == CartTotal(s.cart) + LineTotal(NewRow(item, now))
    ensures MergeIndex(s.cart, item).Some? ==>
      var row := s.cart[MergeIndex(s.cart, item).value];
      CartTotal(AddToCart(s, item, now).cart) == CartTotal(s.cart) + LineTotal(row.(quantity := item.quantity))
  {
    match MergeIndex(s.cart, item)
    case Some(k) => MergeTotals(s, item, now, k);
    case None => AppendTotals(s, item, now);
  }

  lemma MergeTotals(s: State, item: NewCartItem, now: nat, k: nat)
    requires item.quantity >= 1 && MergeIndex(s.cart, item) == Some(k)
    ensures var c := AddToCart(s, item, now).cart;
      && ItemCount(c) == ItemCount(s.cart) + item.quantity
      && CartTotal(c) == CartTotal(s.cart) + LineTotal(s.cart[k].(quantity := item.quantity))
  {
    var c := AddToCart(s, item, now).cart;
    var row := s.cart[k];
    MergedCart(s, item, now, k);
    MergedCount(s.cart, k, item.quantity);
    MergedTotal(s.cart, k, item.quantity);
    assert c == s.cart[k := row.(quantity := row.quantity + item.quantity)];
    assert ItemCount(c) == ItemCount(s.cart) + item.quantity;
    assert CartTotal(c) == CartTotal(s.cart) + LineTotal(row.(quantity := item.quantity));
  }

  /** Merging rewrites the matching row in place. */
  lemma MergedCart(s: State, item: NewCartItem, now: nat, k: nat)
    requires item.quantity >= 1 && MergeIndex(s.cart, item) == Some(k)
    ensures AddToCart(s, item, now).cart == s.cart[k := s.cart[k].(quantity := s.cart[k].quantity + item.quantity)]
  {
  }

  /** Raising one row's quantity by `extra` adds `extra` to the item count. */
  lemma MergedCount(cart: seq<CartItem>, k: nat, extra: int)
    requires k < |cart|
    ensures var row := cart[k];
      ItemCount(cart[k := row.(quantity := row.quantity + extra)]) == ItemCount(cart) + extra
  {
    Seqs.SumIntUpdate(cart, k, cart[k].(quantity := cart[k].quantity + extra), Quantity);
  }

  /** Raising one row's quantity by `extra` adds that many units at its price to the total. */
  lemma MergedTotal(cart: seq<CartItem>, k: nat, extra: int)
    requires k < |cart|
    ensures var row := cart[k];
      CartTotal(cart[k := row.(quantity := row.quantity + extra)]) == CartTotal(cart) + LineTotal(row.(quantity := extra))
  {
    var row := cart[k];
    var row' := row.(quantity := row.quantity + extra);
    Seqs.SumRealUpdate(cart, k, row', LineTotal);
    LineTotalSplits(row, extra);
    Rebalance(CartTotal(cart), LineTotal(row), LineTotal(row'), LineTotal(row.(quantity := extra)),
              CartTotal(cart[k := row']));
  }

  lemma AppendTotals(s: State, item: NewCartItem, now: nat)
    requires item.quantity >= 1 && MergeIndex(s.cart, item).None?
    ensures var c := AddToCart(s, item, now).cart;
      && ItemCount(c) == ItemCount(s.cart) + item.quantity
      && CartTotal(c) == CartTotal(s.cart) + LineTotal(NewRow(item, now))
  {
    var r := AddToCart(s, item, now);
    var row := NewRow(item, now);
    assert r.cart == s.cart + [row];
    assert (s.cart + [row])[..|s.cart|] == s.cart;
  }

  /** Replacing one term of a sum by itself plus `part` adds `part` to the sum. */
  lemma Rebalance(total: real, term: real, term': real, part: real, result: real)
    requires result == total - term + term' && term' == term + part
    ensures result == total + part
  {
  }

  // ---------------------------------------------------------------- cart invariants

  /** Every row in the cart has a quantity of at least one. */
  ghost predicate AllPositive(cart: seq<CartItem>)
  {
    forall i :: 0 <= i < |cart| ==> cart[i].quantity >= 1
  }

  /** No two rows share a merge key. */
  ghost predicate UniqueKeys(cart: seq<CartItem>)
  {
    forall i, j :: 0 <= i < j < |cart| ==> KeyOf(cart[i]) != KeyOf(cart[j])
  }

  ghost predicate CartInvariant(cart: seq<CartItem>)
  {
    AllPositive(cart) && UniqueKeys(cart)
  }

  lemma AddToCartKeepsInvariant(s: State, item: NewCartItem, now: nat)
    requires item.quantity >= 1 && CartInvariant(s.cart)
    ensures CartInvariant(AddToCart(s, item, now).cart)
  {
    var r := AddToCart(s, item, now);
    if MergeIndex(s.cart, item).Some? {
      var k := MergeIndex(s.cart, item).value;
      assert forall j :: 0 <= j < |r.cart| ==> KeyOf(r.cart[j]) == KeyOf(s.cart[j]);
    } else {
      assert forall j :: 0 <= j < |s.cart| ==> r.cart[j] == s.cart[j];
    }
  }

  lemma RemoveFromCartKeepsInvariant(s: State, id: string)
    requires CartInvariant(s.cart)
    ensures CartInvariant(RemoveFromCart(s, id).cart)
  {
    var r := RemoveFromCart(s, id);
    SubseqKeepsInvariant(r.cart, s.cart);
  }

  lemma {:induction false} SubseqKeepsInvariant(a: seq<CartItem>, b: seq<CartItem>)
    requires Seqs.IsSubseq(a, b) && CartInvariant(b)
    ensures CartInvariant(a)
    decreases |b|
  {
    if a != [] {
      assert b != [];
      assert CartInvariant(b[1..]) by {
        assert forall i :: 0 <= i < |b[1..]| ==> b[1..][i] == b[i + 1];
      }
      if a[0] == b[0] && Seqs.IsSubseq(a[1..], b[1..]) {
        SubseqKeepsInvariant(a[1..], b[1..]);
        SubseqMembers(a[1..], b[1..]);
        forall j | 0 < j < |a|
          ensures KeyOf(a[0]) != KeyOf(a[j])
        {
          assert a[j] == a[1..][j - 1];
          var m :| 0 <= m < |b[1..]| && b[1..][m] == a[j];
          assert b[m + 1] == a[j];
        }
      } else {
        SubseqKeepsInvariant(a, b[1..]);
      }
    }
  }

  lemma {:induction false} SubseqMembers<T>(a: seq<T>, b: seq<T>)
    requires Seqs.IsSubseq(a, b)
    ensures forall i :: 0 <= i < |a| ==> exists m :: 0 <= m < |b| && b[m] == a[i]
    decreases |b|
  {
    if a != [] {
      if a[0] == b[0] && Seqs.IsSubseq(a[1..], b[1..]) {
        SubseqMembers(a[1..], b[1..]);
        forall i | 0 < i < |a|
          ensures exists m :: 0 <= m < |b| && b[m] == a[i]
        {
          assert a[i] == a[1..][i - 1];
          var m :| 0 <= m < |b[1..]| && b[1..][m] == a[i];
          assert b[m + 1] == a[i];
        }
        assert b[0] == a[0];
      } else {
        SubseqMembers(a, b[1..]);
        forall i | 0 <= i < |a|
          ensures exists m :: 0 <= m < |b| && b[m] == a[i]
        {
          var m :| 0 <= m < |b[1..]| && b[1..][m] == a[i];
          assert b[m + 1] == a[i];
        }
      }
    }
  }

  /** Together with `RemoveFromCart`, this is why no row ever holds a quantity below one. */
  lemma UpdateCartItemQuantityKeepsInvariant(s: State, id: string, quantity: int)
    requires CartInvariant(s.cart)
    ensures CartInvariant(UpdateCartItemQuantity(s, id, quantity).cart)
  {
    if quantity <= 0 {
      RemoveFromCartKeepsInvariant(s, id);
    } else {
      var r := UpdateCartItemQuantity(s, id, quantity);
      assert forall j :: 0 <= j < |r.cart| ==> KeyOf(r.cart[j]) == KeyOf(s.cart[j]);
    }
  }

  /** The total quantity held under one merge key. */
  function QuantityUnder(k: MergeKey): CartItem -> int
  {
    row => if KeyOf(row) == k then row.quantity else 0
  }

  /** When keys are unique, the quantity under a row's key is that row's quantity. */
  lemma {:induction false} QuantityUnderUniqueKey(cart: seq<CartItem>, i: nat)
    requires UniqueKeys(cart) && i < |cart|
    ensures Seqs.SumInt(cart, QuantityUnder(KeyOf(cart[i]))) == cart[i].quantity
    decreases |cart|
  {
    var k := KeyOf(cart[i]);
    var init := cart[..|cart| - 1];
    assert UniqueKeys(init);
    if i == |cart| - 1 {
      NoRowUnderKey(init, k);
    } else {
      assert init[i] == cart[i];
      QuantityUnderUniqueKey(init, i);
    }
  }

  lemma {:induction false} NoRowUnderKey(cart: seq<CartItem>, k: MergeKey)
    requires forall j :: 0 <= j < |cart| ==> KeyOf(cart[j]) != k
    ensures Seqs.SumInt(cart, QuantityUnder(k)) == 0
  {
    if cart != [] {
      NoRowUnderKey(cart[..|cart| - 1], k);
    }
  }

  /** One addition moves the quantity under the item's key up by the item's quantity. */
  lemma AddToCartQuantityUnderKey(s: State, item: NewCartItem, now: nat)
    requires item.quantity >= 1
    ensures Seqs.SumInt(AddToCart(s, item, now).cart, QuantityUnder(KeyOfNew(item)))
         == Seqs.SumInt(s.cart, QuantityUnder(KeyOfNew(item))) + item.quantity
  {
    var f := QuantityUnder(KeyOfNew(item));
    var r := AddToCart(s, item, now);
    match MergeIndex(s.cart, item)
    case Some(k) =>
      var row' := s.cart[k].(quantity := s.cart[k].quantity + item.quantity);
      assert r.cart == s.cart[k := row'];
      assert f(row') == f(s.cart[k]) + item.quantity;
      Seqs.SumIntUpdate(s.cart, k, row', f);
    case None =>
      var row := NewRow(item, now);
      assert r.cart == s.cart + [row];
      assert f(row) == item.quantity;
      assert (s.cart + [row])[..|s.cart|] == s.cart;
  }

  /** Adds the items one after another, the i-th at time `stamps[i]`. */
  function AddAll(s: State, items: seq<NewCartItem>, stamps: seq<nat>): State
    requires |stamps| == |items|
    requires forall i :: 0 <= i < |items| ==> items[i].quantity >= 1
    decreases |items|
  {
    if items == [] then s
    else AddAll(AddToCart(s, items[0], stamps[0]), items[1..], stamps[1..])
  }

  function NewQuantity(item: NewCartItem): int
  {
    item.quantity
  }

  /** Repeatedly adding items with one merge key leaves exactly one row with
      that key, holding the sum of the requested quantities. */
  lemma {:induction false} RepeatedAddsMerge(s: State, items: seq<NewCartItem>, stamps: seq<nat>, k: MergeKey)
    requires |stamps| == |items| && |items| >= 1
    requires forall i :: 0 <= i < |items| ==> items[i].quantity >= 1 && KeyOfNew(items[i]) == k
    requires CartInvariant(s.cart)
    requires forall j :: 0 <= j < |s.cart| ==> KeyOf(s.cart[j]) != k
    ensures var r := AddAll(s, items, stamps);
      && CartInvariant(r.cart)
      && exists i :: 0 <= i < |r.cart| && KeyOf(r.cart[i]) == k
           && r.cart[i].quantity == Seqs.SumInt(items, NewQuantity)
  {
    NoRowUnderKey(s.cart, k);
    AddAllUnderKey(s, items, stamps, k);
    var r := AddAll(s, items, stamps);
    var i := KeyedRowExists(s, items, stamps, k);
    QuantityUnderUniqueKey(r.cart, i);
  }

  lemma {:induction false} AddAllUnderKey(s: State, items: seq<NewCartItem>, stamps: seq<nat>, k: MergeKey)
    requires |stamps| == |items|
    requires forall i :: 0 <= i < |items| ==> items[i].quantity >= 1 && KeyOfNew(items[i]) == k
    requires CartInvariant(s.cart)
    ensures CartInvariant(AddAll(s, items, stamps).cart)
    ensures Seqs.SumInt(AddAll(s, items, stamps).cart, QuantityUnder(k))
         == Seqs.SumInt(s.cart, QuantityUnder(k)) + Seqs.SumInt(items, NewQuantity)
    decreases |items|
  {
    if items != [] {
      var s' := AddToCart(s, items[0], stamps[0]);
      AddToCartKeepsInvariant(s, items[0], stamps[0]);
      AddToCartQuantityUnderKey(s, items[0], stamps[0]);
      AddAllUnderKey(s', items[1..], stamps[1..], k);
      Seqs.SumIntConcat([items[0]], items[1..], NewQuantity);
      assert items == [items[0]] + items[1..];
      assert [items[0]][..0] == [];
    }
  }

  lemma {:induction false} KeyedRowExists(s: State, items: seq<NewCartItem>, stamps: seq<nat>, k: MergeKey)
    returns (i: nat)
    requires |stamps| == |items| && |items| >= 1
    requires forall j :: 0 <= j < |items| ==> items[j].quantity >= 1 && KeyOfNew(items[j]) == k
    ensures i < |AddAll(s, items, stamps).cart| && KeyOf(AddAll(s, items, stamps).cart[i]) == k
  {
    var s' := AddToCart(s, items[0], stamps[0]);
    var j: nat;
    match MergeIndex(s.cart, items[0]) {
      case Some(m) => j := m;
      case None => j := |s.cart|;
    }
    assert j < |s'.cart| && KeyOf(s'.cart[j]) == k;
    i := KeyKept(s', items[1..], stamps[1..], k, j);
  }

  lemma {:induction false} KeyKept(s: State, items: seq<NewCartItem>, stamps: seq<nat>, k: MergeKey, j: nat)
    returns (i: nat)
    requires |stamps| == |items|
    requires forall m :: 0 <= m < |items| ==> items[m].quantity >= 1
    requires j < |s.cart| && KeyOf(s.cart[j]) == k
    ensures i < |AddAll(s, items, stamps).cart| && KeyOf(AddAll(s, items, stamps).cart[i]) == k
    decreases |items|
  {
    if items == [] {
      i := j;
    } else {
      var s' := AddToCart(s, items[0], stamps[0]);
      assert KeyOf(s'.cart[j]) == k;
      i := KeyKept(s', items[1..], stamps[1..], k, j);
    }
  }

  // ---------------------------------------------------------------- orders

  /** Places an order: a copy of the cart priced at the cart total, status
      "placed", appended to the history; the cart is emptied in the same step.
      `now`, `orderNumber` and `createdAt` stand for the clock and the
      order-number generator. No field is validated. */
  function CreateOrder(s: State, customerName: string, customerPhone: string, pickupTime: Option<string>,
                       now: nat, orderNumber: string, createdAt: string): (r: (State, Order))
    ensures r.0.orders == s.orders + [r.1] && r.0.cart == [] && SameSelection(r.0, s)
    ensures r.1.items == s.cart
    ensures r.1.subtotal == CartTotal(s.cart) && r.1.total == r.1.subtotal
    ensures r.1.status == Placed
    ensures r.1.branchId == if s.selectedBranch.Some? then s.selectedBranch.value.id else ""
    ensures r.1.id == OrderId(now)
    ensures r.1.customerName == customerName && r.1.customerPhone == customerPhone
    ensures r.1.pickupTime == pickupTime
  {
    var order := Order(
      OrderId(now), orderNumber,
      match s.selectedBranch case Some(b) => b.id case None => "",
      s.cart, customerName, customerPhone, pickupTime,
      CartTotal(s.cart), CartTotal(s.cart), Placed, createdAt);
    (s.(orders := s.orders + [order], cart := []), order)
  }

  /** `order-` followed by the time in milliseconds. */
  function OrderId(now: nat): (id: string)
    ensures Text.StartsWith(id, "order-")
    ensures id[6..] == Text.NatToString(now)
  {
    var id := "order-" + Text.NatToString(now);
    assert id[..6] == "order-";
    id
  }

  /** Two orders get the same id exactly when they are placed in the same millisecond. */
  lemma OrderIdStamp(t: nat, u: nat)
    ensures OrderId(t) == OrderId(u) <==> t == u
  {
    if OrderId(t) == OrderId(u) {
      Text.ParseNatToString(t);
      Text.ParseNatToString(u);
    }
  }

  /** `orders.find(o => o.id === id)`. */
  function FindOrder(orders: seq<Order>, id: string): (r: Option<Order>)
    ensures r.Some? ==> exists i :: 0 <= i < |orders| && orders[i] == r.value
    ensures r.Some? ==> r.value.id == id
    ensures r.None? <==> forall i :: 0 <= i < |orders| ==> orders[i].id != id
    ensures forall i :: 0 <= i < |orders| && orders[i].id == id ==>
      r.Some? && (forall j :: 0 <= j < i ==> orders[j].id != id) ==> r.value == orders[i]
  {
    if orders == [] then None
    else if orders[0].id == id then Some(orders[0])
    else
      var r := FindOrder(orders[1..], id);
      assert forall i :: 1 <= i < |orders| ==> orders[i] == orders[1..][i - 1];
      r
  }

  function GetOrder(s: State, id: string): Option<Order>
  {
    FindOrder(s.orders, id)
  }

  /** Appending to the history never changes what an earlier lookup found. */
  lemma {:induction false} FindOrderAppend(orders: seq<Order>, o: Order, id: string)
    ensures FindOrder(orders + [o], id)
         == if FindOrder(orders, id).Some? then FindOrder(orders, id)
            else if o.id == id then Some(o) else None
  {
    if orders == [] {
      assert orders + [o] == [o];
    } else {
      assert (orders + [o])[1..] == orders[1..] + [o];
      FindOrderAppend(orders[1..], o, id);
    }
  }

  /** After `CreateOrder`, the new order is found by its id unless an earlier
      order already had that id, and every earlier lookup still succeeds. */
  lemma CreateThenGetOrder(s: State, name: string, phone: string, pickup: Option<string>,
                           now: nat, orderNumber: string, createdAt: string, id: string)
    ensures var (s', o) := CreateOrder(s, name, phone, pickup, now, orderNumber, createdAt);
      && (GetOrder(s, o.id).None? ==> GetOrder(s', o.id) == Some(o))
      && (GetOrder(s, id).Some? ==> GetOrder(s', id) == GetOrder(s, id))
      && (id != o.id ==> GetOrder(s', id) == GetOrder(s, id))
  {
    var (s', o) := CreateOrder(s, name, phone, pickup, now, orderNumber, createdAt);
    FindOrderAppend(s.orders, o, o.id);
    FindOrderAppend(s.orders, o, id);
  }

  /** With a clock that moves forward, every order placed so far carries an
      earlier stamp, so the order just placed is always found by its id. */
  lemma {:induction false} LaterOrderFound(s: State, stamps: seq<nat>, name: string, phone: string,
                                           pickup: Option<string>, now: nat, orderNumber: string, createdAt: string)
    requires |stamps| == |s.orders|
    requires forall i :: 0 <= i < |stamps| ==> s.orders[i].id == OrderId(stamps[i]) && stamps[i] < now
    ensures var (s', o) := CreateOrder(s, name, phone, pickup, now, orderNumber, createdAt);
      GetOrder(s', OrderId(now)) == Some(o)
  {
    forall i | 0 <= i < |s.orders|
      ensures s.orders[i].id != OrderId(now)
    {
      OrderIdStamp(stamps[i], now);
    }
    CreateThenGetOrder(s, name, phone, pickup, now, orderNumber, createdAt, OrderId(now));
  }

  // ---------------------------------------------------------------- interface flags

  function SetIsCartOpen(s: State, open: bool): (r: State)
    ensures r.isCartOpen == open
    ensures r.orderType == s.orderType && r.selectedBranch == s.selectedBranch
    ensures r.cart == s.cart && r.orders == s.orders && r.showEntryModal == s.showEntryModal
  {
    s.(isCartOpen := open)
  }

  function SetShowEntryModal(s: State, show: bool): (r: State)
    ensures r.showEntryModal == show
    ensures r.orderType == s.orderType && r.selectedBranch == s.selectedBranch
    ensures r.cart == s.cart && r.orders == s.orders && r.isCartOpen == s.isCartOpen
  {
    s.(showEntryModal := show)
  }

  /** The initial state: nothing chosen, nothing bought, cart panel closed, entry modal due. */
  lemma InitialStateIsEmpty(id: string)
    ensures Initial.orderType.None? && Initial.selectedBranch.None?
    ensures CartTotal(Initial.cart) == 0.0 && ItemCount(Initial.cart) == 0
    ensures GetOrder(Initial, id).None?
    ensures !Initial.isCartOpen && Initial.showEntryModal
    ensures CartInvariant(Initial.cart)
  {
  }

  // ---------------------------------------------------------------- persistence

  /** The slice of the state written to local storage. */
  datatype Persisted = Persisted(
    orderType: Option<OrderType>,
    selectedBranch: Option<Branch>,
    cart: seq<CartItem>,
    orders: seq<Order>,
    showEntryModal: bool)

  function Partialize(s: State): Persisted
  {
    Persisted(s.orderType, s.selectedBranch, s.cart, s.orders, s.showEntryModal)
  }

  /** Startup: the stored slice is merged over the initial state. */
  function Rehydrate(p: Persisted): State
  {
    Initial.(orderType := p.orderType, selectedBranch := p.selectedBranch, cart := p.cart,
             orders := p.orders, showEntryModal := p.showEntryModal)
  }

  /** Saving and reloading keeps everything but the cart-panel flag, which reopens closed. */
  lemma PersistRoundTrip(s: State, p: Persisted)
    ensures Rehydrate(Partialize(s)) == s.(isCartOpen := false)
    ensures Partialize(Rehydrate(p)) == p
  {
  }
}
