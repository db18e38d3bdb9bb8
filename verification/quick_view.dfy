/** The quick-view dialog of a product: an image carousel, a grind choice, a
    quantity stepper and an "add to cart" button. */
module QuickView {
  import opened Types
  import Seqs
  import Store
  import ProductCard

  /** JavaScript's `a % n` for a positive divisor: the remainder takes the sign
      of `a` (Dafny's `%` never returns a negative value). */
  function JsRem(a: int, n: int): (r: int)
    requires n > 0
    ensures a >= 0 ==> r == a % n
    ensures -n < r < n && (r == 0 || (r < 0 <==> a < 0))
    ensures (a - r) % n == 0
  {
    if a >= 0 then
      RemainderCongruent(a, n);
      a % n
    else
      NegativeRemainderCongruent(a, n);
      -((-a) % n)
  }

  /** For a non-negative dividend, `a` and its remainder differ by a multiple of `n`. */
  lemma RemainderCongruent(a: int, n: int)
    requires n > 0 && a >= 0
    ensures (a - a % n) % n == 0
  {
    var q := a / n;
    assert a - a % n == q * n + 0;
    ModOfMultiplePlus(q, n, 0);
  }

  /** For a negative dividend, `a` and the truncated remainder differ by a multiple of `n`. */
  lemma NegativeRemainderCongruent(a: int, n: int)
    requires n > 0 && a < 0
    ensures (a + (-a) % n) % n == 0
  {
    var b := -a;
    var q, m := b / n, b % n;
    assert b == q * n + m;
    assert a + m == (-q) * n + 0;
    ModOfMultiplePlus(-q, n, 0);
  }

  // ---------------------------------------------------------------- carousel

  /** The index after `i` among `n` images, wrapping to the first. */
  function NextImage(i: int, n: int): (r: int)
    requires n >= 1
    ensures 0 <= i < n ==> 0 <= r < n && r == if i == n - 1 then 0 else i + 1
  {
    if 0 <= i < n then
      WrapForward(i, n);
      JsRem(i + 1, n)
    else JsRem(i + 1, n)
  }

  /** The index before `i` among `n` images, wrapping to the last. */
  function PrevImage(i: int, n: int): (r: int)
    requires n >= 1
    ensures 0 <= i < n ==> 0 <= r < n && r == if i == 0 then n - 1 else i - 1
  {
    if 0 <= i < n then
      WrapBackward(i, n);
      JsRem(i - 1 + n, n)
    else JsRem(i - 1 + n, n)
  }

  lemma WrapForward(i: int, n: int)
    requires 0 <= i < n
    ensures (i + 1) % n == if i == n - 1 then 0 else i + 1
  {
    if i == n - 1 {
      ModOfMultiplePlus(1, n, 0);
    } else {
      ModOfMultiplePlus(0, n, i + 1);
    }
  }

  lemma WrapBackward(i: int, n: int)
    requires 0 <= i < n
    ensures (i - 1 + n) % n == if i == 0 then n - 1 else i - 1
  {
    if i == 0 {
      ModOfMultiplePlus(0, n, n - 1);
    } else {
      ModOfMultiplePlus(1, n, i - 1);
    }
  }

  lemma PrevUndoesNext(i: int, n: int)
    requires 0 <= i < n
    ensures PrevImage(NextImage(i, n), n) == i
    ensures NextImage(PrevImage(i, n), n) == i
  {
  }

  /** `k` presses of "next" from image `i`. */
  function NextTimes(i: int, n: int, k: nat): int
    requires n >= 1
  {
    if k == 0 then i else NextImage(NextTimes(i, n, k - 1), n)
  }

  /** Pressing "next" k times advances k images around the circle. */
  lemma {:induction false} NextTimesAdvances(i: int, n: int, k: nat)
    requires 0 <= i < n
    ensures NextTimes(i, n, k) == (i + k) % n
  {
    if k > 0 {
      NextTimesAdvances(i, n, k - 1);
      NextOfRemainder(i + k - 1, n);
    }
  }

  /** "Next" from the remainder of `a` is the remainder of `a + 1`. */
  lemma NextOfRemainder(a: nat, n: int)
    requires n >= 1
    ensures NextImage(a % n, n) == (a + 1) % n
  {
    var q, r := a / n, a % n;
    assert a == q * n + r;
    if r == n - 1 {
      assert a + 1 == (q + 1) * n + 0;
      ModOfMultiplePlus(q + 1, n, 0);
    } else {
      assert a + 1 == q * n + (r + 1);
      ModOfMultiplePlus(q, n, r + 1);
    }
  }

  lemma ModOfMultiplePlus(q: int, n: int, r: int)
    requires n >= 1 && 0 <= r < n
    ensures (q * n + r) % n == r
  {
    var a := q * n + r;
    var q', r' := a / n, a % n;
    assert a == q' * n + r';
    assert (q - q') * n == r' - r;
    if q > q' {
      MultipleAtLeast(q - q', n);
      assert false;
    } else if q < q' {
      MultipleAtLeast(q' - q, n);
      assert false;
    }
  }

  lemma {:induction false} MultipleAtLeast(d: int, n: int)
    requires d >= 1 && n >= 1
    ensures d * n >= n
    decreases d
  {
    if d > 1 {
      MultipleAtLeast(d - 1, n);
      assert d * n == (d - 1) * n + n;
    }
  }

  lemma FullCircle(i: int, n: int)
    requires 0 <= i < n
    ensures NextTimes(i, n, n) == i
  {
    NextTimesAdvances(i, n, n);
    ModOfMultiplePlus(1, n, i);
  }

  // ---------------------------------------------------------------- the dialog

  /** The dialog's own state: the image shown, the grind picked, the quantity.
      The product tile keeps the dialog mounted and only shows or hides it,
      so this state outlives closing and reopening. */
  datatype View = View(selectedImage: int, grind: Grind, quantity: int)

  /** The dialog as the product tile holds it: shown or hidden, with its view. */
  datatype Dialog = Dialog(isOpen: bool, view: View)

  /** The view the dialog starts with when the tile is first drawn: the first
      image, the product's default grind and one unit. */
  function Mount(p: Product): (d: Dialog)
    ensures !d.isOpen && d.view.selectedImage == 0 && d.view.quantity == 1
    ensures d.view.grind == ProductCard.DefaultGrind(p)
  {
    Dialog(false, View(0, ProductCard.DefaultGrind(p), 1))
  }

  /** Opening and closing only show and hide the dialog. */
  function Show(d: Dialog): (r: Dialog)
    ensures r.isOpen && r.view == d.view
  {
    d.(isOpen := true)
  }

  function Hide(d: Dialog): (r: Dialog)
    ensures !r.isOpen && r.view == d.view
  {
    d.(isOpen := false)
  }

  /** The minus button never takes the quantity below one. */
  function Decrement(q: int): (r: int)
    ensures r >= 1
    ensures q >= 2 ==> r == q - 1
    ensures q <= 2 ==> r == 1
  {
    if q - 1 > 1 then q - 1 else 1
  }

  function Increment(q: int): (r: int)
    ensures r - q == 1
  {
    q + 1
  }

  /** The stepper buttons undo each other from any quantity the dialog can show. */
  lemma StepperRoundTrip(q: int)
    requires q >= 1
    ensures Decrement(Increment(q)) == q
    ensures q >= 2 ==> Increment(Decrement(q)) == q
  {
  }

  /** The quantity the dialog hands to the cart is always at least one: it
      starts at one and only the two stepper buttons change it. */
  lemma {:induction false} QuantityStaysPositive(p: Product, presses: seq<bool>)
    ensures Steps(Mount(p).view.quantity, presses) >= 1
  {
    StepsKeepPositive(Mount(p).view.quantity, presses);
  }

  /** Applies a series of stepper presses: `true` for plus, `false` for minus. */
  function Steps(q: int, presses: seq<bool>): int
    decreases |presses|
  {
    if presses == [] then q
    else Steps(if presses[0] then Increment(q) else Decrement(q), presses[1..])
  }

  lemma {:induction false} StepsKeepPositive(q: int, presses: seq<bool>)
    requires q >= 1
    ensures Steps(q, presses) >= 1
    decreases |presses|
  {
    if presses != [] {
      StepsKeepPositive(if presses[0] then Increment(q) else Decrement(q), presses[1..]);
    }
  }

  /** The price the dialog shows and charges: the branch price, zero without one. */
  function Price(bp: Option<BranchProduct>): real
  {
    if bp.Some? then bp.value.price else 0.0
  }

  /** Adds the chosen grind and quantity, one-time, at the branch price, then
      opens the cart panel; nothing happens under the same conditions as
      quick add. */
  function AddToCart(s: Store.State, product: Product, bp: Option<BranchProduct>, v: View, now: nat)
    : (r: Store.State)
    requires v.quantity >= 1
    ensures !ProductCard.CanQuickAdd(s, bp) ==> r == s
    ensures ProductCard.CanQuickAdd(s, bp) ==>
      && r.isCartOpen && r.orders == s.orders
      && r.orderType == s.orderType && r.selectedBranch == s.selectedBranch
      && r.showEntryModal == s.showEntryModal
      && Store.ItemCount(r.cart) == Store.ItemCount(s.cart) + v.quantity
      && Seqs.SumInt(r.cart, Store.QuantityUnder(ChosenKey(s, product, v)))
         == Seqs.SumInt(s.cart, Store.QuantityUnder(ChosenKey(s, product, v))) + v.quantity
    ensures ProductCard.CanQuickAdd(s, bp) && |r.cart| > |s.cart| ==>
      && r.cart[..|s.cart|] == s.cart && |r.cart| == |s.cart| + 1
      && var row := r.cart[|s.cart|];
      && Store.KeyOf(row) == ChosenKey(s, product, v)
      && row.quantity == v.quantity && row.unitPrice == bp.value.price
      && Store.CartTotal(r.cart) == Store.CartTotal(s.cart) + bp.value.price * v.quantity as real
  {
    if !ProductCard.CanQuickAdd(s, bp) then s
    else
      var item := NewCartItem(product.id, s.selectedBranch.value.id, v.grind, None, v.quantity, Price(bp));
      Store.AddToCartTotals(s, item, now);
      Store.AddToCartQuantityUnderKey(s, item, now);
      Store.SetIsCartOpen(Store.AddToCart(s, item, now), true)
  }

  /** The merge key of the row the dialog fills: one-time, the chosen grind, the selected branch. */
  function ChosenKey(s: Store.State, product: Product, v: View): Store.MergeKey
    requires s.selectedBranch.Some?
  {
    Store.MergeKey(product.id, s.selectedBranch.value.id, v.grind, None)
  }

  /** The add button: when it adds, the dialog closes but keeps its view, so
      reopening it shows the grind and quantity used last; when it does
      nothing, the dialog stays open. */
  function PressAdd(s: Store.State, product: Product, bp: Option<BranchProduct>, d: Dialog, now: nat)
    : (r: (Store.State, Dialog))
    requires d.view.quantity >= 1
    ensures r.0 == AddToCart(s, product, bp, d.view, now)
    ensures r.1.view == d.view
    ensures r.1.isOpen <==> d.isOpen && !ProductCard.CanQuickAdd(s, bp)
  {
    if ProductCard.CanQuickAdd(s, bp) then (AddToCart(s, product, bp, d.view, now), Hide(d))
    else (s, d)
  }

  /** Quick add on the product tile does what this dialog's button does on
      its first use after the tile is drawn, before any stepper or grind press. */
  lemma QuickAddIsFreshQuickView(s: Store.State, product: Product, bp: Option<BranchProduct>, now: nat)
    ensures ProductCard.QuickAdd(s, product, bp, now)
         == PressAdd(s, product, bp, Show(Mount(product)), now).0
  {
  }

  /** After an add, reopening shows the quantity just added, not one unit:
      the dialog is never reset while the tile stays on the page. */
  lemma ReopenKeepsQuantity(s: Store.State, product: Product, bp: Option<BranchProduct>, d: Dialog, now: nat)
    requires d.view.quantity >= 1
    ensures Show(PressAdd(s, product, bp, d, now).1).view.quantity == d.view.quantity
    ensures Show(Hide(d)) == Show(d)
  {
  }
}
