# Coffee storefront core in Dafny

This project models the client-side core of a coffee-shop storefront. A visitor chooses delivery or pickup, picks a
branch, browses and filters the branch's catalogue, fills a cart and places a pickup order.

All state lives in one store (`lib/store.ts`). The store holds:

- the order type;
- the selected branch;
- the cart of rows;
- the order history;
- two interface flags.

Around the store sit small pure rules in pages and components. The model covers:

- the shop page's filters and sorts;
- the checkout page's time slots, form validation, guards and summary;
- the header switcher, entry modal and header;
- the product tile and quick-view dialog;
- the branch search;
- the holiday banner.

Every store action is a pure function from the old state to the new one. Each page or component rule is a function
over the store state and its own inputs.

| file | module | models |
|---|---|---|
| `types.dfy` | `Types` | the records of `lib/types.ts` |
| `text.dfy` | `Text` | lower-casing, substring search, decimal digits, padding, UTF-16 length |
| `seqs.dfy` | `Seqs` | `filter`, stable `sort` on a numeric key, left-fold sums |
| `store.dfy` | `Store` | the store: state, actions, cart total and count, orders, `partialize` |
| `shop.dfy` | `Shop` | `app/shop/page.tsx`: filters, sorts, active-filter count, note toggle |
| `checkout.dfy` | `Checkout` | `app/checkout/page.tsx`: time slots, form rules, guard screens, submit, summary |
| `order_type_switcher.dfy` | `OrderTypeSwitcher` | the header's delivery/pickup menu |
| `entry_modal.dfy` | `EntryModal` | the welcome modal and the delivery page's back button |
| `header.dfy` | `Header` | badge count, "change branch", active link, light text |
| `product_card.dfy` | `ProductCard` | stock flags, badges, quick add |
| `quick_view.dfy` | `QuickView` | image carousel, quantity stepper, add to cart |
| `branches.dfy` | `Branches` | `app/branches/page.tsx`: search and branch selection |
| `celebrations.dfy` | `Celebrations` | the holiday banner: date rule and particles |
| `session.dfy` | `Session` | all of the above as one event-driven state machine, with its invariants |

Money is `real`, so the arithmetic is exact. Quantities are `int`. The following are parameters:

- the clock, `Date.now()` (`now: nat`);
- the ISO time stamp;
- the generated order number;
- today's date;
- the `Math.random` draws;
- the catalogue data.

## Model

| member | source | states |
|---|---|---|
| Store.SetOrderType | lib/store.ts:41 | sets only the order type; branch, cart, orders and flags are kept |
| Store.SetSelectedBranch | lib/store.ts:45-48 | the branch becomes the argument and the cart becomes empty, even when it is the same branch; order type, orders and flags are kept |
| Store.MergeIndex | lib/store.ts:56-62 | the index of the first row whose product, branch, grind and plan frequency equal the item's, or none exactly when no row has that key |
| Store.CartId | lib/store.ts:53 | a new row's id is its product id, branch id, grind and plan frequency (or "onetime"), then the millisecond stamp, all joined by dashes |
| Store.CartIdStamp | lib/store.ts:53 | two rows created under the same merge key get the same id exactly when they were created in the same millisecond |
| Store.AddToCart | lib/store.ts:52-73 | with a matching row, only that row's quantity grows by the item's and the length is kept. Otherwise one row goes at the end: it has the item's key, plan, quantity and price, and the earlier rows are unchanged |
| Store.RemoveFromCart | lib/store.ts:74-76 | no kept row has the id; every row without it is kept, as often as it occurred; the result is an ordered subsequence; an absent id changes nothing |
| Seqs.FilterCounts | lib/store.ts:75 | filtering keeps every passing element as often as it occurred and drops every other one |
| Store.UpdateCartItemQuantity | lib/store.ts:77-87 | a quantity of zero or less is exactly a removal; otherwise only rows with the id get the new quantity and the length is kept |
| Store.ClearCart | lib/store.ts:88 | empties the cart and keeps everything else |
| Store.LineTotalSplits | lib/store.ts:91-95 | a row's total is linear in its quantity: adding to the quantity adds that many unit totals |
| Store.LineTotalNonNegative | lib/store.ts:91-95 | a row with a non-negative price and quantity, and a discount of at most 100, has a non-negative total |
| Store.CartTotalNonNegative | lib/store.ts:89-97 | a cart of such rows has a non-negative total |
| Store.EmptyCartTotals | lib/store.ts:89-100 | the empty cart's total and item count are both zero |
| Store.AddToCartTotals | lib/store.ts:52-73 | adding raises the item count by the added quantity. A new row raises the total by quantity times price, less the discount. A merge raises it by the added quantity priced and discounted as the matching row |
| Store.MergedCount | lib/store.ts:64-68 | raising one row's quantity by some amount raises the item count by that amount |
| Store.MergedTotal | lib/store.ts:64-68 | raising one row's quantity by some amount raises the total by that many units at the row's price and discount |
| Store.AddToCartKeepsInvariant | lib/store.ts:52-73 | adding keeps every quantity at least one and keeps the merge keys distinct |
| Store.RemoveFromCartKeepsInvariant | lib/store.ts:74-76 | removing keeps every quantity at least one and keeps the merge keys distinct |
| Store.UpdateCartItemQuantityKeepsInvariant | lib/store.ts:77-87 | updating keeps every quantity at least one and keeps the merge keys distinct, whatever the new quantity |
| Store.SubseqKeepsInvariant | lib/store.ts:75 | any ordered subsequence of a well-formed cart is well formed |
| Store.QuantityUnderUniqueKey | lib/store.ts:56-62 | in a cart with distinct keys, the quantity held under a row's key is that row's quantity |
| Store.NoRowUnderKey | lib/store.ts:56-62 | a key no row carries holds quantity zero |
| Store.AddToCartQuantityUnderKey | lib/store.ts:52-73 | adding raises the quantity held under the item's key by exactly the added quantity |
| Store.AddAllUnderKey | lib/store.ts:52-73 | after a series of adds under one key, that key holds the old quantity plus the sum of the added ones, and the cart stays well formed |
| Store.RepeatedAddsMerge | lib/store.ts:64-68 | repeatedly adding one product, branch, grind and frequency into a cart without that key leaves exactly one such row, holding the sum of all the quantities |
| Store.KeyedRowExists | lib/store.ts:69-72 | after adds under a key there is a row with that key |
| Store.KeyKept | lib/store.ts:64-72 | a row's key is never lost by later adds |
| Store.CreateOrder | lib/store.ts:104-121 | appends one order. The order holds the old cart as items, with subtotal and total both equal to the cart total and status placed. Its branch id is the selected branch's, or empty. The cart is emptied and the selection kept |
| Store.OrderId | lib/store.ts:107 | an order id is "order-" followed by the millisecond stamp's digits |
| Store.OrderIdStamp | lib/store.ts:107 | two orders get the same id exactly when they are placed in the same millisecond |
| Store.LaterOrderFound | lib/store.ts:104-124 | when every earlier order carries an earlier stamp, the order just placed is found by its id |
| Store.FindOrder | lib/store.ts:122-124 | returns the first order with the id, which is in the history; none exactly when no order has the id |
| Store.FindOrderAppend | lib/store.ts:119-124 | appending an order never changes what an earlier lookup found |
| Store.CreateThenGetOrder | lib/store.ts:104-124 | after placing an order, it is found by its id unless an earlier order had the same id, and every other lookup is unchanged |
| Store.SetIsCartOpen | lib/store.ts:128 | sets only the cart-open flag |
| Store.SetShowEntryModal | lib/store.ts:130 | sets only the entry-modal flag |
| Store.InitialStateIsEmpty | lib/store.ts:40-51 | the initial state has no order type, no branch, an empty cart with total and count zero, no order for any id, a closed cart and the modal shown |
| Store.PersistRoundTrip | lib/store.ts:134-140 | saving drops only the cart-open flag: restoring a saved state gives it back with the cart closed, and saving a restored record gives the record back |
| Shop.InitialFilters | app/shop/page.tsx:46-54 | the page starts with an empty query, every roast, no notes and the featured sort. The category is the address's category string, unchecked; a missing or empty one, or "all", means every category |
| Shop.UnknownCategoryShowsNothing | app/shop/page.tsx:46-68 | an address category that names no category lets no product through |
| Shop.Stage | app/shop/page.tsx:66-81 | an inactive filter stage keeps everything; an active one keeps exactly the passing products and only removes |
| Shop.FilterProducts | app/shop/page.tsx:63-93 | a product is shown exactly when it is in the catalogue and passes category, roast, notes and query; the result is a sub-multiset of the catalogue |
| Shop.QueryCaseIgnored | app/shop/page.tsx:84-92 | a product matches a query exactly when it matches the lower-cased query |
| Shop.CurrentBranchProducts | app/shop/page.tsx:59-61 | without a branch there are no price entries. With one, the list holds exactly the catalogue's entries for that branch, in catalogue order |
| Shop.FindBranchProduct | app/shop/page.tsx:98-99 | the first entry for the product in the branch's list, or none exactly when there is no such entry |
| Shop.FirstEntryShift | app/shop/page.tsx:98-99 | the first entry in the tail is the first in the whole list when the head is for another product |
| Shop.FilteredProducts | app/shop/page.tsx:63-130 | the sorted list holds exactly the filtered products, as a permutation of them |
| Shop.PriceSortsOrderByBranchPrice | app/shop/page.tsx:96-111 | with a branch, the low-price sort is ascending and the high-price sort descending in branch price, with a missing price read as 0 |
| Shop.FeaturedSortPutsFeaturedFirst | app/shop/page.tsx:114-126 | under the featured sort, and under a price sort without a branch, no featured product follows one that is not featured |
| Shop.NoBranchKeepsOrder | app/shop/page.tsx:96-127 | without a branch every sort except by name leaves the filtered catalogue order unchanged |
| Shop.NameSortOrdersByName | app/shop/page.tsx:112-113 | the name sort orders by the name comparison |
| Shop.SetCategory | app/shop/page.tsx:181-184 | the tabs set the category to the raw string, with "all" switching the filter off; nothing else changes |
| Shop.CategoryBadgeClears | app/shop/page.tsx:326-332 | the category badge's cross lowers the filter count by one and loses no product the list showed |
| Shop.ActiveFiltersCount | app/shop/page.tsx:140-143 | the count is zero exactly when category and roast are "all" and no note is chosen, and it is at least the number of notes |
| Shop.ClearFiltersResets | app/shop/page.tsx:145-150 | clearing brings the count to zero, empties the query, keeps the sort and shows the whole catalogue |
| Shop.ToggleNote | app/shop/page.tsx:290-295 | after a toggle the note is chosen exactly when it was not before, and the other notes are kept |
| Shop.ToggleTwiceRestores | app/shop/page.tsx:290-295 | toggling an unchosen note twice restores the list |
| Shop.ToggleKeepsNotesDistinct | app/shop/page.tsx:290-295 | toggling keeps the chosen notes free of duplicates |
| Checkout.SlotValue | app/checkout/page.tsx:51 | a slot's value is five characters with a colon in the middle |
| Checkout.SlotLabel | app/checkout/page.tsx:52 | the label is the unpadded 12-hour number (hour less 12 after noon), a colon, the two-digit minute, and " PM" exactly from 12 o'clock, otherwise " AM" |
| Checkout.SlotLabelReadsBack | app/checkout/page.tsx:52 | every slot label reads back, as a 12-hour time, to the slot's minutes after midnight |
| Checkout.SlotValueReadsBack | app/checkout/page.tsx:51 | the value's digits read back as the slot's minutes since midnight |
| Checkout.SlotsBefore | app/checkout/page.tsx:49-55 | the slots of the hours before a given one number two per hour |
| Checkout.KthSlot | app/checkout/page.tsx:49-55 | the slot k = 2q + r half hours after 7:00 is a valid time, at 420 + 30k minutes, whose value reads back as that |
| Checkout.SlotTime | app/checkout/page.tsx:49-55 | the k-th slot is 7:00 plus k half hours, and its value reads back as that time |
| Checkout.GenerateTimeSlots | app/checkout/page.tsx:47-57 | 26 slots from 07:00 in 30-minute steps, so ascending and ending at 19:30, each value reading back as its time |
| Checkout.MorningLabel | app/checkout/page.tsx:52 | 7:00 is labelled "7:00 AM" |
| Checkout.NoonLabel | app/checkout/page.tsx:52 | 12:00 is labelled "12:00 PM" |
| Checkout.AfternoonLabel | app/checkout/page.tsx:52 | 13:30 is labelled "1:30 PM" |
| Checkout.EveningLabel | app/checkout/page.tsx:52 | 19:30 is labelled "7:30 PM" |
| Checkout.Validate | app/checkout/page.tsx:35-42 | reports a short name exactly when it has fewer than 2 UTF-16 units, and a short phone exactly when it has fewer than 10. It reports an invalid phone exactly when the phone is empty or has a character other than a digit, white space, '-', '+', '(' or ')'. The form is valid exactly when none applies |
| Checkout.PhoneCharsAreSingleUnits | app/checkout/page.tsx:38-40 | for a phone of allowed characters, the length rule counts characters |
| Checkout.ScreenFor | app/checkout/page.tsx:82-132 | the empty-cart screen exactly for an empty cart; then select-branch without a branch; then branch-closed for a closed branch; the form otherwise |
| Checkout.Submit | app/checkout/page.tsx:134-147 | an order is placed exactly from the form screen with a valid form. It holds the cart, its total, the branch id and the form's fields, and the cart is emptied. Otherwise nothing changes |
| Checkout.SummaryAddsUpToSubtotal | app/checkout/page.tsx:314-322 | when every row's product is in the catalogue, every row is listed and the lines add up to the store's cart total |
| Checkout.ShownTotal | app/checkout/page.tsx:363-371 | the total shown is the subtotal plus the taxes shown |
| Checkout.RecordedTotalOmitsTaxes | lib/store.ts:115 | the order records the pre-tax subtotal as its total, so it equals the total the checkout page shows only for a zero subtotal |
| OrderTypeSwitcher.Apply | components/layout/OrderTypeSwitcher.tsx:16-40 | delivery leaves no branch and an empty cart. Pickup keeps branch and cart. "Change pickup location" changes nothing. "Start over" clears type, branch and cart. No button touches orders or flags |
| OrderTypeSwitcher.View | components/layout/OrderTypeSwitcher.tsx:43-150 | nothing is drawn exactly without an order type; "Change pickup location" is offered exactly for pickup with a branch |
| OrderTypeSwitcher.ActionsAreIdempotent | components/layout/OrderTypeSwitcher.tsx:16-40 | pressing any button twice is the same as pressing it once |
| OrderTypeSwitcher.ViewAfterActions | components/layout/OrderTypeSwitcher.tsx:43-150 | after "Delivery" the menu shows delivery without a location change; after "Start over" it is gone |
| OrderTypeSwitcher.StartOverRestoresInitialSelection | components/layout/OrderTypeSwitcher.tsx:34-40 | "Start over" returns to the initial selection and keeps the history and flags |
| EntryModal.HandleDelivery | components/entry/EntryModal.tsx:16-19 | delivery is chosen and the modal hidden; branch, cart and orders are kept |
| EntryModal.HandlePickup | components/entry/EntryModal.tsx:21-25 | pickup is chosen and the modal hidden; branch, cart and orders are kept |
| EntryModal.Close | components/entry/EntryModal.tsx:63 | only the modal flag changes |
| EntryModal.HandleBack | components/entry/EntryModal.tsx:124-127 | the order type is cleared and the modal shown again; nothing else changes |
| EntryModal.ChoicesDismiss | components/entry/EntryModal.tsx:14-29 | after any of the three buttons the modal is not drawn |
| EntryModal.BackUndoesDelivery | components/entry/EntryModal.tsx:16-19 | from the modal as first shown, choosing delivery and going back restores the state exactly |
| EntryModal.HiddenOnceBranchSelected | components/entry/EntryModal.tsx:14 | with a branch selected the modal is never drawn; without one it is drawn exactly when the flag is set |
| Header.BadgeCount | components/layout/Header.tsx:30 | the badge is the store's item count |
| Header.ChangeBranch | components/layout/Header.tsx:45-49 | no branch, no order type, an empty cart; orders and flags kept |
| Header.ChangeBranchIsStartOver | components/layout/Header.tsx:45-49 | the header's reset ends in the same state as the switcher's "Start over" |
| Header.HomeActiveOnlyAtHome | components/layout/Header.tsx:77-78 | the home link is active only on "/" |
| Header.OtherLinksActiveOnPrefix | components/layout/Header.tsx:77-78 | any other link is active exactly on paths that begin with it |
| Header.UseLightText | components/layout/Header.tsx:22-39 | light text exactly on "/", "/about" and "/subscriptions" while scrolled at most 20 pixels |
| Header.ScrolledMeansDarkText | components/layout/Header.tsx:33-39 | once scrolled past 20 pixels, and on any page without a dark hero, the text is dark; scrolling changes the colour only on dark-hero pages |
| ProductCard.BadgesFor | components/product/ProductCard.tsx:70-87 | "Featured" exactly for a featured entry, "Out of Stock" exactly when the entry is out of stock, "Low Stock" exactly when it is low; never both stock badges |
| ProductCard.DefaultGrind | components/product/ProductCard.tsx:37 | the first grind option, or whole bean when there is none |
| ProductCard.QuickAdd | components/product/ProductCard.tsx:28-44 | nothing changes without a branch, or without an entry, or when out of stock. Otherwise the cart opens and one more unit is held under the key: this product, the selected branch, the default grind, one-time. A new row has quantity one at the branch price |
| QuickView.JsRem | components/product/QuickView.tsx:52-56 | JavaScript's remainder: Dafny's for a non-negative dividend, smaller than the divisor in size, sharing the dividend's sign, and differing from the dividend by a multiple of the divisor |
| QuickView.RemainderCongruent | components/product/QuickView.tsx:52 | a non-negative dividend less its remainder is a multiple of the divisor |
| QuickView.NegativeRemainderCongruent | components/product/QuickView.tsx:56 | a negative dividend plus the remainder of its negation is a multiple of the divisor |
| QuickView.WrapForward | components/product/QuickView.tsx:51-53 | one past the last index wraps to the first |
| QuickView.WrapBackward | components/product/QuickView.tsx:55-57 | one before the first index wraps to the last |
| QuickView.NextImage | components/product/QuickView.tsx:51-53 | from a valid index, the next index stays valid and wraps from the last to the first |
| QuickView.PrevImage | components/product/QuickView.tsx:55-57 | from a valid index, the previous index stays valid and wraps from the first to the last |
| QuickView.PrevUndoesNext | components/product/QuickView.tsx:51-57 | "previous" undoes "next" and "next" undoes "previous" |
| QuickView.NextTimesAdvances | components/product/QuickView.tsx:51-53 | k presses of "next" advance k images modulo the count |
| QuickView.FullCircle | components/product/QuickView.tsx:51-53 | as many presses as there are images return to the start |
| QuickView.Mount | components/product/QuickView.tsx:24-28 | the dialog is created closed, on the first image, with the default grind and quantity one |
| QuickView.Show | components/product/ProductCard.tsx:149-154 | opening the dialog changes only its open flag; image, grind and quantity are kept |
| QuickView.Hide | components/product/ProductCard.tsx:149-154 | closing the dialog changes only its open flag; image, grind and quantity are kept |
| QuickView.Decrement | components/product/QuickView.tsx:237 | the minus button never goes below one and otherwise subtracts one |
| QuickView.Increment | components/product/QuickView.tsx:245 | the plus button adds exactly one |
| QuickView.StepperRoundTrip | components/product/QuickView.tsx:237-245 | plus then minus restores any shown quantity; minus then plus restores any quantity above one |
| QuickView.StepsKeepPositive | components/product/QuickView.tsx:237-245 | any series of presses from a positive quantity stays positive |
| QuickView.QuantityStaysPositive | components/product/QuickView.tsx:28 | the quantity handed to the cart, after any presses from the mounted value, is at least one |
| QuickView.AddToCart | components/product/QuickView.tsx:35-49 | the same guard as quick add. Otherwise the cart opens, the modal flag is kept, and the quantity held under the chosen key grows by the chosen quantity, as does the item count. A new row has that key, no plan, that quantity and the branch price, and raises the total by price times quantity |
| QuickView.PressAdd | components/product/QuickView.tsx:35-49 | the dialog's add button adds as above; the dialog closes exactly when the add goes through, and its selections are kept |
| QuickView.QuickAddIsFreshQuickView | components/product/QuickView.tsx:24-45 | quick add on the tile is the dialog's add pressed straight after it is first mounted and opened |
| QuickView.ReopenKeepsQuantity | components/product/ProductCard.tsx:149-154 | after an add and reopening, the dialog shows the quantity it had; closing and reopening changes nothing |
| Branches.FilterBranches | app/branches/page.tsx:18-23 | a branch is shown exactly when it is listed and matches; the result keeps list order |
| Branches.MatchMeansOccurrence | app/branches/page.tsx:18-23 | a branch matches exactly when the lower-cased query occurs in its lower-cased name, area or address |
| Branches.EmptyQueryKeepsAll | app/branches/page.tsx:18-23 | an empty search shows every branch |
| Branches.QueryCaseIgnored | app/branches/page.tsx:20-22 | searching for the lower-cased query shows the same branches |
| Branches.SelectBranch | app/branches/page.tsx:25-29 | the branch is set, the cart empty and the order type pickup; orders and flags kept |
| Branches.SelectThenHighlighted | app/branches/page.tsx:89 | after selecting, exactly the cards with the branch's id are highlighted, and selecting it again changes nothing |
| Celebrations.FindIndex | components/effects/CelebrationEffects.tsx:109-113 | the position of the first matching celebration, or none exactly when nothing matches |
| Celebrations.MatchesWithinOneDay | components/effects/CelebrationEffects.tsx:110-112 | a celebration matches exactly in its month within one day number |
| Celebrations.FirstMatch | components/effects/CelebrationEffects.tsx:109 | a match with no match before it is the one chosen |
| Celebrations.ListPositions | components/effects/CelebrationEffects.tsx:64-87 | Halloween, Christmas and Boxing Day are the last three entries |
| Celebrations.ChristmasBeforeBoxingDay | components/effects/CelebrationEffects.tsx:73-87 | from 24 to 26 December Christmas is chosen, also over Boxing Day on the 26th; on the 27th Boxing Day |
| Celebrations.NoMatchAcrossMonths | components/effects/CelebrationEffects.tsx:111 | nothing in November or after 27 December; Halloween's buffer stays inside October |
| Celebrations.GenerateParticles | components/effects/CelebrationEffects.tsx:119-129 | 15 particles with ids 0 to 14 and the celebration's emoji; position below 100, delay below 5, fall time from 8 to below 14 |
| Celebrations.Show | components/effects/CelebrationEffects.tsx:103-137 | nothing without a celebration; with one, it and its 15 particles |
| Session.Apply | lib/store.ts:38-131 | the buttons that act on the store at once never touch the order history |
| Session.Pay | lib/store.ts:104-121 | the end of a payment wait creates the order from the store as it is then, without a guard, empties the cart and drops that payment from the pending ones |
| Session.Step | app/checkout/page.tsx:134-146 | submit only queues a payment, from the order form with a valid form, and leaves the store alone. After any event the earlier orders are unchanged and at most one order is added, only when a payment ends, which empties the cart |
| Session.SubmitThenPayIsCheckout | app/checkout/page.tsx:134-146 | with nothing in between, submit and the end of its payment give the store the one-step checkout gives |
| Session.RemovalDuringPaymentRecordsEmptyOrder | app/checkout/page.tsx:134-146 | submitting with one row, removing it during the wait and letting the payment end records an order with no items and a zero total |
| Session.SubmitQueues | app/checkout/page.tsx:134-137 | from the order form, a valid form is queued and nothing else changes |
| Session.RemoveOnlyRow | components/cart/CartSheet.tsx:105 | removing the only row empties the cart and keeps the orders and the pending payments |
| Session.EmptyPayment | lib/store.ts:104-121 | a payment that ends on an empty cart records an order with no items and a zero total |
| Session.RunOfThree | lib/store.ts:38-131 | a run of three events is the three steps in order |
| Session.LandingShownWithoutBranch | app/page.tsx:16-42 | in every valid state the landing hero is drawn exactly when delivery is not chosen and no branch is selected |
| Session.InitialIsValid | lib/store.ts:40-51 | the initial state meets the invariants |
| Session.StepKeepsValid | lib/store.ts:45-121 | every event keeps the invariants: quantities at least one and distinct merge keys; cart rows only from the selected branch, so an empty cart without one; a branch only under pickup; every order from one branch, at its cart total, placed, with a name and phone that pass the form's rules; every pending payment holds such a form |
| Session.AddKeepsBranchScoped | lib/store.ts:52-73 | adding an item of the selected branch, merged or appended, leaves every cart row from that branch |
| Session.CartEditKeepsValid | lib/store.ts:52-83 | a change to the cart alone keeps the invariants when the new cart has positive quantities, distinct keys and rows only from the selected branch |
| Session.QuickAddKeepsValid | components/product/ProductCard.tsx:32-41 | quick add on a product tile keeps the invariants, since it adds only for the selected branch |
| Session.QuickViewAddKeepsValid | components/product/QuickView.tsx:35-48 | the quick-view dialog's add button keeps the invariants for any quantity the stepper can reach |
| Session.RemoveKeepsValid | lib/store.ts:74-76 | removing rows keeps the invariants: what is left came from the cart |
| Session.UpdateKeepsBranchIds | lib/store.ts:82-86 | setting a positive quantity keeps the cart's length and every row's branch |
| Session.UpdateKeepsValid | lib/store.ts:77-86 | setting a quantity keeps the invariants, both when it removes the rows and when it rewrites them |
| Session.PaymentKeepsValid | lib/store.ts:104-121 | the end of a payment keeps the invariants whatever the cart then holds, and the new order is well formed |
| Session.ApplyKeepsValid | lib/store.ts:38-131 | every button that acts on the store at once keeps the store invariants |
| Session.PaymentsLeftValidated | app/checkout/page.tsx:134-146 | taking one payment out of the pending ones keeps the others' forms valid |
| Session.SubmitKeepsValid | app/checkout/page.tsx:134-137 | pressing submit keeps the invariants: only a valid form is queued |
| Session.PayKeepsValid | app/checkout/page.tsx:139-145 | the end of a payment keeps the invariants |
| Session.RunKeepsValid | lib/store.ts:45-121 | every state reachable by events from a valid one is valid |
| Session.RunKeepsOrders | lib/store.ts:119 | no sequence of events loses or rewrites a placed order |
| Session.DeliveryCartIsEmpty | components/layout/OrderTypeSwitcher.tsx:16-21 | starting from the initial state, a delivery visitor's cart is always empty |

## Left out

- Persistence I/O: the local-storage read and write are not modelled. Only the `partialize` projection and its inverse are, in `Store.Partialize` and `Store.Rehydrate`.
- Clocks, ids and randomness are parameters. `Date.now()`, `new Date().toISOString()`, `generateOrderNumber` (from `lib/utils`, which is not part of this model), `Math.random` and today's date are all passed in. Cart ids embed the merge key and a millisecond stamp, so they need not be unique. Every id-based operation therefore treats all rows that share an id.
- Floating point: money is exact `real`. IEEE rounding and `formatPrice` are not modelled.
- `localeCompare`: the name sort takes an abstract rank function on names instead.
- `toLowerCase`: lower-casing is ASCII only. Other characters are unchanged.
- zod and react-hook-form are not modelled as libraries. Only the three field rules are modelled, with lengths counted in UTF-16 units.
- Router navigation, the length of the 2-second payment wait (only its start and end are events), the scroll listener, the banner's auto-hide timer, animation and all rendering are left out.
- The banner's colours are left out.
- The catalogue data (`lib/data`) is not part of this model: branches, products, branch prices and grind names are parameters.
- Branch offers and delivery links are not fields of `Branch`, because no modelled rule reads them.
- Store.AddToCart: the store accepts any quantity. The model requires at least one, which both callers guarantee.
- QuickView.NextImage: requires at least one image. With none, the source's remainder is `NaN`.
- QuickView.PrevImage: requires at least one image, for the same reason.
- Store.AddToCart: the source bumps the matching row in place inside a shallow copy of the cart. The model builds a new row. This is equivalent, because the placed order copies the cart array and the cart is emptied at the same moment.
- Checkout.GenerateTimeSlots: slots are kept as hour and minute. Their value and label strings are the functions `Checkout.SlotValue` and `Checkout.SlotLabel`, proved correct separately.
- Session.Step: the entry modal's buttons act only while the modal is drawn, and the landing hero's only while the home page draws it. The delivery options' back button acts only after delivery was chosen: no modelled page draws that component, so where it appears is assumed. The product page's own add button is not part of this model. The submit button may be pressed again while a payment is pending; the page disables it while it stays mounted, so the model allows more runs than the program, and its invariants hold in all of them.
- Emoji: the celebrations' emoji are written as the Unicode code points the source's characters stand for; the source file's own bytes are not reproduced.
- Celebrations.GenerateParticles: the bounds hold over exact reals. In double precision a draw just below 1 can round the fall time up to 14 and the position up to 100, so the upper bounds may be reached.
- Orders are stored, not rendered: the order history and confirmation pages are not part of this model.
