/** The checkout page: the pickup time slots, the form rules, the screens
    shown before the form, the order submission and the summary arithmetic. */
module Checkout {
  import opened Types
  import Text
  import Seqs
  import Store

  // ---------------------------------------------------------------- pickup times

  /** A pickup slot, kept as its time of day; the option's value and label
      are rendered from it by `SlotValue` and `SlotLabel`. */
  datatype TimeSlot = TimeSlot(hour: nat, minute: nat)

  /** 24-hour "HH:MM", both parts zero-padded. */
  function SlotValue(hour: nat, minute: nat): (v: string)
    requires hour < 100 && minute < 100
    ensures |v| == 5 && v[2] == ':'
  {
    Text.Pad2(hour) + ":" + Text.Pad2(minute)
  }

  /** 12-hour label: the hour unpadded and reduced by 12 only above 12, so
      noon reads "12:00 PM". */
  function SlotLabel(hour: nat, minute: nat): (l: string)
    requires minute < 100
    ensures var h := Text.NatToString(if hour > 12 then hour - 12 else hour);
      && |l| == |h| + 6 && l[..|h|] == h && l[|h|] == ':'
      && Text.ParseDigits(h) == (if hour > 12 then hour - 12 else hour)
      && l[|h| + 1..|h| + 3] == Text.Pad2(minute)
    ensures l[|l| - 3..] == (if hour >= 12 then " PM" else " AM")
  {
    var n := if hour > 12 then hour - 12 else hour;
    var h := Text.NatToString(n);
    Text.ParseNatToString(n);
    var suffix := if hour >= 12 then " PM" else " AM";
    LabelShape(h, Text.Pad2(minute), suffix);
    h + ":" + Text.Pad2(minute) + suffix
  }

  lemma LabelShape(h: string, m: string, suffix: string)
    requires |m| == 2 && |suffix| == 3
    ensures var l := h + ":" + m + suffix;
      && |l| == |h| + 6 && l[..|h|] == h && l[|h|] == ':' && l[|h| + 1..|h| + 3] == m
      && l[|l| - 3..] == suffix
  {
    var l := h + ":" + m + suffix;
    assert l[..|h|] == h;
    assert l[|h| + 1..|h| + 3] == m;
    assert l[|l| - 3..] == suffix;
  }

  /** The characters of a label's " AM" or " PM" suffix. */
  predicate IsSuffix(a: char, b: char, c: char)
  {
    a == ' ' && (b == 'A' || b == 'P') && c == 'M'
  }

  /** Reads a 12-hour label "H:MM AM" or "H:MM PM" back as minutes after
      midnight: a PM hour below 12 is an afternoon hour. */
  function LabelMinutes(l: string): Option<nat>
  {
    if |l| >= 7 && l[|l| - 6] == ':' && Text.IsDigit(l[|l| - 5]) && Text.IsDigit(l[|l| - 4])
       && IsSuffix(l[|l| - 3], l[|l| - 2], l[|l| - 1])
       && forall i :: 0 <= i < |l| - 6 ==> Text.IsDigit(l[i])
    then
      var h := Text.ParseDigits(l[..|l| - 6]);
      var hour := if l[|l| - 2] == 'P' && h < 12 then h + 12 else h;
      Some(hour * 60 + Text.DigitValue(l[|l| - 5]) * 10 + Text.DigitValue(l[|l| - 4]))
    else None
  }

  /** The label names the slot's time exactly, for every time of day. */
  lemma SlotLabelReadsBack(hour: nat, minute: nat)
    requires hour < 24 && minute < 60
    ensures LabelMinutes(SlotLabel(hour, minute)) == Some(hour * 60 + minute)
  {
    var n := if hour > 12 then hour - 12 else hour;
    LabelOfHourReadsBack(SlotLabel(hour, minute), Text.NatToString(n), Text.Pad2(minute), hour, minute);
  }

  /** Any string shaped like the label of `hour:minute` reads back as that time. */
  lemma LabelOfHourReadsBack(l: string, h: string, m: string, hour: nat, minute: nat)
    requires hour < 24 && |h| >= 1
    requires forall i :: 0 <= i < |h| ==> Text.IsDigit(h[i])
    requires Text.ParseDigits(h) == (if hour > 12 then hour - 12 else hour)
    requires |m| == 2 && Text.IsDigit(m[0]) && Text.IsDigit(m[1])
    requires Text.DigitValue(m[0]) * 10 + Text.DigitValue(m[1]) == minute
    requires |l| == |h| + 6 && l[..|h|] == h && l[|h|] == ':' && l[|h| + 1..|h| + 3] == m
    requires l[|l| - 3..] == (if hour >= 12 then " PM" else " AM")
    ensures LabelMinutes(l) == Some(hour * 60 + minute)
  {
    var n := if hour > 12 then hour - 12 else hour;
    assert l[|l| - 5] == l[|h| + 1..|h| + 3][0];
    assert l[|l| - 4] == l[|h| + 1..|h| + 3][1];
    var suffix := l[|l| - 3..];
    assert l[|l| - 3] == suffix[0] && l[|l| - 2] == suffix[1] && l[|l| - 1] == suffix[2];
    assert suffix[0] == ' ' && suffix[1] == (if hour >= 12 then 'P' else 'A') && suffix[2] == 'M';
    LabelPartsRead(l, h, n, m, minute, hour >= 12);
    assert (if hour >= 12 && n < 12 then n + 12 else n) == hour;
  }

  /** A label assembled from an hour's digits, a colon, two minute digits and
      a suffix reads back as that time. */
  lemma LabelPartsRead(l: string, h: string, n: nat, m: string, minute: nat, pm: bool)
    requires |l| >= 7 && l[|l| - 6] == ':'
    requires forall i :: 0 <= i < |h| ==> Text.IsDigit(h[i])
    requires l[..|l| - 6] == h && Text.ParseDigits(h) == n
    requires |m| == 2 && Text.IsDigit(m[0]) && Text.IsDigit(m[1])
    requires Text.DigitValue(m[0]) * 10 + Text.DigitValue(m[1]) == minute
    requires l[|l| - 5] == m[0] && l[|l| - 4] == m[1]
    requires l[|l| - 3] == ' ' && l[|l| - 2] == (if pm then 'P' else 'A') && l[|l| - 1] == 'M'
    ensures LabelMinutes(l) == Some((if pm && n < 12 then n + 12 else n) * 60 + minute)
  {
    assert forall i :: 0 <= i < |l| - 6 ==> l[i] == h[i];
  }

  /** Reads "HH:MM" back as minutes after midnight. */
  function MinutesOf(v: string): Option<nat>
  {
    if |v| == 5 && Text.IsDigit(v[0]) && Text.IsDigit(v[1]) && v[2] == ':'
       && Text.IsDigit(v[3]) && Text.IsDigit(v[4])
    then Some((Text.DigitValue(v[0]) * 10 + Text.DigitValue(v[1])) * 60
              + Text.DigitValue(v[3]) * 10 + Text.DigitValue(v[4]))
    else None
  }

  /** The value string names the slot's time exactly. */
  lemma SlotValueReadsBack(hour: nat, minute: nat)
    requires hour < 100 && minute < 100
    ensures MinutesOf(SlotValue(hour, minute)) == Some(hour * 60 + minute)
  {
    var v := SlotValue(hour, minute);
    assert v[0] == Text.Pad2(hour)[0] && v[1] == Text.Pad2(hour)[1];
    assert v[3] == Text.Pad2(minute)[0] && v[4] == Text.Pad2(minute)[1];
  }

  /** The slots of every hour from 07 up to, not including, `hour`. */
  function SlotsBefore(hour: nat): (r: seq<TimeSlot>)
    requires 7 <= hour <= 20
    ensures |r| == 2 * (hour - 7)
  {
    if hour == 7 then [] else SlotsBefore(hour - 1) + [TimeSlot(hour - 1, 0), TimeSlot(hour - 1, 30)]
  }

  /** The k-th slot falls at hour 7 + k / 2, on the hour for even k and at half past for odd k. */
  lemma {:induction false} SlotsBeforeAt(hour: nat, k: nat)
    requires 7 <= hour <= 20 && k < 2 * (hour - 7)
    ensures SlotsBefore(hour)[k] == TimeSlot(7 + k / 2, 30 * (k % 2))
  {
    if k < 2 * (hour - 8) {
      SlotsBeforeAt(hour - 1, k);
    } else {
      assert k / 2 == hour - 8;
    }
  }

  lemma SlotTime(hour: nat, k: nat)
    requires 7 <= hour <= 20 && k < 2 * (hour - 7)
    ensures var t := SlotsBefore(hour)[k];
      && t.hour < 24 && t.minute < 60
      && t.hour * 60 + t.minute == 420 + 30 * k
      && MinutesOf(SlotValue(t.hour, t.minute)) == Some(420 + 30 * k)
  {
    SlotsBeforeAt(hour, k);
    var q, r := k / 2, k % 2;
    assert k == 2 * q + r && r < 2;
    KthSlot(SlotsBefore(hour)[k], k, q, r);
  }

  /** The slot at 7:00 plus k = 2q + r half hours, for any of the 26, is a
      valid time whose value string reads back as it. */
  lemma KthSlot(t: TimeSlot, k: nat, q: nat, r: nat)
    requires k == 2 * q + r && r < 2 && k < 26 && t == TimeSlot(7 + q, 30 * r)
    ensures t.hour < 24 && t.minute < 60
    ensures t.hour * 60 + t.minute == 420 + 30 * k
    ensures MinutesOf(SlotValue(t.hour, t.minute)) == Some(420 + 30 * k)
  {
    assert t.hour == 7 + q && t.minute == 30 * r;
    assert t.hour * 60 + t.minute == 420 + 30 * k;
    ValueReadsBackAs(t.hour, t.minute, 420 + 30 * k);
  }

  lemma ValueReadsBackAs(hour: nat, minute: nat, n: nat)
    requires hour < 100 && minute < 100 && n == hour * 60 + minute
    ensures MinutesOf(SlotValue(hour, minute)) == Some(n)
  {
    SlotValueReadsBack(hour, minute);
  }

  /** Every half hour from 07:00 to 19:30: 26 slots, the k-th at 07:00 plus
      30·k minutes, so strictly ascending and evenly spaced, and each value
      string reads back as its slot's time (`SlotLabelReadsBack` does the same
      for the labels). */
  method GenerateTimeSlots() returns (slots: seq<TimeSlot>)
    ensures |slots| == 26
    ensures forall k :: 0 <= k < |slots| ==> slots[k].hour < 24 && slots[k].minute < 60
    ensures forall k :: 0 <= k < |slots| ==> slots[k].hour * 60 + slots[k].minute == 420 + 30 * k
    ensures forall k :: 0 <= k < |slots| ==>
      MinutesOf(SlotValue(slots[k].hour, slots[k].minute)) == Some(420 + 30 * k)
  {
    slots := [];
    var hour := 7;
    while hour <= 19
      invariant 7 <= hour <= 20
      invariant slots == SlotsBefore(hour)
    {
      var minutes := [0, 30];
      var m := 0;
      while m < 2
        invariant 0 <= m <= 2
        invariant slots == SlotsBefore(hour) + [TimeSlot(hour, 0), TimeSlot(hour, 30)][..m]
      {
        var minute := minutes[m];
        slots := slots + [TimeSlot(hour, minute)];
        m := m + 1;
      }
      assert [TimeSlot(hour, 0), TimeSlot(hour, 30)][..2] == [TimeSlot(hour, 0), TimeSlot(hour, 30)];
      hour := hour + 1;
    }
    forall k | 0 <= k < |slots|
      ensures slots[k].hour < 24 && slots[k].minute < 60
      ensures slots[k].hour * 60 + slots[k].minute == 420 + 30 * k
      ensures MinutesOf(SlotValue(slots[k].hour, slots[k].minute)) == Some(420 + 30 * k)
    {
      SlotTime(hour, k);
    }
  }

  lemma ThirtyDigits()
    ensures Text.NatToString(30) == "30"
  {
    assert Text.NatToString(30) == Text.NatToString(3) + [Text.DigitChar(0)];
  }

  lemma MorningLabel()
    ensures SlotLabel(7, 0) == "7:00 AM"
  {
    assert Text.Pad2(0) == "00" by {
      assert Text.NatToString(0) == "0";
    }
    assert Text.NatToString(7) == "7";
    calc {
      SlotLabel(7, 0);
      Text.NatToString(7) + ":" + Text.Pad2(0) + " AM";
      "7" + ":" + "00" + " AM";
    }
  }

  lemma NoonLabel()
    ensures SlotLabel(12, 0) == "12:00 PM"
  {
    assert Text.NatToString(12) == "12" by {
      assert Text.NatToString(12) == Text.NatToString(1) + [Text.DigitChar(2)];
    }
    assert Text.Pad2(0) == "00" by {
      assert Text.NatToString(0) == "0";
    }
    calc {
      SlotLabel(12, 0);
      Text.NatToString(12) + ":" + Text.Pad2(0) + " PM";
      "12" + ":" + "00" + " PM";
    }
  }

  lemma AfternoonLabel()
    ensures SlotLabel(13, 30) == "1:30 PM"
  {
    ThirtyDigits();
    assert Text.Pad2(30) == "30";
    assert Text.NatToString(1) == "1";
    calc {
      SlotLabel(13, 30);
      Text.NatToString(1) + ":" + Text.Pad2(30) + " PM";
      "1" + ":" + "30" + " PM";
    }
  }

  lemma EveningLabel()
    ensures SlotLabel(19, 30) == "7:30 PM"
  {
    ThirtyDigits();
    assert Text.Pad2(30) == "30";
    assert Text.NatToString(7) == "7";
    calc {
      SlotLabel(19, 30);
      Text.NatToString(7) + ":" + Text.Pad2(30) + " PM";
      "7" + ":" + "30" + " PM";
    }
  }

  // ---------------------------------------------------------------- form rules

  datatype CheckoutForm = CheckoutForm(customerName: string, customerPhone: string, pickupTime: string)

  /** The characters of the regular-expression class `\s`. */
  predicate IsSpace(c: char)
  {
    || c == '\t' || c == '\n' || c == '\U{000B}' || c == '\U{000C}' || c == '\r' || c == ' '
    || c == '\U{00A0}' || c == '\U{1680}' || '\U{2000}' <= c <= '\U{200A}'
    || c == '\U{2028}' || c == '\U{2029}' || c == '\U{202F}' || c == '\U{205F}'
    || c == '\U{3000}' || c == '\U{FEFF}'
  }

  /** One character of `[\d\s\-+()]`. */
  predicate IsPhoneChar(c: char)
  {
    Text.IsDigit(c) || IsSpace(c) || c == '-' || c == '+' || c == '(' || c == ')'
  }

  datatype FieldError = NameTooShort | PhoneTooShort | PhoneNotValid

  /** The schema's findings, in field order; an empty list lets the form submit.
      Lengths are counted in UTF-16 code units, as the browser does. */
  function Validate(form: CheckoutForm): (errors: seq<FieldError>)
    ensures NameTooShort in errors <==> Text.Utf16Length(form.customerName) < 2
    ensures PhoneTooShort in errors <==> Text.Utf16Length(form.customerPhone) < 10
    ensures PhoneNotValid in errors <==>
      form.customerPhone == [] || exists i :: 0 <= i < |form.customerPhone| && !IsPhoneChar(form.customerPhone[i])
    ensures errors == [] <==>
      && Text.Utf16Length(form.customerName) >= 2
      && |form.customerPhone| >= 10
      && forall i :: 0 <= i < |form.customerPhone| ==> IsPhoneChar(form.customerPhone[i])
  {
    var phone := form.customerPhone;
    var allowed := phone != [] && forall i :: 0 <= i < |phone| ==> IsPhoneChar(phone[i]);
    assert allowed ==> Text.Utf16Length(phone) == |phone| by {
      if allowed {
        PhoneCharsAreSingleUnits(phone);
      }
    }
    (if Text.Utf16Length(form.customerName) < 2 then [NameTooShort] else [])
    + (if Text.Utf16Length(phone) < 10 then [PhoneTooShort] else [])
    + (if allowed then [] else [PhoneNotValid])
  }

  /** Every character the phone pattern admits is a single UTF-16 unit. */
  lemma {:induction false} PhoneCharsAreSingleUnits(s: string)
    requires forall i :: 0 <= i < |s| ==> IsPhoneChar(s[i])
    ensures Text.Utf16Length(s) == |s|
  {
    if s != [] {
      PhoneCharsAreSingleUnits(s[..|s| - 1]);
    }
  }

  // ---------------------------------------------------------------- screens and submission

  /** What the page shows, checked in this order. */
  datatype Screen = EmptyCart | SelectBranch | BranchClosed | OrderForm

  function ScreenFor(s: Store.State): (v: Screen)
    ensures v == EmptyCart <==> s.cart == []
    ensures v == SelectBranch <==> s.cart != [] && s.selectedBranch.None?
    ensures v == BranchClosed <==> s.cart != [] && s.selectedBranch.Some? && !s.selectedBranch.value.isOpen
    ensures v == OrderForm <==> s.cart != [] && s.selectedBranch.Some? && s.selectedBranch.value.isOpen
  {
    if |s.cart| == 0 then EmptyCart
    else if s.selectedBranch.None? then SelectBranch
    else if !s.selectedBranch.value.isOpen then BranchClosed
    else OrderForm
  }

  /** Submitting the form when nothing else happens during the payment wait:
      an order is placed only from the order form with a valid form; otherwise
      nothing changes. `Session` models the wait as two events, with any
      button allowed in between. */
  function Submit(s: Store.State, form: CheckoutForm, now: nat, orderNumber: string, createdAt: string)
    : (r: (Store.State, Option<Order>))
    ensures r.1.None? ==> r.0 == s
    ensures r.1.Some? <==> ScreenFor(s) == OrderForm && Validate(form) == []
    ensures r.1.Some? ==>
      && r.0.cart == [] && r.0.orders == s.orders + [r.1.value]
      && r.1.value.items == s.cart && r.1.value.subtotal == Store.CartTotal(s.cart)
      && r.1.value.branchId == s.selectedBranch.value.id
      && r.1.value.customerName == form.customerName && r.1.value.customerPhone == form.customerPhone
      && r.1.value.pickupTime == Some(form.pickupTime)
  {
    if ScreenFor(s) != OrderForm || Validate(form) != [] then (s, None)
    else
      var (s', order) := Store.CreateOrder(s, form.customerName, form.customerPhone, Some(form.pickupTime),
                                           now, orderNumber, createdAt);
      (s', Some(order))
  }

  // ---------------------------------------------------------------- summary

  /** The amount shown beside one row of the summary. */
  function SummaryLine(item: CartItem): real
  {
    var itemTotal := item.unitPrice * item.quantity as real;
    if item.subscriptionPlan.Some? then itemTotal * (1.0 - item.subscriptionPlan.value.discount / 100.0)
    else itemTotal
  }

  predicate InCatalogue(products: seq<Product>, productId: string)
  {
    exists i :: 0 <= i < |products| && products[i].id == productId
  }

  /** The rows the summary lists: rows whose product is missing from the catalogue are skipped. */
  function ShownRows(cart: seq<CartItem>, products: seq<Product>): seq<CartItem>
  {
    Seqs.Filter(cart, (item: CartItem) => InCatalogue(products, item.productId))
  }

  /** The summary's lines use the store's per-row formula, so when every
      product is in the catalogue they add up to the subtotal shown. */
  lemma SummaryAddsUpToSubtotal(cart: seq<CartItem>, products: seq<Product>)
    requires forall i :: 0 <= i < |cart| ==> InCatalogue(products, cart[i].productId)
    ensures ShownRows(cart, products) == cart
    ensures Seqs.SumReal(ShownRows(cart, products), SummaryLine) == Store.CartTotal(cart)
  {
    Seqs.FilterKeepsAll(cart, (item: CartItem) => InCatalogue(products, item.productId));
    Seqs.SumRealPointwise(cart, SummaryLine, Store.LineTotal);
  }

  function Taxes(subtotal: real): real
  {
    subtotal * 0.2
  }

  /** The total shown is the subtotal plus the taxes shown. */
  function ShownTotal(subtotal: real): (t: real)
    ensures t == subtotal + Taxes(subtotal)
  {
    subtotal * 1.2
  }

  /** The order records the subtotal as its total, so the total the page shows
      (taxes included) matches the recorded one only for a free cart. */
  lemma RecordedTotalOmitsTaxes(s: Store.State, form: CheckoutForm, now: nat, orderNumber: string, createdAt: string)
    requires Submit(s, form, now, orderNumber, createdAt).1.Some?
    ensures var o := Submit(s, form, now, orderNumber, createdAt).1.value;
      && o.total == Store.CartTotal(s.cart)
      && (ShownTotal(o.subtotal) == o.total <==> Store.CartTotal(s.cart) == 0.0)
  {
  }
}
