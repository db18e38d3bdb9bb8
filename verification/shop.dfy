/** The shop page's product list: four filters (category, roast, tasting
    notes, free-text search) applied to the catalogue, then one of four sorts;
    plus the active-filter badge, "clear all" and the tasting-note toggle. */
module Shop {
  import opened Types
  import Text
  import Seqs

  /** A select box whose first entry is "all". */
  datatype Choice<T> = All | Only(value: T)

  /** The sort select; an unknown value behaves as `Featured`. */
  datatype SortOption = Featured | PriceLow | PriceHigh | ByName

  /** The category select holds a raw string: the address's `?category=`
      value is taken as it is, without checking that such a category exists.
      The page's string "all" is `All`, so `Only("all")` stands for no state
      of the page: `InitialFilters`, `SetCategory` and `ClearFilters` never build it. */
  datatype Filters = Filters(
    category: Choice<string>,
    roast: Choice<RoastLevel>,
    notes: seq<string>,
    query: string,
    sortBy: SortOption)

  /** The page opens with the category from the address and nothing else
      chosen; a missing or empty value, and the value "all", select every category. */
  function InitialFilters(fromAddress: Option<string>): (f: Filters)
    ensures f.sortBy == Featured && f.query == "" && f.notes == [] && f.roast.All?
    ensures f.category.Only? <==> fromAddress.Some? && fromAddress.value != "" && fromAddress.value != "all"
    ensures f.category.Only? ==> f.category.value == fromAddress.value
    ensures f.category != Only("all")
  {
    var selected := match fromAddress case Some(c) => c case None => "";
    var category := if selected == "" || selected == "all" then All else Only(selected);
    Filters(category, All, [], "", Featured)
  }

  // ---------------------------------------------------------------- filters

  predicate InCategory(p: Product, c: Choice<string>)
  {
    c.All? || CategoryName(p.category) == c.value
  }

  predicate HasRoast(p: Product, r: Choice<RoastLevel>)
  {
    r.All? || p.roastLevel == r.value
  }

  /** With notes selected, a product needs at least one of them. */
  predicate HasSomeNote(p: Product, notes: seq<string>)
  {
    notes == [] || exists i :: 0 <= i < |notes| && notes[i] in p.tastingNotes
  }

  /** Whether the lower-cased query occurs in the lower-cased name, description,
      one of the tasting notes or the origin. An empty query matches everything. */
  predicate MatchesQuery(p: Product, query: string)
  {
    query == "" ||
    var q := Text.ToLower(query);
    || Text.Includes(Text.ToLower(p.name), q)
    || Text.Includes(Text.ToLower(p.description), q)
    || (exists i :: 0 <= i < |p.tastingNotes| && Text.Includes(Text.ToLower(p.tastingNotes[i]), q))
    || Text.Includes(Text.ToLower(p.origin), q)
  }

  predicate Passes(p: Product, f: Filters)
  {
    InCategory(p, f.category) && HasRoast(p, f.roast) && HasSomeNote(p, f.notes) && MatchesQuery(p, f.query)
  }

  /** One filter step, skipped when its control is at its neutral setting. */
  function Stage(s: seq<Product>, active: bool, keep: Product -> bool): (r: seq<Product>)
    ensures forall x :: x in r ==> x in s && (active ==> keep(x))
    ensures forall x :: x in s && keep(x) ==> x in r
    ensures multiset(r) <= multiset(s)
  {
    if active then
      Seqs.FilterSubMultiset(s, keep);
      Seqs.Filter(s, keep)
    else s
  }

  /** The four filters, applied one after the other as the page does. */
  function FilterProducts(catalogue: seq<Product>, f: Filters): (r: seq<Product>)
    ensures forall x :: x in r <==> x in catalogue && Passes(x, f)
    ensures multiset(r) <= multiset(catalogue)
  {
    var a := Stage(catalogue, f.category.Only?, (p: Product) => InCategory(p, f.category));
    var b := Stage(a, f.roast.Only?, (p: Product) => HasRoast(p, f.roast));
    var c := Stage(b, |f.notes| > 0, (p: Product) => HasSomeNote(p, f.notes));
    Stage(c, f.query != "", (p: Product) => MatchesQuery(p, f.query))
  }

  /** An address naming no category lets no product through: the page opens
      on an empty list. */
  lemma UnknownCategoryShowsNothing(catalogue: seq<Product>, name: string)
    requires name != "" && name != "all"
    requires forall c: Category :: CategoryName(c) != name
    ensures FilterProducts(catalogue, InitialFilters(Some(name))) == []
  {
  }

  /** The search ignores the case of the query. */
  lemma QueryCaseIgnored(p: Product, query: string)
    ensures MatchesQuery(p, query) <==> MatchesQuery(p, Text.ToLower(query))
  {
    Text.ToLowerIdempotent(query);
  }

  // ---------------------------------------------------------------- sorting

  /** The selected branch's price list; empty when no branch is selected. */
  function CurrentBranchProducts(branch: Option<Branch>, all: seq<BranchProduct>): (r: seq<BranchProduct>)
    ensures branch.None? ==> r == []
    ensures branch.Some? ==> forall i :: 0 <= i < |r| ==> r[i].branchId == branch.value.id && r[i] in all
    ensures branch.Some? ==> forall i :: 0 <= i < |all| && all[i].branchId == branch.value.id ==> all[i] in r
    ensures Seqs.IsSubseq(r, all)
  {
    match branch
    case None => []
    case Some(b) =>
      Seqs.FilterIsSubseq(all, (bp: BranchProduct) => bp.branchId == b.id);
      Seqs.Filter(all, (bp: BranchProduct) => bp.branchId == b.id)
  }

  /** Position `k` holds the first entry for the product. */
  ghost predicate FirstEntryAt(current: seq<BranchProduct>, productId: string, k: int)
  {
    0 <= k < |current| && current[k].productId == productId
    && forall j :: 0 <= j < k ==> current[j].productId != productId
  }

  /** The first entry for a product (`find`). */
  function FindBranchProduct(current: seq<BranchProduct>, productId: string): (r: Option<BranchProduct>)
    ensures r.Some? ==> exists k :: FirstEntryAt(current, productId, k) && current[k] == r.value
    ensures r.None? <==> forall i :: 0 <= i < |current| ==> current[i].productId != productId
  {
    if current == [] then None
    else if current[0].productId == productId then
      assert FirstEntryAt(current, productId, 0);
      Some(current[0])
    else
      var r := FindBranchProduct(current[1..], productId);
      FirstEntryShift(current, productId, r);
      r
  }

  /** The first entry for a product in the tail is the first in the whole
      list when the head is for another product. */
  lemma FirstEntryShift(current: seq<BranchProduct>, productId: string, r: Option<BranchProduct>)
    requires current != [] && current[0].productId != productId
    requires r.Some? ==> exists k :: FirstEntryAt(current[1..], productId, k) && current[1..][k] == r.value
    ensures r.Some? ==> exists k :: FirstEntryAt(current, productId, k) && current[k] == r.value
  {
    if r.Some? {
      var k :| FirstEntryAt(current[1..], productId, k) && current[1..][k] == r.value;
      assert current[k + 1] == r.value;
      forall j | 0 <= j < k + 1
        ensures current[j].productId != productId
      {
        if j > 0 { assert current[j] == current[1..][j - 1]; }
      }
      assert FirstEntryAt(current, productId, k + 1);
    }
  }

  /** A product's price at the branch; a missing entry reads as 0. */
  function PriceOf(current: seq<BranchProduct>, productId: string): real
  {
    match FindBranchProduct(current, productId)
    case Some(bp) => bp.price
    case None => 0.0
  }

  function IsFeatured(current: seq<BranchProduct>, productId: string): bool
  {
    match FindBranchProduct(current, productId)
    case Some(bp) => bp.featured
    case None => false
  }

  function PriceKey(current: seq<BranchProduct>): Product -> real
  {
    (p: Product) => PriceOf(current, p.id)
  }

  function NegatedPriceKey(current: seq<BranchProduct>): Product -> real
  {
    (p: Product) => -PriceOf(current, p.id)
  }

  /** The comparator "featured first, otherwise equal" as a key. */
  function FeaturedKey(current: seq<BranchProduct>): Product -> real
  {
    (p: Product) => if IsFeatured(current, p.id) then 0.0 else 1.0
  }

  /** `nameRank` stands for the locale's collation order of names. */
  function NameKey(nameRank: string -> real): Product -> real
  {
    (p: Product) => nameRank(p.name)
  }

  /** The key the selected sort orders by: the price sorts need a branch and
      otherwise fall through to "featured". */
  function SortKey(sortBy: SortOption, branch: Option<Branch>, current: seq<BranchProduct>,
                   nameRank: string -> real): Product -> real
  {
    if sortBy == PriceLow && branch.Some? then PriceKey(current)
    else if sortBy == PriceHigh && branch.Some? then NegatedPriceKey(current)
    else if sortBy == ByName then NameKey(nameRank)
    else FeaturedKey(current)
  }

  /** The list the shop page shows. */
  function FilteredProducts(catalogue: seq<Product>, f: Filters, branch: Option<Branch>,
                            branchProducts: seq<BranchProduct>, nameRank: string -> real): (r: seq<Product>)
    ensures forall x :: x in r <==> x in catalogue && Passes(x, f)
    ensures multiset(r) <= multiset(catalogue)
    ensures multiset(r) == multiset(FilterProducts(catalogue, f))
  {
    var current := CurrentBranchProducts(branch, branchProducts);
    var filtered := FilterProducts(catalogue, f);
    var r := Seqs.SortBy(filtered, SortKey(f.sortBy, branch, current, nameRank));
    assert forall x :: x in r <==> x in filtered by {
      forall x
        ensures x in r <==> x in filtered
      {
        assert x in r <==> x in multiset(r);
        assert x in filtered <==> x in multiset(filtered);
      }
    }
    r
  }

  /** With a branch, "price_low" lists cheapest first and "price_high" dearest first. */
  lemma PriceSortsOrderByBranchPrice(catalogue: seq<Product>, f: Filters, branch: Option<Branch>,
                                     branchProducts: seq<BranchProduct>, nameRank: string -> real)
    requires branch.Some?
    ensures var r := FilteredProducts(catalogue, f, branch, branchProducts, nameRank);
      var current := CurrentBranchProducts(branch, branchProducts);
      && (f.sortBy == PriceLow ==>
            forall i, j :: 0 <= i < j < |r| ==> PriceOf(current, r[i].id) <= PriceOf(current, r[j].id))
      && (f.sortBy == PriceHigh ==>
            forall i, j :: 0 <= i < j < |r| ==> PriceOf(current, r[i].id) >= PriceOf(current, r[j].id))
  {
    var r := FilteredProducts(catalogue, f, branch, branchProducts, nameRank);
    var current := CurrentBranchProducts(branch, branchProducts);
    var key := SortKey(f.sortBy, branch, current, nameRank);
    assert Seqs.SortedBy(r, key);
    if f.sortBy == PriceHigh {
      forall i, j | 0 <= i < j < |r|
        ensures PriceOf(current, r[i].id) >= PriceOf(current, r[j].id)
      {
        assert key(r[i]) <= key(r[j]);
      }
    }
  }

  /** The featured sort (also reached by a price sort without a branch) lists
      the branch's featured products first, each group in catalogue order. */
  lemma FeaturedSortPutsFeaturedFirst(catalogue: seq<Product>, f: Filters, branch: Option<Branch>,
                                      branchProducts: seq<BranchProduct>, nameRank: string -> real)
    requires f.sortBy == Featured || ((f.sortBy == PriceLow || f.sortBy == PriceHigh) && branch.None?)
    ensures var r := FilteredProducts(catalogue, f, branch, branchProducts, nameRank);
      var current := CurrentBranchProducts(branch, branchProducts);
      && (forall i, j :: 0 <= i < j < |r| && IsFeatured(current, r[j].id) ==> IsFeatured(current, r[i].id))
      && Seqs.Filter(r, Seqs.HasKey(FeaturedKey(current), 0.0))
         == Seqs.Filter(FilterProducts(catalogue, f), Seqs.HasKey(FeaturedKey(current), 0.0))
      && Seqs.Filter(r, Seqs.HasKey(FeaturedKey(current), 1.0))
         == Seqs.Filter(FilterProducts(catalogue, f), Seqs.HasKey(FeaturedKey(current), 1.0))
  {
    var current := CurrentBranchProducts(branch, branchProducts);
    assert SortKey(f.sortBy, branch, current, nameRank) == FeaturedKey(current);
    FeaturedFirst(FilterProducts(catalogue, f), current);
  }

  /** Sorting any list by the featured key puts featured products first and
      keeps each group in its order. */
  lemma FeaturedFirst(filtered: seq<Product>, current: seq<BranchProduct>)
    ensures var key := FeaturedKey(current);
      var r := Seqs.SortBy(filtered, key);
      && (forall i, j :: 0 <= i < j < |r| && IsFeatured(current, r[j].id) ==> IsFeatured(current, r[i].id))
      && Seqs.Filter(r, Seqs.HasKey(key, 0.0)) == Seqs.Filter(filtered, Seqs.HasKey(key, 0.0))
      && Seqs.Filter(r, Seqs.HasKey(key, 1.0)) == Seqs.Filter(filtered, Seqs.HasKey(key, 1.0))
  {
    var key := FeaturedKey(current);
    var r := Seqs.SortBy(filtered, key);
    forall i, j | 0 <= i < j < |r| && IsFeatured(current, r[j].id)
      ensures IsFeatured(current, r[i].id)
    {
      assert key(r[i]) <= key(r[j]);
    }
    Seqs.SortByIsStable(filtered, key, 0.0);
    Seqs.SortByIsStable(filtered, key, 1.0);
  }

  /** Without a branch nothing is featured, so every sort but "name" keeps the filtered order. */
  lemma NoBranchKeepsOrder(catalogue: seq<Product>, f: Filters, branchProducts: seq<BranchProduct>,
                           nameRank: string -> real)
    requires f.sortBy != ByName
    ensures FilteredProducts(catalogue, f, None, branchProducts, nameRank) == FilterProducts(catalogue, f)
  {
    var key := FeaturedKey([]);
    var s := FilterProducts(catalogue, f);
    assert CurrentBranchProducts(None, branchProducts) == [];
    assert SortKey(f.sortBy, None, [], nameRank) == key;
    assert forall i :: 0 <= i < |s| ==> key(s[i]) == 1.0;
    assert Seqs.SortedBy(s, key);
    Seqs.SortBySorted(s, key);
  }

  /** The "name" sort orders by the collation rank of the names. */
  lemma NameSortOrdersByName(catalogue: seq<Product>, f: Filters, branch: Option<Branch>,
                             branchProducts: seq<BranchProduct>, nameRank: string -> real)
    requires f.sortBy == ByName
    ensures var r := FilteredProducts(catalogue, f, branch, branchProducts, nameRank);
      forall i, j :: 0 <= i < j < |r| ==> nameRank(r[i].name) <= nameRank(r[j].name)
  {
    var current := CurrentBranchProducts(branch, branchProducts);
    var key := SortKey(f.sortBy, branch, current, nameRank);
    var r := FilteredProducts(catalogue, f, branch, branchProducts, nameRank);
    forall i, j | 0 <= i < j < |r|
      ensures nameRank(r[i].name) <= nameRank(r[j].name)
    {
      assert key(r[i]) <= key(r[j]);
    }
  }

  // ---------------------------------------------------------------- filter controls

  /** The number on the filter button. */
  function ActiveFiltersCount(f: Filters): (n: nat)
    ensures n == 0 <==> f.category.All? && f.roast.All? && f.notes == []
    ensures n >= |f.notes|
  {
    (if f.category.Only? then 1 else 0) + (if f.roast.Only? then 1 else 0) + |f.notes|
  }

  /** The category tabs and the category badge's cross set the raw string;
      "all" switches the category filter off. */
  function SetCategory(f: Filters, value: string): (r: Filters)
    ensures r.category.All? <==> value == "all"
    ensures r.category.Only? ==> r.category.value == value
    ensures r.category != Only("all")
    ensures r.roast == f.roast && r.notes == f.notes && r.query == f.query && r.sortBy == f.sortBy
  {
    f.(category := if value == "all" then All else Only(value))
  }

  /** Switching the category off by its badge takes one off the filter count
      and brings back every product the other filters pass. */
  lemma CategoryBadgeClears(catalogue: seq<Product>, f: Filters)
    requires f.category.Only?
    ensures ActiveFiltersCount(SetCategory(f, "all")) == ActiveFiltersCount(f) - 1
    ensures forall p :: p in FilterProducts(catalogue, f) ==> p in FilterProducts(catalogue, SetCategory(f, "all"))
  {
  }

  function ClearFilters(f: Filters): Filters
  {
    f.(category := All, roast := All, notes := [], query := "")
  }

  /** "Clear all" zeroes the badge, empties the search, keeps the sort and
      brings back the whole catalogue. */
  lemma ClearFiltersResets(catalogue: seq<Product>, f: Filters)
    ensures ActiveFiltersCount(ClearFilters(f)) == 0
    ensures ClearFilters(f).query == "" && ClearFilters(f).sortBy == f.sortBy
    ensures FilterProducts(catalogue, ClearFilters(f)) == catalogue
  {
  }

  function Unequal(note: string): string -> bool
  {
    (n: string) => n != note
  }

  /** Clicking a tasting-note badge: deselects it if selected, otherwise adds it at the end. */
  function ToggleNote(notes: seq<string>, note: string): (r: seq<string>)
    ensures note in r <==> note !in notes
    ensures forall i :: 0 <= i < |notes| && notes[i] != note ==> notes[i] in r
    ensures forall i :: 0 <= i < |r| && r[i] != note ==> r[i] in notes
  {
    if note in notes then Seqs.Filter(notes, Unequal(note)) else notes + [note]
  }

  /** Toggling an unselected note twice restores the selection. */
  lemma ToggleTwiceRestores(notes: seq<string>, note: string)
    requires note !in notes
    ensures ToggleNote(ToggleNote(notes, note), note) == notes
  {
    Seqs.FilterConcat(notes, [note], Unequal(note));
    Seqs.FilterKeepsAll(notes, Unequal(note));
    assert Seqs.Filter([note], Unequal(note)) == [];
  }

  /** Toggling never selects a note twice, so the badge counts distinct notes. */
  lemma ToggleKeepsNotesDistinct(notes: seq<string>, note: string)
    requires Seqs.NoDuplicates(notes)
    ensures Seqs.NoDuplicates(ToggleNote(notes, note))
  {
    if note in notes {
      Seqs.FilterKeepsNoDuplicates(notes, Unequal(note));
    }
  }
}
