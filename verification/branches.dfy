/** The branch list page: the search box over the branch catalogue and the
    "select this branch for pickup" action. */
module Branches {
  import opened Types
  import Text
  import Seqs
  import Store

  /** A branch matches when the lower-cased query occurs in its lower-cased
      name, area or address. */
  predicate MatchesSearch(b: Branch, query: string)
  {
    var q := Text.ToLower(query);
    Text.Includes(Text.ToLower(b.name), q)
    || Text.Includes(Text.ToLower(b.area), q)
    || Text.Includes(Text.ToLower(b.address), q)
  }

  function SearchFilter(query: string): Branch -> bool
  {
    (b: Branch) => MatchesSearch(b, query)
  }

  /** The branches shown for a search, in catalogue order. */
  function FilterBranches(branches: seq<Branch>, query: string): (r: seq<Branch>)
    ensures forall i :: 0 <= i < |r| ==> r[i] in branches
    ensures forall b :: b in r <==> b in branches && MatchesSearch(b, query)
    ensures Seqs.IsSubseq(r, branches)
  {
    Seqs.FilterIsSubseq(branches, SearchFilter(query));
    Seqs.Filter(branches, SearchFilter(query))
  }

  /** A kept branch carries the lower-cased query somewhere in one of the three fields. */
  lemma MatchMeansOccurrence(b: Branch, query: string)
    ensures MatchesSearch(b, query) <==>
      var q := Text.ToLower(query);
      || (exists i :: Text.OccursAt(Text.ToLower(b.name), q, i))
      || (exists i :: Text.OccursAt(Text.ToLower(b.area), q, i))
      || (exists i :: Text.OccursAt(Text.ToLower(b.address), q, i))
  {
  }

  /** An empty search box shows every branch. */
  lemma {:induction false} EmptyQueryKeepsAll(branches: seq<Branch>)
    ensures FilterBranches(branches, "") == branches
  {
    forall i | 0 <= i < |branches|
      ensures SearchFilter("")(branches[i])
    {
      Text.EmptyIsIncluded(Text.ToLower(branches[i].name));
    }
    Seqs.FilterKeepsAll(branches, SearchFilter(""));
  }

  /** The search ignores the case of the query. */
  lemma QueryCaseIgnored(branches: seq<Branch>, query: string)
    ensures FilterBranches(branches, Text.ToLower(query)) == FilterBranches(branches, query)
  {
    Text.ToLowerIdempotent(query);
    Seqs.FilterAgreeing(branches, SearchFilter(Text.ToLower(query)), SearchFilter(query));
  }

  /** Picking a branch empties the cart, even when it is the branch already
      selected, and switches to pickup. */
  function SelectBranch(s: Store.State, b: Branch): (r: Store.State)
    ensures r.selectedBranch == Some(b) && r.cart == [] && r.orderType == Some(Pickup)
    ensures r.orders == s.orders && r.isCartOpen == s.isCartOpen && r.showEntryModal == s.showEntryModal
  {
    Store.SetOrderType(Store.SetSelectedBranch(s, Some(b)), Some(Pickup))
  }

  /** The card of a branch is highlighted when the selected branch has its id. */
  predicate IsSelected(s: Store.State, b: Branch)
  {
    s.selectedBranch.Some? && s.selectedBranch.value.id == b.id
  }

  /** After picking a branch, exactly the cards with its id are highlighted,
      and picking it again changes nothing further. */
  lemma SelectThenHighlighted(s: Store.State, b: Branch, c: Branch)
    ensures IsSelected(SelectBranch(s, b), c) <==> c.id == b.id
    ensures SelectBranch(SelectBranch(s, b), b) == SelectBranch(s, b)
  {
  }
}
