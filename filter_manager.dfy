/** refactored/filterManager.js: the category filter list with its "all"
    sentinel, the search term, and which sections and cards stay visible.
    A filter button's "active" class is taken to be membership of its title
    in the filter list. */
module FilterManager {
  import opened Wrappers
  import opened Json
  import opened JsText

  const All := "all"

  /** `filters.filter(cat => cat !== category)`. */
  function Without(filters: seq<string>, category: string): (r: seq<string>)
    ensures forall x :: x in r <==> x in filters && x != category
    ensures |r| <= |filters|
    ensures |r| == 0 <==> forall x :: x in filters ==> x == category
  {
    if |filters| == 0 then []
    else
      var n := |filters| - 1;
      assert forall x :: x in filters <==> x in filters[..n] || x == filters[n];
      var r := Without(filters[..n], category) + (if filters[n] == category then [] else [filters[n]]);
      assert |r| > 0 ==> r[0] in r;
      r
  }

  /** `filters.filter(...)` keeps the other titles in their order. */
  lemma {:induction false} WithoutKeepsOthers(filters: seq<string>, category: string)
    requires category !in filters
    ensures Without(filters, category) == filters
  {
    if |filters| > 0 {
      var n := |filters| - 1;
      var init := filters[..n];
      assert filters[n] != category;
      assert forall k :: 0 <= k < |init| ==> init[k] == filters[k];
      WithoutKeepsOthers(init, category);
      assert init + [filters[n]] == filters;
    }
  }

  /** The filter list after toggleCategoryFilter (refactored/filterManager.js:45-68):
      an active "all" is dropped first; then an active category is removed
      (every copy of it, falling back to ["all"] when nothing is left) and an
      inactive one appended. */
  function Toggled(filters: seq<string>, category: string): seq<string> {
    var base := if All in filters then [] else filters;
    if category in base then
      var rest := Without(base, category);
      if |rest| == 0 then [All] else rest
    else base + [category]
  }

  /** The shape the list keeps: exactly ["all"], or a non-empty list of
      titles without "all". */
  predicate FiltersWellFormed(filters: seq<string>) {
    filters == [All] || (|filters| > 0 && All !in filters)
  }

  /** Choosing a category while "all" is active selects only that category. */
  lemma ToggleFromAll(filters: seq<string>, category: string)
    requires All in filters
    ensures Toggled(filters, category) == [category]
  {
  }

  /** Choosing an inactive category appends it and changes nothing else. */
  lemma ToggleSelects(filters: seq<string>, category: string)
    requires All !in filters && category !in filters
    ensures Toggled(filters, category) == filters + [category]
  {
  }

  /** Choosing an active category removes every copy of it; the others keep
      their order, and an emptied list falls back to ["all"]. */
  lemma {:induction false} ToggleDeselects(filters: seq<string>, category: string)
    requires All !in filters && category in filters && category != All
    ensures category !in Toggled(filters, category)
    ensures forall x :: x != category && x in filters ==> x in Toggled(filters, category)
    ensures (forall x :: x in filters ==> x == category) <==> Toggled(filters, category) == [All]
  {
    var rest := Without(filters, category);
    if !(forall x :: x in filters ==> x == category) {
      var x :| x in filters && x != category;
      assert x in rest;
    }
  }

  /** Every toggle of a category not titled "all" leaves the list well
      formed, whatever it was before. */
  lemma {:induction false} ToggleKeepsShape(filters: seq<string>, category: string)
    requires category != All
    ensures FiltersWellFormed(Toggled(filters, category))
  {
    var base := if All in filters then [] else filters;
    if category in base {
      var rest := Without(base, category);
      assert All !in rest;
    } else {
      assert All !in base + [category];
    }
  }

  /** Toggling one category twice from ["all"] gives ["all"] back. */
  lemma ToggleTwiceFromAll(category: string)
    ensures Toggled(Toggled([All], category), category) == [All]
  {
    assert Toggled([All], category) == [category];
    if category != All {
      assert Without([category], category) == [];
    }
  }

  // ---------------------------------------------------------------------------
  // Visibility

  /** A card and the `data-text` it carries, when it has one. */
  datatype Card = Card(text: Option<string>)

  /** A `.category-section` with its `data-category` and its cards. */
  datatype Section = Section(category: Option<string>, cards: seq<Card>)

  /** What applyFiltersAndSearch sets: whether the section is displayed, and
      for each card whether it is displayed (None when the section is hidden
      by the filter and its cards are left as they were). */
  datatype SectionView = SectionView(shown: bool, cards: Option<seq<bool>>)

  /** `cardText && cardText.includes(term)`: a card without text never
      matches. */
  predicate CardMatches(card: Card, term: string) {
    card.text.Some? && card.text.value != "" && Contains(card.text.value, term)
  }

  /** `showAll || activeFilters.includes(categoryName)`. */
  predicate CategorySelected(filters: seq<string>, section: Section) {
    All in filters || (section.category.Some? && section.category.value in filters)
  }

  /** The visibility rule: a section is shown iff its category is selected
      and either there is no search term or one of its cards matches the
      term, lower-cased once more (toLowerCase is a parameter). */
  predicate SectionShown(filters: seq<string>, searchTerm: string, lower: string -> string, section: Section) {
    CategorySelected(filters, section) &&
    (searchTerm == "" || exists i :: 0 <= i < |section.cards| && CardMatches(section.cards[i], lower(searchTerm)))
  }

  /** The filter and search state of refactored/filterManager.js
      (`globalState.activeFilters`, `globalState.searchTerm`). */
  class FilterState {
    var activeFilters: seq<string>
    var searchTerm: string

    constructor ()
      ensures activeFilters == [] && searchTerm == ""
    {
      activeFilters := [];
      searchTerm := "";
    }

    /** setupCategoryFilters (refactored/filterManager.js:8-38): nothing
        happens without a document holding truthy categories; otherwise the
        list is reset to ["all"]. */
    method SetupCategoryFilters(jsonData: Json)
      modifies this`activeFilters
      ensures !Truthy(Some(jsonData)) || !Truthy(Prop(jsonData, "categories")) ==> activeFilters == old(activeFilters)
      ensures Truthy(Some(jsonData)) && Truthy(Prop(jsonData, "categories")) ==> activeFilters == [All]
    {
      if !Truthy(Some(jsonData)) || !Truthy(Prop(jsonData, "categories")) {
        return;
      }
      activeFilters := [All];
    }

    /** The "All" button (refactored/filterManager.js:29-37). */
    method SelectAll()
      modifies this`activeFilters
      ensures activeFilters == [All]
    {
      activeFilters := [All];
    }

    /** toggleCategoryFilter (refactored/filterManager.js:45-68). */
    method ToggleCategoryFilter(category: string)
      modifies this`activeFilters
      ensures activeFilters == Toggled(old(activeFilters), category)
      ensures category != All ==> FiltersWellFormed(activeFilters)
    {
      if category != All {
        ToggleKeepsShape(activeFilters, category);
      }
      if All in activeFilters {
        activeFilters := [];
      }
      if category in activeFilters {
        activeFilters := Without(activeFilters, category);
        if |activeFilters| == 0 {
          activeFilters := [All];
        }
      } else {
        activeFilters := activeFilters + [category];
      }
    }

    /** performSearch (refactored/filterManager.js:73-76): the input with
        surrounding white space removed, lower-cased (toLowerCase is a
        parameter). */
    method PerformSearch(input: string, lower: string -> string)
      modifies this`searchTerm
      ensures searchTerm == lower(Trim(input))
    {
      searchTerm := lower(Trim(input));
    }

    /** applyFiltersAndSearch (refactored/filterManager.js:81-116): the view
        of every section. */
    method ApplyFiltersAndSearch(sections: seq<Section>, lower: string -> string) returns (views: seq<SectionView>)
      ensures |views| == |sections|
      ensures forall k :: 0 <= k < |sections| ==> ViewIsCorrect(activeFilters, searchTerm, lower, sections[k], views[k])
    {
      views := [];
      var k := 0;
      while k < |sections|
        invariant 0 <= k <= |sections|
        invariant |views| == k
        invariant forall m :: 0 <= m < k ==> ViewIsCorrect(activeFilters, searchTerm, lower, sections[m], views[m])
      {
        var view := ViewOfSection(activeFilters, searchTerm, lower, sections[k]);
        views := views + [view];
        k := k + 1;
      }
    }
  }

  /** What applyFiltersAndSearch does to one section, the term being
      lower-cased once more before matching: the section is shown iff
      SectionShown holds; a section whose category is not selected keeps its
      cards as they were; otherwise each card is shown iff there is no term or
      it matches. */
  predicate ViewIsCorrect(filters: seq<string>, searchTerm: string, lower: string -> string, section: Section, view: SectionView) {
    && view.shown == SectionShown(filters, searchTerm, lower, section)
    && (!CategorySelected(filters, section) <==> view.cards.None?)
    && (view.cards.Some? ==>
         |view.cards.value| == |section.cards| &&
         forall i :: 0 <= i < |section.cards| ==>
           view.cards.value[i] == (searchTerm == "" || CardMatches(section.cards[i], lower(searchTerm))))
  }

  /** The body of the `sections.forEach` of applyFiltersAndSearch
      (refactored/filterManager.js:86-114), with its `visibleCards` counter. */
  method ViewOfSection(filters: seq<string>, searchTerm: string, lower: string -> string, section: Section) returns (view: SectionView)
    ensures ViewIsCorrect(filters, searchTerm, lower, section, view)
  {
    var showAll := All in filters;
    var selected := showAll || (section.category.Some? && section.category.value in filters);
    if !selected {
      return SectionView(false, None);
    }
    if searchTerm == "" {
      return SectionView(true, Some(seq(|section.cards|, _ => true)));
    }
    var term := lower(searchTerm);
    var shown: seq<bool> := [];
    var visibleCards := 0;
    var i := 0;
    while i < |section.cards|
      invariant 0 <= i <= |section.cards|
      invariant |shown| == i
      invariant forall j :: 0 <= j < i ==> shown[j] == CardMatches(section.cards[j], term)
      invariant (visibleCards > 0) <==> exists j :: 0 <= j < i && CardMatches(section.cards[j], term)
    {
      var card := section.cards[i];
      var matches := card.text.Some? && card.text.value != "" && Contains(card.text.value, term);
      shown := shown + [matches];
      if matches {
        visibleCards := visibleCards + 1;
      }
      i := i + 1;
    }
    view := SectionView(visibleCards > 0, Some(shown));
  }

  /** With no search term, exactly the selected sections are shown. */
  lemma NoSearchShowsSelected(filters: seq<string>, lower: string -> string, section: Section)
    ensures SectionShown(filters, "", lower, section) <==> CategorySelected(filters, section)
  {
  }

  /** With "all" active, a section is shown iff some card matches the term. */
  lemma AllShowsMatching(filters: seq<string>, searchTerm: string, lower: string -> string, section: Section)
    requires All in filters && searchTerm != ""
    ensures SectionShown(filters, searchTerm, lower, section) <==>
            exists i :: 0 <= i < |section.cards| && CardMatches(section.cards[i], lower(searchTerm))
  {
  }
}
