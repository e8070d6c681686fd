/** The client-side search, filter and sort engine of the project grid:
    the `filteredProjects` and `availableTags` memos. Fuse.js fuzzy
    matching is an abstract relation `matches(query, item)`. */
module ProjectGrid {
  import opened Wrappers
  import opened Text
  import opened Seqs
  import opened Sorting
  import opened Catalog

  /** `"stars"`, `"recent"`, and `"name"` together with every other value
      (the `default` branch of the comparator's switch). */
  datatype SortMode = ByName | ByStars | ByRecent

  datatype FilterOptions = FilterOptions(
    tags: seq<string>,
    verifiedOnly: bool,
    lookingForContributors: bool,
    sortBy: SortMode)

  /** JavaScript's WhiteSpace and LineTerminator characters, which
      `String.prototype.trim` removes. */
  predicate IsJsWhitespace(c: char) {
    || ('\U{0009}' <= c <= '\U{000D}')
    || c == '\U{0020}' || c == '\U{00A0}' || c == '\U{1680}'
    || ('\U{2000}' <= c <= '\U{200A}')
    || c == '\U{2028}' || c == '\U{2029}' || c == '\U{202F}' || c == '\U{205F}'
    || c == '\U{3000}' || c == '\U{FEFF}'
  }

  /** `query.trim()` is the empty string. */
  predicate IsBlank(query: string) {
    forall i :: 0 <= i < |query| ==> IsJsWhitespace(query[i])
  }

  // ---------------------------------------------------------------------
  // Filters
  // ---------------------------------------------------------------------

  predicate PassesVerified(f: FilterOptions, item: SearchItem) {
    !f.verifiedOnly || item.verified
  }

  predicate PassesContributors(f: FilterOptions, item: SearchItem) {
    !f.lookingForContributors || item.looking_for_contributors == Some(true)
  }

  /** AND semantics: every selected tag is one of the entry's tags. */
  predicate PassesTags(f: FilterOptions, item: SearchItem) {
    forall t :: t in f.tags ==> t in item.tags
  }

  /** The filter callback with its three early returns. */
  predicate Passes(f: FilterOptions, item: SearchItem) {
    if f.verifiedOnly && !item.verified then false
    else if f.lookingForContributors && item.looking_for_contributors != Some(true) then false
    else if |f.tags| > 0 && !(forall t :: t in f.tags ==> t in item.tags) then false
    else true
  }

  function Passing(f: FilterOptions): SearchItem -> bool {
    item => Passes(f, item)
  }

  /** The callback is the conjunction of three independent filters. */
  lemma PassesIsConjunction(f: FilterOptions, item: SearchItem)
    ensures Passes(f, item) <==> PassesVerified(f, item) && PassesContributors(f, item) && PassesTags(f, item)
  {
  }

  /** Applying the callback once equals applying the three filters one
      after another, in any order. */
  lemma FiltersCompose(items: seq<SearchItem>, f: FilterOptions)
    ensures Filter(items, Passing(f))
         == Filter(Filter(Filter(items, x => PassesVerified(f, x)), x => PassesContributors(f, x)), x => PassesTags(f, x))
    ensures Filter(items, Passing(f))
         == Filter(Filter(Filter(items, x => PassesTags(f, x)), x => PassesContributors(f, x)), x => PassesVerified(f, x))
  {
    VerifiedFirst(items, f);
    TagsFirst(items, f);
  }

  lemma {:induction false} VerifiedFirst(items: seq<SearchItem>, f: FilterOptions)
    ensures Filter(items, Passing(f))
         == Filter(Filter(Filter(items, x => PassesVerified(f, x)), x => PassesContributors(f, x)), x => PassesTags(f, x))
    decreases |items|
  {
    if |items| > 0 {
      VerifiedFirst(items[1..], f);
      PassesIsConjunction(f, items[0]);
    }
  }

  lemma {:induction false} TagsFirst(items: seq<SearchItem>, f: FilterOptions)
    ensures Filter(items, Passing(f))
         == Filter(Filter(Filter(items, x => PassesTags(f, x)), x => PassesContributors(f, x)), x => PassesVerified(f, x))
    decreases |items|
  {
    if |items| > 0 {
      TagsFirst(items[1..], f);
      PassesIsConjunction(f, items[0]);
    }
  }

  /** Two filter settings applied in either order give the same entries. */
  lemma FilterSettingsCommute(items: seq<SearchItem>, f1: FilterOptions, f2: FilterOptions)
    ensures Filter(Filter(items, Passing(f1)), Passing(f2)) == Filter(Filter(items, Passing(f2)), Passing(f1))
  {
    FilterCommutes(items, Passing(f1), Passing(f2));
  }

  /** No tag selected and neither flag set: nothing is excluded. */
  lemma EmptySelectionKeepsAll(items: seq<SearchItem>, mode: SortMode)
    ensures Filter(items, Passing(FilterOptions([], false, false, mode))) == items
  {
    FilterAll(items, Passing(FilterOptions([], false, false, mode)));
  }

  // ---------------------------------------------------------------------
  // Sorting
  // ---------------------------------------------------------------------

  /** The per-mode comparator: stars or `added_at` descending, name
      ascending. */
  predicate ModeLess(mode: SortMode, a: SearchItem, b: SearchItem) {
    match mode
    case ByStars => a.stars > b.stars
    case ByRecent => a.added_at > b.added_at
    case ByName => LexLess(a.name, b.name)
  }

  /** The grid comparator: the pinned entry first, then the mode. */
  predicate GridLess(mode: SortMode, a: SearchItem, b: SearchItem) {
    if a.slug == PinnedSlug then b.slug != PinnedSlug
    else if b.slug == PinnedSlug then false
    else ModeLess(mode, a, b)
  }

  function GridOrder(mode: SortMode): (SearchItem, SearchItem) -> bool {
    (a, b) => GridLess(mode, a, b)
  }

  lemma GridOrderIsStrictWeak(mode: SortMode)
    ensures StrictWeakOrder(GridOrder(mode))
  {
    var less := GridOrder(mode);
    LexLessIsStrictWeak();
    forall a, b, c | less(a, c) ensures less(a, b) || less(b, c) {
      if mode.ByName? && a.slug != PinnedSlug && b.slug != PinnedSlug && c.slug != PinnedSlug {
        assert LexLess(a.name, c.name);
        assert LexLess(a.name, b.name) || LexLess(b.name, c.name);
      }
    }
    forall a, b, c | less(a, b) && less(b, c) ensures less(a, c) {
      if mode.ByName? && a.slug != PinnedSlug {
        assert LexLess(a.name, b.name) && LexLess(b.name, c.name);
      }
    }
  }

  // ---------------------------------------------------------------------
  // The memos
  // ---------------------------------------------------------------------

  /** The candidates before filtering: all entries for a blank query,
      otherwise the fuzzy matches. */
  function SearchCandidates(items: seq<SearchItem>, query: string,
                            matches: (string, SearchItem) -> bool): (r: seq<SearchItem>)
    ensures IsBlank(query) ==> r == items
    ensures forall x :: x in r ==> x in items && (!IsBlank(query) ==> matches(query, x))
    ensures forall x :: multiset(r)[x] <= multiset(items)[x]
  {
    if IsBlank(query) then items else Filter(items, x => matches(query, x))
  }

  /** The search candidates that pass the filter callback. */
  function Kept(items: seq<SearchItem>, query: string, f: FilterOptions,
                matches: (string, SearchItem) -> bool): (k: seq<SearchItem>)
    ensures forall x :: x in k <==> x in items && Passes(f, x) && (IsBlank(query) || matches(query, x))
    ensures IsBlank(query) ==> k == Filter(items, Passing(f))
  {
    Filter(SearchCandidates(items, query, matches), Passing(f))
  }

  /** In a sequence sorted by the grid comparator the pinned entries come
      first and the others follow the mode's order. */
  lemma GridSortedShape(r: seq<SearchItem>, mode: SortMode)
    requires SortedBy(r, GridOrder(mode))
    ensures forall i, j :: 0 <= i < j < |r| && r[j].slug == PinnedSlug ==> r[i].slug == PinnedSlug
    ensures (exists i :: 0 <= i < |r| && r[i].slug == PinnedSlug) ==> r[0].slug == PinnedSlug
    ensures forall i, j :: 0 <= i < j < |r| && r[i].slug != PinnedSlug && r[j].slug != PinnedSlug ==>
      !ModeLess(mode, r[j], r[i])
  {
    assert forall i, j :: 0 <= i < j < |r| ==> !GridOrder(mode)(r[j], r[i]);
    if exists i :: 0 <= i < |r| && r[i].slug == PinnedSlug {
      var i :| 0 <= i < |r| && r[i].slug == PinnedSlug;
      assert i > 0 ==> !GridOrder(mode)(r[i], r[0]);
    }
  }

  /** `filteredProjects`: search, then filter, then sort with the pinned
      entry first. */
  function FilteredProjects(items: seq<SearchItem>, query: string, f: FilterOptions,
                            matches: (string, SearchItem) -> bool): (r: seq<SearchItem>)
    ensures forall x :: x in r ==>
      && x in items && Passes(f, x) && (!IsBlank(query) ==> matches(query, x))
    ensures forall x :: x in items && Passes(f, x) && (IsBlank(query) || matches(query, x)) ==> x in r
    ensures IsBlank(query) ==> multiset(r) == multiset(Filter(items, Passing(f)))
    ensures forall i, j :: 0 <= i < j < |r| && r[j].slug == PinnedSlug ==> r[i].slug == PinnedSlug
    ensures (exists i :: 0 <= i < |r| && r[i].slug == PinnedSlug) ==> r[0].slug == PinnedSlug
    ensures forall i, j :: 0 <= i < j < |r| && r[i].slug != PinnedSlug && r[j].slug != PinnedSlug ==>
      !ModeLess(f.sortBy, r[j], r[i])
  {
    var kept := Kept(items, query, f, matches);
    GridOrderIsStrictWeak(f.sortBy);
    var r := Sort(kept, GridOrder(f.sortBy));
    assert forall x :: x in r <==> x in kept by {
      assert forall x :: x in r <==> x in multiset(r);
      assert forall x :: x in kept <==> x in multiset(kept);
    }
    GridSortedShape(r, f.sortBy);
    r
  }

  /** Entries the comparator ties keep the order they had after filtering
      (input order, standing in for the fuzzy search's order when there is
      a query). */
  lemma FilteredProjectsStable(items: seq<SearchItem>, query: string, f: FilterOptions,
                               matches: (string, SearchItem) -> bool, e: SearchItem)
    ensures TiedWith(FilteredProjects(items, query, f, matches), e, GridOrder(f.sortBy))
         == TiedWith(Kept(items, query, f, matches), e, GridOrder(f.sortBy))
  {
    GridOrderIsStrictWeak(f.sortBy);
    SortStable(Kept(items, query, f, matches), e, GridOrder(f.sortBy));
  }

  /** Every tag of every entry, entry by entry. */
  function AllTags(items: seq<SearchItem>): (r: seq<string>)
    ensures forall t :: t in r <==> exists x :: x in items && t in x.tags
  {
    if |items| == 0 then []
    else
      var rest := AllTags(items[1..]);
      assert forall x :: x in items <==> x == items[0] || x in items[1..];
      items[0].tags + rest
  }

  /** `availableTags`: the union of all tags, sorted and duplicate-free. */
  function AvailableTags(items: seq<SearchItem>): (r: seq<string>)
    ensures forall t :: t in r <==> exists x :: x in items && t in x.tags
    ensures forall i, j :: 0 <= i < j < |r| ==> LexLess(r[i], r[j])
  {
    var distinct := Distinct(AllTags(items));
    LexLessIsStrictWeak();
    var r := Sort(distinct, LexLess);
    assert forall t :: t in r <==> t in distinct by {
      assert forall t :: t in r <==> t in multiset(r);
      assert forall t :: t in distinct <==> t in multiset(distinct);
    }
    NoDuplicatesMultiplicity(distinct);
    MultiplicityOneNoDuplicates(r);
    forall i, j | 0 <= i < j < |r| ensures LexLess(r[i], r[j]) {
      assert !LexLess(r[j], r[i]);
      LexTotal(r[i], r[j]);
    }
    r
  }
}
