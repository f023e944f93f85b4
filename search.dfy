/** search.py: the listing record produced by a search, its canonical URL, the
    recency filter, and the immutable search builder with its request body. */
module Search {
  import opened Wrappers
  import opened Seqs

  const CarousellHost := "https://www.carousell.ph"

  /** One search result (search.py's CarousellListing). Timestamps are whole
      seconds; the fields Python leaves as None are `None` here. */
  datatype CarousellListing = CarousellListing(
    id: string,
    createdAt: int,
    title: Option<string>,
    price: Option<string>,
    description: Option<string>,
    others: seq<string>,
    photoUrl: Option<string>)

  /** The `url` property: the host, "/p/", then the id. The id can be read back
      from the end of the URL. */
  function Url(listing: CarousellListing): (r: string)
    ensures |r| == |CarousellHost| + 3 + |listing.id|
    ensures r[..|CarousellHost|] == CarousellHost
    ensures r[|CarousellHost|..|CarousellHost| + 3] == "/p/"
    ensures r[|CarousellHost| + 3..] == listing.id
  {
    CarousellHost + "/p/" + listing.id
  }

  /** Two listings have the same URL exactly when they have the same id. */
  lemma UrlDeterminesId(a: CarousellListing, b: CarousellListing)
    ensures Url(a) == Url(b) <==> a.id == b.id
  {
    if Url(a) == Url(b) {
      assert Url(a)[|CarousellHost| + 3..] == Url(b)[|CarousellHost| + 3..];
    }
  }

  /** The condition of filter_recent: the listing is at most `ageLte` seconds old at `now`. */
  predicate IsRecent(listing: CarousellListing, now: int, ageLte: int)
  {
    now - listing.createdAt <= ageLte
  }

  /** CarousellListing.filter_recent: the listings that are recent at `now`, in input order. */
  function FilterRecent(listings: seq<CarousellListing>, now: int, ageLte: int): (r: seq<CarousellListing>)
    ensures |r| <= |listings|
    ensures forall l :: l in r <==> l in listings && IsRecent(l, now, ageLte)
    decreases |listings|
  {
    if listings == [] then []
    else
      var last := listings[|listings| - 1];
      FilterRecent(listings[..|listings| - 1], now, ageLte) + (if IsRecent(last, now, ageLte) then [last] else [])
  }

  /** The filtered listings keep their relative order: they are a subsequence of the input. */
  lemma {:induction false} FilterRecentIsSubsequence(listings: seq<CarousellListing>, now: int, ageLte: int)
    ensures IsSubsequence(FilterRecent(listings, now, ageLte), listings)
    decreases |listings|
  {
    if listings != [] {
      var init := listings[..|listings| - 1];
      var last := listings[|listings| - 1];
      FilterRecentIsSubsequence(init, now, ageLte);
      SubsequenceSnocIf(FilterRecent(init, now, ageLte), init, last, IsRecent(last, now, ageLte));
      assert init + [last] == listings;
    }
  }

  /** Filtering a concatenation filters each part: nothing is reordered across the seam. */
  lemma {:induction false} FilterRecentAppend(a: seq<CarousellListing>, b: seq<CarousellListing>, now: int, ageLte: int)
    ensures FilterRecent(a + b, now, ageLte) == FilterRecent(a, now, ageLte) + FilterRecent(b, now, ageLte)
    decreases |b|
  {
    if b != [] {
      var init := b[..|b| - 1];
      assert (a + b)[..|a + b| - 1] == a + init;
      FilterRecentAppend(a, init, now, ageLte);
    } else {
      assert a + b == a;
    }
  }

  /** Filtering again with the same `now` and bound removes nothing more. */
  lemma {:induction false} FilterRecentIdempotent(listings: seq<CarousellListing>, now: int, ageLte: int)
    ensures FilterRecent(FilterRecent(listings, now, ageLte), now, ageLte) == FilterRecent(listings, now, ageLte)
    decreases |listings|
  {
    if listings != [] {
      var init := listings[..|listings| - 1];
      var last := listings[|listings| - 1];
      var kept := if IsRecent(last, now, ageLte) then [last] else [];
      FilterRecentIdempotent(init, now, ageLte);
      FilterRecentAppend(FilterRecent(init, now, ageLte), kept, now, ageLte);
      if IsRecent(last, now, ageLte) {
        assert [last][..0] == [];
      }
    }
  }

  /** A value passed to CarousellSearch.filter: a plain value, or an Enum member,
      which is reduced to its `.value`. */
  datatype FilterValue = Plain(value: string) | EnumMember(name: string, value: string)

  /** The value stored in the filter map for a keyword argument. */
  function Reduce(v: FilterValue): (r: string)
    ensures r == v.value
  {
    match v
    case Plain(s) => s
    case EnumMember(_, s) => s
  }

  /** CarousellCategories.ALL_MENS_FASHION. */
  const AllMensFashion := EnumMember("ALL_MENS_FASHION", "3")

  /** The `_filters` dict: its keys in insertion order and the list stored under each. */
  datatype Filters = Filters(keys: seq<string>, values: map<string, seq<string>>)

  /** A dict's keys are distinct and are exactly the keys that have a list. */
  ghost predicate ValidFilters(f: Filters)
  {
    (forall i, j :: 0 <= i < j < |f.keys| ==> f.keys[i] != f.keys[j]) &&
    (forall k :: k in f.values <==> k in f.keys)
  }

  /** The list under `k`, or [] when `k` is absent. */
  function Lookup(f: Filters, k: string): seq<string>
  {
    if k in f.values then f.values[k] else []
  }

  /** One step of `filter`'s loop: create an empty list under `k` if absent, then append `v`. */
  function AppendFilter(f: Filters, k: string, v: FilterValue): (r: Filters)
    requires ValidFilters(f)
    ensures ValidFilters(r)
    ensures Lookup(r, k) == Lookup(f, k) + [Reduce(v)]
    ensures forall k' :: k' != k ==> Lookup(r, k') == Lookup(f, k')
    ensures r.keys == if k in f.values then f.keys else f.keys + [k]
  {
    if k in f.values then Filters(f.keys, f.values[k := f.values[k] + [Reduce(v)]])
    else Filters(f.keys + [k], f.values[k := [Reduce(v)]])
  }

  /** The filter map after appending every keyword argument in order. */
  function AppendFilters(f: Filters, kwargs: seq<(string, FilterValue)>): (r: Filters)
    requires ValidFilters(f)
    ensures ValidFilters(r)
    ensures |f.keys| <= |r.keys| <= |f.keys| + |kwargs| && r.keys[..|f.keys|] == f.keys
    decreases |kwargs|
  {
    if kwargs == [] then f
    else
      var (k, v) := kwargs[|kwargs| - 1];
      AppendFilter(AppendFilters(f, kwargs[..|kwargs| - 1]), k, v)
  }

  /** Keyword arguments have distinct names, as Python guarantees for **kwargs. */
  predicate DistinctNames(kwargs: seq<(string, FilterValue)>)
  {
    forall i, j :: 0 <= i < j < |kwargs| ==> kwargs[i].0 != kwargs[j].0
  }

  /** Each keyword's value is appended to the end of that key's list; keys not
      named keep their lists; existing keys keep their order and new keys follow. */
  lemma {:induction false} AppendFiltersEffect(f: Filters, kwargs: seq<(string, FilterValue)>)
    requires ValidFilters(f)
    requires DistinctNames(kwargs)
    ensures forall i :: 0 <= i < |kwargs| ==>
      Lookup(AppendFilters(f, kwargs), kwargs[i].0) == Lookup(f, kwargs[i].0) + [Reduce(kwargs[i].1)]
    ensures forall k :: (forall i :: 0 <= i < |kwargs| ==> kwargs[i].0 != k) ==>
      Lookup(AppendFilters(f, kwargs), k) == Lookup(f, k)
    ensures |AppendFilters(f, kwargs).keys| >= |f.keys| && AppendFilters(f, kwargs).keys[..|f.keys|] == f.keys
    decreases |kwargs|
  {
    if kwargs != [] {
      var init := kwargs[..|kwargs| - 1];
      var (k, v) := kwargs[|kwargs| - 1];
      AppendFiltersEffect(f, init);
      var g := AppendFilters(f, init);
      assert AppendFilters(f, kwargs) == AppendFilter(g, k, v);
      forall i | 0 <= i < |kwargs|
        ensures Lookup(AppendFilters(f, kwargs), kwargs[i].0) == Lookup(f, kwargs[i].0) + [Reduce(kwargs[i].1)]
      {
        if i < |kwargs| - 1 {
          assert kwargs[i] == init[i];
          assert kwargs[i].0 != k;
          assert Lookup(AppendFilters(f, kwargs), kwargs[i].0) == Lookup(g, kwargs[i].0);
        } else {
          assert kwargs[i] == (k, v);
          assert Lookup(g, k) == Lookup(f, k);
        }
      }
      forall k' | (forall i :: 0 <= i < |kwargs| ==> kwargs[i].0 != k')
        ensures Lookup(AppendFilters(f, kwargs), k') == Lookup(f, k')
      {
        assert kwargs[|kwargs| - 1].0 == k;
        assert forall i :: 0 <= i < |init| ==> init[i] == kwargs[i];
        assert Lookup(g, k') == Lookup(f, k');
      }
    }
  }

  /** A search: term, result count and filter map (search.py's CarousellSearch). */
  datatype CarousellSearch = CarousellSearch(term: Option<string>, count: int, filters: Filters)

  const DefaultCount := 20

  /** `CarousellSearch(term)` with the default count and no filters. */
  function NewSearch(term: Option<string>): (s: CarousellSearch)
    ensures s.term == term && s.count == DefaultCount && s.filters.keys == [] && ValidFilters(s.filters)
  {
    CarousellSearch(term, DefaultCount, Filters([], map[]))
  }

  /** The keyword arguments `_copy_with` may receive; an absent one keeps the receiver's field. */
  datatype CopyArgs = CopyArgs(term: Option<Option<string>>, count: Option<int>, filters: Option<Filters>)

  /** `_copy_with`: a new search whose fields come from the arguments given and
      otherwise from the receiver. */
  function CopyWith(s: CarousellSearch, args: CopyArgs): (r: CarousellSearch)
    ensures args.term.None? ==> r.term == s.term
    ensures args.count.None? ==> r.count == s.count
    ensures args.filters.None? ==> r.filters == s.filters
    ensures args.term.Some? ==> r.term == args.term.value
    ensures args.count.Some? ==> r.count == args.count.value
    ensures args.filters.Some? ==> r.filters == args.filters.value
  {
    CarousellSearch(
      if args.term.Some? then args.term.value else s.term,
      if args.count.Some? then args.count.value else s.count,
      if args.filters.Some? then args.filters.value else s.filters)
  }

  /** The two statements of the loop body, creating the list and appending to
      it, make one AppendFilter step. */
  lemma CreateThenAppend(f: Filters, k: string, v: FilterValue)
    requires ValidFilters(f)
    ensures var created := if k !in f.values then Filters(f.keys + [k], f.values[k := []]) else f;
      Filters(created.keys, created.values[k := created.values[k] + [Reduce(v)]]) == AppendFilter(f, k, v)
  {
    if k !in f.values {
      assert [] + [Reduce(v)] == [Reduce(v)];
      assert f.values[k := []][k := [Reduce(v)]] == f.values[k := [Reduce(v)]];
    }
  }

  /** `filter(**kwargs)`: copies the filter map, appends each keyword's value
      under its key, and returns a new search with the receiver's term and count.
      The receiver is a value and is left as it was. */
  method Filter(s: CarousellSearch, kwargs: seq<(string, FilterValue)>) returns (r: CarousellSearch)
    requires ValidFilters(s.filters)
    ensures r.term == s.term && r.count == s.count
    ensures r.filters == AppendFilters(s.filters, kwargs)
  {
    var newFilters := s.filters;
    var i := 0;
    while i < |kwargs|
      invariant 0 <= i <= |kwargs|
      invariant newFilters == AppendFilters(s.filters, kwargs[..i])
    {
      var (k, v) := kwargs[i];
      ghost var before := newFilters;
      if k !in newFilters.values {
        newFilters := Filters(newFilters.keys + [k], newFilters.values[k := []]);
      }
      newFilters := Filters(newFilters.keys, newFilters.values[k := newFilters.values[k] + [Reduce(v)]]);
      CreateThenAppend(before, k, v);
      assert kwargs[..i + 1][..i] == kwargs[..i];
      assert AppendFilters(s.filters, kwargs[..i + 1]) == AppendFilter(AppendFilters(s.filters, kwargs[..i]), k, v);
      i := i + 1;
    }
    assert kwargs[..|kwargs|] == kwargs;
    r := CopyWith(s, CopyArgs(Some(s.term), Some(s.count), Some(newFilters)));
  }

  /** One entry of the request's "filters" list. */
  datatype FilterEntry = FilterEntry(fieldName: string, idsOrKeywords: seq<string>)

  /** The request body `json()` builds. */
  datatype SearchParams = SearchParams(
    query: Option<string>,
    count: int,
    filters: seq<FilterEntry>,
    countryId: string,
    isFreeItems: bool,
    locale: string,
    prefillSortBy: string,
    sortFieldName: string,
    sortAscending: bool)

  /** The request body for a search, as `json()` describes it. */
  function RequestBody(s: CarousellSearch): SearchParams
    requires ValidFilters(s.filters)
  {
    var keys := s.filters.keys;
    SearchParams(s.term, s.count,
      seq(|keys|, i requires 0 <= i < |keys| => FilterEntry(keys[i], s.filters.values[keys[i]])),
      "1694008", false, "en", "time_created,descending", "time_created", false)
  }

  /** `json()`: the term and count pass through, the fixed country, locale and
      newest-first sort are set, and there is one filter entry per key, in key order. */
  method Json(s: CarousellSearch) returns (p: SearchParams)
    requires ValidFilters(s.filters)
    ensures p.query == s.term && p.count == s.count
    ensures |p.filters| == |s.filters.keys|
    ensures forall i :: 0 <= i < |p.filters| ==>
      p.filters[i] == FilterEntry(s.filters.keys[i], s.filters.values[s.filters.keys[i]])
    ensures p.countryId == "1694008" && !p.isFreeItems && p.locale == "en"
    ensures p.prefillSortBy == "time_created,descending"
    ensures p.sortFieldName == "time_created" && !p.sortAscending
    ensures p == RequestBody(s)
  {
    var entries: seq<FilterEntry> := [];
    var i := 0;
    while i < |s.filters.keys|
      invariant 0 <= i <= |s.filters.keys|
      invariant |entries| == i
      invariant forall j :: 0 <= j < i ==>
        entries[j] == FilterEntry(s.filters.keys[j], s.filters.values[s.filters.keys[j]])
    {
      var k := s.filters.keys[i];
      entries := entries + [FilterEntry(k, s.filters.values[k])];
      i := i + 1;
    }
    p := SearchParams(s.term, s.count, entries, "1694008", false, "en",
      "time_created,descending", "time_created", false);
    assert p.filters == RequestBody(s).filters;
  }

  /** The search main.py builds for a brand:
      `CarousellSearch(brand).filter(collections=CarousellCategories.ALL_MENS_FASHION)`. */
  function BrandSearch(brand: string): (r: CarousellSearch)
    ensures r.term == Some(brand) && r.count == 20
    ensures r.filters.keys == ["collections"] && r.filters.values == map["collections" := ["3"]]
  {
    assert [("collections", AllMensFashion)][..0] == [];
    var s := NewSearch(Some(brand));
    CarousellSearch(s.term, s.count, AppendFilters(s.filters, [("collections", AllMensFashion)]))
  }

  /** The request body sent for a brand. */
  function BrandRequest(brand: string): (r: SearchParams)
    ensures r.query == Some(brand) && r.count == 20
  {
    RequestBody(BrandSearch(brand))
  }

  /** A brand's request asks for that brand, 20 results, and the single filter
      collections = ["3"] (all men's fashion). */
  lemma BrandSearchFilters(brand: string)
    ensures var f := AppendFilters(NewSearch(Some(brand)).filters, [("collections", AllMensFashion)]);
      f.keys == ["collections"] && f.values["collections"] == ["3"]
    ensures BrandRequest(brand).query == Some(brand) && BrandRequest(brand).count == 20
    ensures BrandRequest(brand).filters == [FilterEntry("collections", ["3"])]
  {
    var kwargs := [("collections", AllMensFashion)];
    assert kwargs[..0] == [];
  }
}
