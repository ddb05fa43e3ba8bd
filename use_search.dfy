/**
 * `useSearch`: the user's own entries, filtered by date range and tags on the
 * backend, newest first, and then by text on the client.
 */
module UseSearch {
  import opened Wrappers
  import opened Types
  import opened Text
  import opened Seqs
  import opened Order
  import opened Backend
  import TagUtils

  const SearchFailed: string := "検索に失敗しました"

  /** The sort key of `.order('entry_date', { ascending: false })`. */
  function ByDate(): Entry -> string {
    (e: Entry) => e.entry_date
  }

  /**
   * The backend filters: `.eq('user_id', u)`, `.gte`/`.lte` on `entry_date`
   * for a non-empty bound, and `.overlaps('tags', …)` for a non-empty tag list.
   */
  predicate MatchesQuery(e: Entry, u: UserId, filters: SearchFilters)
    ensures MatchesQuery(e, u, filters) ==> e.user_id == u
    ensures !Truthy(filters.dateFrom) && !Truthy(filters.dateTo) && (filters.tags.None? || filters.tags.value == []) ==>
      (MatchesQuery(e, u, filters) <==> e.user_id == u)
  {
    && e.user_id == u
    && (Truthy(filters.dateFrom) ==> StrLe(filters.dateFrom.value, e.entry_date))
    && (Truthy(filters.dateTo) ==> StrLe(e.entry_date, filters.dateTo.value))
    && (filters.tags.Some? && |filters.tags.value| > 0 ==> TagUtils.SharesTag(e.tags, filters.tags.value))
  }

  /** The backend filters as the predicate a table filter takes. */
  function Matching(u: UserId, filters: SearchFilters): Entry -> bool {
    (e: Entry) => MatchesQuery(e, u, filters)
  }

  /** The rows the backend query returns: the matching entries, each as often as in the table, newest first. */
  function QueryRows(entries: seq<Entry>, u: UserId, filters: SearchFilters): (r: seq<Entry>)
    ensures forall e :: e in r <==> e in entries && MatchesQuery(e, u, filters)
    ensures multiset(r) == multiset(Filter(entries, Matching(u, filters)))
    ensures SortedBy(r, ByDate(), true)
    ensures |r| <= |entries|
  {
    var matching := Filter(entries, Matching(u, filters));
    assert forall e :: e in matching <==> e in entries && MatchesQuery(e, u, filters);
    var r := SortBy(matching, ByDate(), true);
    assert forall e :: e in r <==> e in multiset(matching);
    assert |r| == |multiset(r)| == |multiset(matching)| == |matching|;
    r
  }

  /** Whether one of the three things, lower-cased, contains `term`. */
  predicate TextMatches(e: Entry, term: string)
    ensures term == [] ==> TextMatches(e, term)
  {
    Contains(ToLower(e.thing_one), term) ||
    Contains(ToLower(e.thing_two), term) ||
    Contains(ToLower(e.thing_three), term)
  }

  /** Whether the client-side text filter runs: the query is present and not blank after trimming. */
  predicate FiltersText(query: Option<string>)
    ensures FiltersText(query) <==> query.Some? && !AllWhitespace(query.value)
  {
    if query.Some? then
      TrimEmptyIffAllWhitespace(query.value);
      Truthy(query) && Trim(query.value) != ""
    else false
  }

  /**
   * The client-side text filter: when it runs, the entries one of whose
   * things contains the lower-cased, untrimmed query; otherwise all rows.
   * `TextFilterIsFilter` shows it keeps the rows' order and multiplicities.
   */
  function TextFilter(rows: seq<Entry>, query: Option<string>): (r: seq<Entry>)
    ensures !FiltersText(query) ==> r == rows
    ensures FiltersText(query) ==> forall e :: e in r <==> e in rows && TextMatches(e, ToLower(query.value))
    ensures SortedBy(rows, ByDate(), true) ==> SortedBy(r, ByDate(), true)
    ensures |r| <= |rows|
  {
    if FiltersText(query) then
      var term := ToLower(query.value);
      var p := (e: Entry) => TextMatches(e, term);
      assert SortedBy(rows, ByDate(), true) ==> SortedBy(Filter(rows, p), ByDate(), true) by {
        if SortedBy(rows, ByDate(), true) {
          FilterKeepsSorted(rows, p, ByDate(), true);
        }
      }
      Filter(rows, p)
    else rows
  }

  /**
   * When the text filter runs, it is `filter` itself over the rows, so the
   * kept rows stay in their order, each as often as before.
   */
  lemma TextFilterIsFilter(rows: seq<Entry>, q: string)
    requires FiltersText(Some(q))
    ensures TextFilter(rows, Some(q)) == Filter(rows, (e: Entry) => TextMatches(e, ToLower(q)))
    ensures forall e :: multiset(TextFilter(rows, Some(q)))[e] ==
                        if TextMatches(e, ToLower(q)) then multiset(rows)[e] else 0
  {
    forall e ensures multiset(TextFilter(rows, Some(q)))[e] ==
      if TextMatches(e, ToLower(q)) then multiset(rows)[e] else 0 {
      FilterMultiplicity(rows, (e: Entry) => TextMatches(e, ToLower(q)), e);
    }
  }

  /** A query of whitespace only, however long, filters nothing. */
  lemma BlankQueryKeepsAll(rows: seq<Entry>, q: string)
    requires AllWhitespace(q)
    ensures TextFilter(rows, Some(q)) == rows
  {
  }

  /** Any run of letters is matched regardless of case: `"ABC"` searches like `"abc"`. */
  lemma QueryCaseInsensitive(rows: seq<Entry>, q: string)
    ensures FiltersText(Some(q)) ==> TextFilter(rows, Some(q)) == TextFilter(rows, Some(ToLower(q)))
  {
    assert ToLower(ToLower(q)) == ToLower(q);
    LowerKeepsBlank(q);
  }

  /** Lower-casing neither makes a query blank nor makes a blank one filter. */
  lemma LowerKeepsBlank(q: string)
    ensures FiltersText(Some(q)) <==> FiltersText(Some(ToLower(q)))
  {
    assert forall i :: 0 <= i < |q| ==> (IsJsWhitespace(ToLower(q)[i]) <==> IsJsWhitespace(q[i]));
  }

  class SearchHook {
    /** The backend's `entries` table. */
    var entries: seq<Entry>
    /** What `auth.getUser()` yields. */
    var currentUser: Option<UserId>
    var results: seq<Entry>
    var loading: bool
    var error: Option<string>

    constructor(entries: seq<Entry>, currentUser: Option<UserId>)
      ensures this.entries == entries && this.currentUser == currentUser
      ensures results == [] && !loading && error.None?
    {
      this.entries := entries;
      this.currentUser := currentUser;
      results := [];
      loading := false;
      error := None;
    }

    /**
     * `searchEntries`: on success `results` becomes the returned list; without
     * a user or when the query fails (`fault`) the result is `[]`, `results`
     * keeps its old value and `error` says why.
     */
    method SearchEntries(filters: SearchFilters, fault: Option<Fault>) returns (r: seq<Entry>)
      modifies this
      ensures entries == old(entries) && currentUser == old(currentUser)
      ensures currentUser.None? ==> r == [] && results == old(results) && error == Some(NotAuthenticated)
      ensures currentUser.Some? && fault.Some? ==>
        r == [] && results == old(results) && error == Some(MessageOf(fault.value, SearchFailed))
      ensures currentUser.Some? && fault.None? ==>
        r == TextFilter(QueryRows(entries, currentUser.value, filters), filters.query) &&
        results == r && error.None?
      ensures !loading
    {
      loading := true;
      error := None;
      if currentUser.None? {
        error := Some(NotAuthenticated);
        r := [];
      } else if fault.Some? {
        error := Some(MessageOf(fault.value, SearchFailed));
        r := [];
      } else {
        var filteredData := QueryRows(entries, currentUser.value, filters);
        ghost var rows := filteredData;
        if FiltersText(filters.query) {
          filteredData := TextFilter(filteredData, filters.query);
        }
        assert filteredData == TextFilter(rows, filters.query);
        results := filteredData;
        r := filteredData;
      }
      loading := false;
    }
  }

  /**
   * Everything a successful search returns belongs to the user, lies within
   * the given date bounds, shares a tag with a non-empty tag filter and, for a
   * non-blank query, mentions it; and every such entry is returned.
   */
  lemma SearchResultsExact(entries: seq<Entry>, u: UserId, filters: SearchFilters, e: Entry)
    ensures e in TextFilter(QueryRows(entries, u, filters), filters.query) <==>
      e in entries && MatchesQuery(e, u, filters) &&
      (FiltersText(filters.query) ==> TextMatches(e, ToLower(filters.query.value)))
    ensures SortedBy(TextFilter(QueryRows(entries, u, filters), filters.query), ByDate(), true)
  {
  }

  /**
   * Every entry that passes all the filters is returned as often as the
   * table holds it, and no other entry is returned.
   */
  lemma SearchResultsMultiplicity(entries: seq<Entry>, u: UserId, filters: SearchFilters, e: Entry)
    ensures multiset(TextFilter(QueryRows(entries, u, filters), filters.query))[e] ==
            if MatchesQuery(e, u, filters) &&
               (FiltersText(filters.query) ==> TextMatches(e, ToLower(filters.query.value)))
            then multiset(entries)[e] else 0
  {
    var rows := QueryRows(entries, u, filters);
    FilterMultiplicity(entries, Matching(u, filters), e);
    assert multiset(rows)[e] == if MatchesQuery(e, u, filters) then multiset(entries)[e] else 0;
    if FiltersText(filters.query) {
      TextFilterIsFilter(rows, filters.query.value);
    }
  }
}
