/**
 * The grant search of the Grant Finder page: a case-insensitive substring
 * filter over the loaded grant records, and the page's choice to show every
 * grant when the search box is empty.
 */
module GrantSearch {
  import opened Wrappers
  import opened AsciiText

  /**
   * One grant record as loaded from the grant list. `title` is always
   * present; `summary` and `source` may be missing and then read as "".
   */
  datatype Grant = Grant(title: string, url: string, summary: Option<string>, source: Option<string>)
  {
    /** `g.get('summary', '')`: the summary when present, "" when the key is missing. */
    function SummaryText(): (r: string)
      ensures summary.Some? ==> r == summary.value
      ensures summary.None? ==> r == ""
    {
      summary.GetOr("")
    }

    /** `g.get('source', '')`: the source when present, "" when the key is missing. */
    function SourceText(): (r: string)
      ensures source.Some? ==> r == source.value
      ensures source.None? ==> r == ""
    {
      source.GetOr("")
    }
  }

  /**
   * The filter condition: the lower-cased query occurs in the lower-cased
   * title, summary or source. The contract restates it with the positional
   * definition of a substring.
   */
  predicate Matches(g: Grant, query: string)
    ensures Matches(g, query) <==>
      exists i :: OccursAt(Lower(query), Lower(g.title), i)
                  || OccursAt(Lower(query), Lower(g.SummaryText()), i)
                  || OccursAt(Lower(query), Lower(g.SourceText()), i)
  {
    var q := Lower(query);
    ContainsIffOccurs(q, Lower(g.title));
    ContainsIffOccurs(q, Lower(g.SummaryText()));
    ContainsIffOccurs(q, Lower(g.SourceText()));
    Contains(q, Lower(g.title))
    || Contains(q, Lower(g.SummaryText()))
    || Contains(q, Lower(g.SourceText()))
  }

  /** `xs` is obtained from `ys` by deleting elements, without reordering. */
  predicate IsSubsequence<T(==)>(xs: seq<T>, ys: seq<T>)
    decreases |ys|
  {
    if xs == [] then true
    else if ys == [] then false
    else (xs[0] == ys[0] && IsSubsequence(xs[1..], ys[1..])) || IsSubsequence(xs, ys[1..])
  }

  /**
   * `search_grants(grants, query)`: the grants that match the query, in
   * their original order. Each grant is kept exactly as often as it occurs
   * in the input if it matches, and dropped otherwise.
   */
  function SearchGrants(grants: seq<Grant>, query: string): (r: seq<Grant>)
    ensures forall g :: g in r ==> g in grants && Matches(g, query)
    ensures forall g :: g in grants && Matches(g, query) ==> g in r
    ensures forall g :: multiset(r)[g] == if Matches(g, query) then multiset(grants)[g] else 0
    ensures IsSubsequence(r, grants)
    ensures |r| <= |grants|
  {
    if grants == [] then []
    else
      var rest := SearchGrants(grants[1..], query);
      assert grants == [grants[0]] + grants[1..];
      if Matches(grants[0], query) then
        assert ([grants[0]] + rest)[1..] == rest;
        [grants[0]] + rest
      else rest
  }

  /**
   * The list the page shows: every grant for an empty search box,
   * the search result otherwise. A grant is shown iff it is loaded and
   * matches the query.
   */
  function ShownGrants(grants: seq<Grant>, query: string): (r: seq<Grant>)
    ensures forall g :: g in r <==> g in grants && Matches(g, query)
  {
    if query == "" then
      EmptyQueryMatchesAll(grants);
      grants
    else SearchGrants(grants, query)
  }

  /** The empty query matches every grant, through its title. */
  lemma {:induction false} EmptyQueryMatches(g: Grant)
    ensures Matches(g, "")
  {
    EmptyContained(Lower(g.title));
  }

  /** Every grant matches the empty query. */
  lemma {:induction false} EmptyQueryMatchesAll(grants: seq<Grant>)
    ensures forall g :: g in grants ==> Matches(g, "")
  {
    forall g | g in grants ensures Matches(g, "") {
      EmptyQueryMatches(g);
    }
  }

  /** A list whose every grant matches the query passes the filter unchanged. */
  lemma {:induction false} SearchKeepsAllMatching(grants: seq<Grant>, query: string)
    requires forall g :: g in grants ==> Matches(g, query)
    ensures SearchGrants(grants, query) == grants
  {
    if grants != [] {
      assert grants[0] in grants;
      SearchKeepsAllMatching(grants[1..], query);
      assert grants == [grants[0]] + grants[1..];
    }
  }

  /** Filtering twice with the same query is filtering once. */
  lemma {:induction false} SearchIdempotent(grants: seq<Grant>, query: string)
    ensures SearchGrants(SearchGrants(grants, query), query) == SearchGrants(grants, query)
  {
    SearchKeepsAllMatching(SearchGrants(grants, query), query);
  }

  /** Searching for the empty string returns every grant. */
  lemma {:induction false} SearchEmptyQuery(grants: seq<Grant>)
    ensures SearchGrants(grants, "") == grants
  {
    EmptyQueryMatchesAll(grants);
    SearchKeepsAllMatching(grants, "");
  }

  /**
   * The empty-query bypass of the page changes nothing: the shown list is
   * the search result for every query, empty or not.
   */
  lemma {:induction false} ShownIsSearch(grants: seq<Grant>, query: string)
    ensures ShownGrants(grants, query) == SearchGrants(grants, query)
  {
    if query == "" {
      SearchEmptyQuery(grants);
    }
  }

  /** The search result depends on the query only through its lower-cased form. */
  lemma {:induction false} SearchDependsOnLowerQuery(grants: seq<Grant>, q1: string, q2: string)
    requires Lower(q1) == Lower(q2)
    ensures SearchGrants(grants, q1) == SearchGrants(grants, q2)
  {
    if grants != [] {
      SearchDependsOnLowerQuery(grants[1..], q1, q2);
    }
  }

  /** Searching for the lower-cased or upper-cased query gives the same result as the query itself. */
  lemma {:induction false} SearchCaseInsensitive(grants: seq<Grant>, query: string)
    ensures SearchGrants(grants, Lower(query)) == SearchGrants(grants, query)
    ensures SearchGrants(grants, Upper(query)) == SearchGrants(grants, query)
  {
    LowerIdempotent(query);
    SearchDependsOnLowerQuery(grants, Lower(query), query);
    LowerOfUpper(query);
    SearchDependsOnLowerQuery(grants, Upper(query), query);
  }

  /**
   * A missing summary or source behaves exactly like an empty one; a grant
   * with neither is matched through its title alone.
   */
  lemma {:induction false} MissingFieldsReadAsEmpty(g: Grant, query: string)
    ensures Matches(g.(summary := None), query) == Matches(g.(summary := Some("")), query)
    ensures Matches(g.(source := None), query) == Matches(g.(source := Some("")), query)
    ensures g.summary == None && g.source == None ==>
              (Matches(g, query) <==> Contains(Lower(query), Lower(g.title)))
  {
    if g.summary == None && g.source == None && Matches(g, query) {
      ContainedInEmpty(Lower(query));
      if Lower(query) == "" {
        EmptyContained(Lower(g.title));
      }
    }
  }

  /** A grant whose title, summary or source contains the query with its exact case is found. */
  lemma {:induction false} ExactCaseHitIsFound(grants: seq<Grant>, query: string, g: Grant)
    requires g in grants
    requires Contains(query, g.title) || Contains(query, g.SummaryText()) || Contains(query, g.SourceText())
    ensures g in SearchGrants(grants, query)
  {
    if Contains(query, g.title) {
      ContainsLower(query, g.title);
    } else if Contains(query, g.SummaryText()) {
      ContainsLower(query, g.SummaryText());
    } else {
      ContainsLower(query, g.SourceText());
    }
  }
}
