/** The game listing store: one page of games from the remote game service, with the
    pagination, search, loading and error fields the views read.

    A fetch is modelled as one atomic transition whose network result is a parameter: the
    store does not perform the request, it is told how the request ended. */
module GameListing {
  import opened Wrappers
  import opened GameTypes

  /** Page sizes are positive; the store's is fixed at `DefaultPageSize`. */
  type PageSize = n: int | n >= 1 witness 20

  const DefaultPageSize: PageSize := 20

  /** The one error text a failed fetch records, whatever the cause. */
  const FetchErrorMessage: string := "Failed to load games"

  datatype ListingState = ListingState(
    games: seq<Game>,
    searchQuery: string,
    currentPage: int,
    totalPages: int,
    pageSize: PageSize,
    loading: bool,
    error: Option<string>
  )

  /** How a list request ended: the response's results and its total result count (`None`
      when the response carries none), or a failure of any kind. */
  datatype FetchOutcome = Success(results: seq<Game>, count: Option<nat>) | Failure

  /** The parameters a fetch sends to the remote game service. */
  datatype ListRequest = ListRequest(page: int, pageSize: int, search: string)

  /** The store's state before any action. */
  function Initial(): (s: ListingState)
    ensures s.games == [] && s.searchQuery == ""
    ensures s.currentPage == 1 && s.totalPages == 1 && s.pageSize == DefaultPageSize
    ensures !s.loading && s.error == None
  {
    ListingState([], "", 1, 1, DefaultPageSize, false, None)
  }

  /** `t` is the ceiling of `count / pageSize`: the fewest pages of `pageSize` games that
      hold `count` games. */
  predicate IsCeiling(t: int, count: nat, pageSize: PageSize)
  {
    (t - 1) * pageSize < count <= t * pageSize
  }

  /** The page count a response yields: the ceiling of the count over the page size, and
      one page when the count is zero or missing (both are falsy). */
  function TotalPages(count: Option<nat>, pageSize: PageSize): (t: int)
    ensures t >= 1
    ensures count.Some? && count.value > 0 ==> IsCeiling(t, count.value, pageSize)
    ensures count.None? || count.value == 0 ==> t == 1
  {
    match count
    case None => 1
    case Some(c) =>
      if c == 0 then 1
      else
        var t := (c + pageSize - 1) / pageSize;
        CeilDivBounds(c, pageSize);
        t
  }

  lemma CeilDivBounds(c: nat, p: PageSize)
    requires c > 0
    ensures (c + p - 1) / p >= 1
    ensures IsCeiling((c + p - 1) / p, c, p)
  {
  }

  /** The ceiling is unique, so `TotalPages` is the only page count that fits the bracket. */
  lemma CeilingUnique(t: int, count: nat, pageSize: PageSize)
    requires count > 0
    ensures IsCeiling(t, count, pageSize) <==> t == TotalPages(Some(count), pageSize)
  {
    var u := TotalPages(Some(count), pageSize);
    if IsCeiling(t, count, pageSize) {
      // both t and u bracket count, so (t - 1) * p < u * p and (u - 1) * p < t * p
      MulStrictMonotone(t - 1, u, pageSize);
      MulStrictMonotone(u - 1, t, pageSize);
    }
  }

  lemma MulStrictMonotone(a: int, b: int, p: PageSize)
    requires a * p < b * p
    ensures a < b
  {
    assert a * p - b * p == (a - b) * p;
  }

  /** The synchronous start of `fetchGames(page)`: `loading` is raised and the requested page
      becomes the current page before the request is sent. */
  function Begin(s: ListingState, page: int): (r: ListingState)
    ensures r.loading && r.currentPage == page
    ensures r.(loading := s.loading, currentPage := s.currentPage) == s
  {
    s.(loading := true, currentPage := page)
  }

  /** The request a fetch sends from its in-flight state: the page it has just made
      current, the store's own page size and its current search text. */
  function RequestOf(s: ListingState): (q: ListRequest)
    ensures q.page == s.currentPage && q.pageSize == s.pageSize && q.search == s.searchQuery
  {
    ListRequest(s.currentPage, s.pageSize, s.searchQuery)
  }

  /** How the in-flight state settles: the results and page count replace the old ones on
      success, the fixed error text is recorded on failure, and `loading` is lowered in both
      cases. */
  function Settle(s: ListingState, outcome: FetchOutcome): (r: ListingState)
    ensures !r.loading
    ensures r.currentPage == s.currentPage && r.searchQuery == s.searchQuery
    ensures r.pageSize == s.pageSize
    ensures outcome.Success? ==>
      && r.games == outcome.results
      && r.totalPages == TotalPages(outcome.count, s.pageSize)
      && r.error == s.error
    ensures outcome.Failure? ==>
      && r.error == Some(FetchErrorMessage)
      && r.games == s.games
      && r.totalPages == s.totalPages
  {
    match outcome
    case Success(results, count) =>
      s.(games := results, totalPages := TotalPages(count, s.pageSize), loading := false)
    case Failure =>
      s.(error := Some(FetchErrorMessage), loading := false)
  }

  /** `fetchGames(page)`, `page` defaulting to 1, as one transition from before the call to
      after it settles. */
  function FetchGames(s: ListingState, page: Option<int>, outcome: FetchOutcome): (r: ListingState)
    ensures r.currentPage == page.GetOr(1)
    ensures !r.loading
    ensures r.searchQuery == s.searchQuery && r.pageSize == s.pageSize
    ensures outcome.Success? ==>
      && r.games == outcome.results
      && r.totalPages >= 1
      && (outcome.count.Some? && outcome.count.value > 0 ==>
            IsCeiling(r.totalPages, outcome.count.value, s.pageSize))
      && (outcome.count.None? || outcome.count.value == 0 ==> r.totalPages == 1)
      && r.error == s.error
    ensures outcome.Failure? ==>
      && r.error == Some(FetchErrorMessage)
      && r.games == s.games
      && r.totalPages == s.totalPages
  {
    Settle(Begin(s, page.GetOr(1)), outcome)
  }

  /** `setSearch(query)`: records the query, then fetches the first page with it. */
  function SetSearch(s: ListingState, query: string, outcome: FetchOutcome): (r: ListingState)
    ensures r.searchQuery == query && r.currentPage == 1
    ensures !r.loading && r.pageSize == s.pageSize
    ensures outcome.Success? ==>
      && r.games == outcome.results
      && r.totalPages >= 1
      && (outcome.count.Some? && outcome.count.value > 0 ==>
            IsCeiling(r.totalPages, outcome.count.value, s.pageSize))
      && (outcome.count.None? || outcome.count.value == 0 ==> r.totalPages == 1)
      && r.error == s.error
    ensures outcome.Failure? ==>
      r.games == s.games && r.totalPages == s.totalPages && r.error == Some(FetchErrorMessage)
  {
    FetchGames(s.(searchQuery := query), Some(1), outcome)
  }

  /** The actions a view can trigger on the store, each paired with how its request ended. */
  datatype Action =
    | Fetch(page: Option<int>, outcome: FetchOutcome)
    | Search(query: string, outcome: FetchOutcome)

  function Apply(s: ListingState, a: Action): ListingState
  {
    match a
    case Fetch(page, outcome) => FetchGames(s, page, outcome)
    case Search(query, outcome) => SetSearch(s, query, outcome)
  }

  /** The state after performing `actions` in order, starting from `s`. */
  function Run(s: ListingState, actions: seq<Action>): ListingState
    decreases |actions|
  {
    if actions == [] then s else Run(Apply(s, actions[0]), actions[1..])
  }

  // ---------------------------------------------------------------------------
  // Properties

  /** While the request is outstanding `loading` is raised and the request carries the
      requested page, the store's page size and its current search text; once the fetch
      settles `loading` is lowered again. */
  lemma FetchRaisesThenLowersLoading(s: ListingState, page: Option<int>, outcome: FetchOutcome)
    ensures Begin(s, page.GetOr(1)).loading
    ensures RequestOf(Begin(s, page.GetOr(1))) == ListRequest(page.GetOr(1), s.pageSize, s.searchQuery)
    ensures !FetchGames(s, page, outcome).loading
  {
  }

  /** `setSearch(query)` sends a request for page 1 with the new query. */
  lemma SetSearchRequest(s: ListingState, query: string)
    ensures RequestOf(Begin(s.(searchQuery := query), 1)) == ListRequest(1, s.pageSize, query)
  {
  }

  /** Worked examples of the page-count arithmetic: 45 games at 20 per page make 3 pages;
      a zero or missing count makes 1. */
  lemma TotalPagesExamples()
    ensures TotalPages(Some(45), 20) == 3
    ensures TotalPages(Some(0), 20) == 1
    ensures TotalPages(None, 20) == 1
  {
  }

  /** A failed fetch keeps the games and the page count of the state before it. */
  lemma FailureKeepsListing(s: ListingState, page: Option<int>)
    ensures FetchGames(s, page, Failure).games == s.games
    ensures FetchGames(s, page, Failure).totalPages == s.totalPages
    ensures FetchGames(s, page, Failure).error == Some(FetchErrorMessage)
  {
  }

  /** A successful fetch does not clear an error left by an earlier failure. */
  lemma StaleErrorSurvivesSuccess(results: seq<Game>, count: Option<nat>)
    ensures var failed := FetchGames(Initial(), Some(2), Failure);
      FetchGames(failed, Some(1), Success(results, count)).error == Some(FetchErrorMessage)
  {
  }

  /** No action writes the page size. */
  lemma {:induction false} RunKeepsPageSize(s: ListingState, actions: seq<Action>)
    ensures Run(s, actions).pageSize == s.pageSize
    decreases |actions|
  {
    if actions != [] {
      RunKeepsPageSize(Apply(s, actions[0]), actions[1..]);
    }
  }

  /** The state is settled: no fetch outstanding, at least one page, and the fixed page size. */
  predicate Settled(s: ListingState)
  {
    !s.loading && s.totalPages >= 1 && s.pageSize == DefaultPageSize
  }

  /** Every state reachable from the initial one by whole actions is settled. */
  lemma {:induction false} RunStaysSettled(s: ListingState, actions: seq<Action>)
    requires Settled(s)
    ensures Settled(Run(s, actions))
    decreases |actions|
  {
    if actions != [] {
      RunStaysSettled(Apply(s, actions[0]), actions[1..]);
    }
  }

  lemma ReachableStatesSettled(actions: seq<Action>)
    ensures Settled(Run(Initial(), actions))
  {
    RunStaysSettled(Initial(), actions);
  }
}
