# Game hub stores in Dafny

A model of the two state containers at the centre of the game hub web client:

- the **favorites store** (`src/stores/favorites.ts`): a list of games used as a set keyed
  by `id`, loaded from the `favorites` storage key when the store is created and written
  back to that key in full after each write;
- the **game listing store** (`src/stores/games.ts`): one page of games from the remote
  game service, with the current page, page count, page size, search text, loading flag
  and last error.

Both are modelled as immutable state records with pure transition functions.

- `Favorites.Store` holds the in-memory list and the content of the storage key. The key
  is `None` while absent, `Some(list)` once a list has been written.
- `GameListing.ListingState` holds the listing fields.
- `GameListing.FetchGames` takes the network result as a parameter (`FetchOutcome`: the
  results plus an optional count, or a failure). It does not perform the request.
- `Begin`/`Settle` split a fetch into its synchronous start (loading raised, page set) and
  its settlement (try/catch/finally).
- `Run` in each module replays a sequence of actions. The invariants are stated over it.

Files: `wrappers.dfy` (`Option`), `game_types.dfy` (the shape of a game),
`favorites.dfy`, `games.dfy`.

Two behaviours of the code worth knowing:

- On load, a stored value that is not valid JSON makes `JSON.parse` throw
  (`src/stores/favorites.ts:6`); there is no fallback to an empty list. The throwing path
  is not modelled.
- `error` is only ever set, on failure, and never cleared on success
  (`src/stores/games.ts:20-25`), so a successful fetch keeps an error left by an earlier
  failure; `StaleErrorSurvivesSuccess` states this.

## Model

| member | source | states |
|---|---|---|
| Favorites.Find | src/stores/favorites.ts:10 | the search finds a game exactly when some element has the id; what it finds has that id and is the first such element |
| Favorites.Filter | src/stores/favorites.ts:16 | the kept elements are exactly those whose id differs; none has the removed id |
| Favorites.Load | src/stores/favorites.ts:6 | the initial list is the stored list, or empty when the key is absent; storage is not written |
| Favorites.Add | src/stores/favorites.ts:9-14 | with the id absent, `g` is appended at the end, length grows by 1 and storage equals the list; with the id present, list and storage are unchanged; afterwards the id is present |
| Favorites.Remove | src/stores/favorites.ts:15-18 | no element has the id afterwards; exactly the other elements remain; storage equals the new list even when nothing was removed |
| Favorites.IsFavorite | src/stores/favorites.ts:19-21 | true exactly when some element has the id; a query that yields no new state |
| Favorites.AddPreservesUniqueIds | src/stores/favorites.ts:10-11 | pairwise-distinct ids stay distinct after `add` |
| Favorites.RemovePreservesUniqueIds | src/stores/favorites.ts:16 | pairwise-distinct ids stay distinct after `remove` |
| Favorites.RunPreservesUniqueIds | src/stores/favorites.ts:9-18 | distinct ids at load time stay distinct through any sequence of adds and removes |
| Favorites.LoadAcceptsDuplicates | src/stores/favorites.ts:6 | loading does not enforce distinct ids: a stored list with a repeated id is kept as is, and removing that id drops both copies |
| Favorites.AddIdempotent | src/stores/favorites.ts:10-13 | adding a game twice has the effect of adding it once |
| Favorites.AddThenIsFavorite | src/stores/favorites.ts:10-20 | after `add(g)`, `isFavorite(g.id)` holds, and the answer for other ids is unchanged |
| Favorites.CountUnique | src/stores/favorites.ts:10-11 | with distinct ids, an id occurs once when present and never otherwise |
| Favorites.FilterLength | src/stores/favorites.ts:16 | the filter drops exactly as many elements as carry the id |
| Favorites.RemoveLength | src/stores/favorites.ts:16 | `remove` shortens the list by the number of elements with the id; with distinct ids, by 1 when present and 0 otherwise |
| Favorites.RemoveThenNotFavorite | src/stores/favorites.ts:16-20 | after `remove(id)`, `isFavorite(id)` is false |
| Favorites.FilterStable | src/stores/favorites.ts:16 | the filter distributes over concatenation and keeps or drops each element on its own, so kept elements keep their relative order |
| Favorites.RemoveAbsent | src/stores/favorites.ts:16 | removing an absent id leaves the list as it was |
| Favorites.ReloadAfterWrite | src/stores/favorites.ts:12-17 | after a write, storage equals the list, and loading from it gives back the same store |
| Favorites.RunMirrored | src/stores/favorites.ts:6-18 | from any loaded state, once at least one write has happened, storage equals the in-memory list |
| Favorites.AddRemoveScenario | src/tests/favorites.spec.ts:12-22 | adding game 1 to an empty store makes it the only favorite; removing it leaves none |
| GameListing.Initial | src/stores/games.ts:6-14 | the initial listing: no games, empty query, page 1 of 1, page size 20, not loading, no error |
| GameListing.TotalPages | src/stores/games.ts:23 | at least one page; for a positive count, the ceiling of count over page size; for a zero or missing count, one page |
| GameListing.CeilingUnique | src/stores/games.ts:23 | a page count fits the ceiling bracket exactly when it equals the computed one |
| GameListing.Begin | src/stores/games.ts:18-19 | the in-flight state has loading raised and the requested page current; nothing else changes |
| GameListing.RequestOf | src/stores/games.ts:21 | the request carries the page just made current, the store's page size and its current search text |
| GameListing.Settle | src/stores/games.ts:20-28 | settling lowers loading and keeps page, query and page size; on success games become the results, the page count is recomputed and the error is kept; on failure the error is the fixed text and games and page count are kept |
| GameListing.FetchGames | src/stores/games.ts:17-29 | current page becomes the argument (default 1); loading ends false; query and page size unchanged; on success games are the results, pages are the ceiling (at least 1) and the error is kept; on failure the error is the fixed text and games and pages are unchanged |
| GameListing.SetSearch | src/stores/games.ts:31-34 | the query is set and page 1 is fetched with it: loading ends false, page size unchanged; on success games are the results, pages are the ceiling (at least 1) and the error is kept; on failure the error is the fixed text and games and pages are unchanged |
| GameListing.FetchRaisesThenLowersLoading | src/stores/games.ts:17-28 | loading is raised while the request is out, the request carries the page, page size and search text, and loading is lowered once it settles |
| GameListing.SetSearchRequest | src/stores/games.ts:31-33 | `setSearch(q)` requests page 1 with search text `q` |
| GameListing.TotalPagesExamples | src/stores/games.ts:23 | 45 games at 20 per page make 3 pages; a zero or missing count makes 1 |
| GameListing.FailureKeepsListing | src/stores/games.ts:24-25 | a failed fetch keeps games and page count and records the fixed error text |
| GameListing.StaleErrorSurvivesSuccess | src/stores/games.ts:20-25 | a successful fetch after a failed one leaves the earlier error in place |
| GameListing.RunKeepsPageSize | src/stores/games.ts:11 | no sequence of actions changes the page size |
| GameListing.ReachableStatesSettled | src/stores/games.ts:6-34 | every state reachable from the initial one by whole actions has loading false, at least one page and page size 20 |

## Left out

- The remote game service client (`src/api/rawg.ts`): its result enters only as the
  `FetchOutcome` argument of `FetchGames`. `getGameDetails` and the omission of an empty
  `search` parameter from the request are request plumbing and are not modelled.
- JSON serialisation of the storage value: storage holds the list itself. Invalid JSON
  throws on load and is not modelled. An empty-string value falls back to `'[]'`; it counts
  as an absent key.
- Favorites.Add / Favorites.Remove: a failing storage write is not modelled. The code
  changes the list before `localStorage.setItem` (`src/stores/favorites.ts:11-12`, `16-17`);
  if serialising or writing throws (a full storage quota, say), the exception reaches the
  caller with the list changed and the key stale, and `Mirrored` no longer holds. Writes
  are modelled as always succeeding.
- Favorites.Add / Favorites.Remove: object identity is not modelled. `add` extends the
  array in place and keeps the caller's game object by reference, while `remove` installs
  a new array; the model has values only, so no aliasing is visible.
- Overlapping fetches: each fetch is one atomic transition. The race between fetches that
  settle out of order is not modelled. Neither is the non-awaited fetch inside `setSearch`.
- GameListing.TotalPages: uses integer ceiling division. `Math.ceil` over floating-point
  division is not modelled, and counts are non-negative whole numbers.
- GameListing.FetchGames: the page argument is any integer. Fractional or non-numeric pages
  are not modelled.
- JavaScript numbers: ids are unbounded integers. NaN and floating-point ids are not modelled.
- `GameDetails` and the theme store (`src/stores/theme.ts`): DOM, storage and media-query
  side effects outside the two stores.
- The router (`src/router/index.ts`) and the component test (`src/tests/GameCard.spec.ts`):
  no store logic.
