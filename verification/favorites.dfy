/** The favorites store: a list of games used as a set keyed by `id`, mirrored in full to
    one durable storage key after every write.

    The storage key is part of the state (`storage`), so that a transition says both what
    the in-memory list becomes and what was last written to storage. */
module Favorites {
  import opened Wrappers
  import opened GameTypes

  /** The store's state. `storage` is the content of the `favorites` storage key:
      `None` while the key is absent, `Some(list)` once a list has been written. */
  datatype Store = Store(games: seq<Game>, storage: Option<seq<Game>>)

  /** Some element of `games` has identifier `id`. */
  predicate HasId(games: seq<Game>, id: int)
  {
    exists i :: 0 <= i < |games| && games[i].id == id
  }

  /** No two elements of `games` share an identifier: the set-keyed-by-id invariant. */
  predicate UniqueIds(games: seq<Game>)
  {
    forall i, j :: 0 <= i < j < |games| ==> games[i].id != games[j].id
  }

  /** The storage key holds exactly the in-memory list. */
  predicate Mirrored(s: Store)
  {
    s.storage == Some(s.games)
  }

  /** The number of elements of `games` whose identifier is `id`. */
  function Count(games: seq<Game>, id: int): nat
  {
    if games == [] then 0
    else (if games[0].id == id then 1 else 0) + Count(games[1..], id)
  }

  /** The first element whose identifier is `id`, if any: the array search both `add` and
      `isFavorite` perform. */
  function Find(games: seq<Game>, id: int): (r: Option<Game>)
    ensures r.Some? <==> HasId(games, id)
    ensures r.Some? ==> r.value.id == id
    ensures r.Some? ==> exists i :: 0 <= i < |games| && games[i] == r.value && !HasId(games[..i], id)
  {
    if games == [] then None
    else if games[0].id == id then
      assert games[..0] == [];
      Some(games[0])
    else
      var r := Find(games[1..], id);
      assert r.Some? ==> exists i :: 0 <= i < |games| && games[i] == r.value && !HasId(games[..i], id) by {
        if r.Some? {
          var i :| 0 <= i < |games[1..]| && games[1..][i] == r.value && !HasId(games[1..][..i], id);
          assert games[..i + 1] == [games[0]] + games[1..][..i];
          assert games[i + 1] == r.value;
        }
      }
      r
  }

  /** The elements of `games` whose identifier differs from `id`, in their original order. */
  function Filter(games: seq<Game>, id: int): (r: seq<Game>)
    ensures !HasId(r, id)
    ensures forall g :: g in r <==> g in games && g.id != id
  {
    if games == [] then []
    else if games[0].id == id then Filter(games[1..], id)
    else [games[0]] + Filter(games[1..], id)
  }

  /** The initial state: the list read from the storage key, or the empty list when the
      key is absent. Storage is left as it was found. */
  function Load(storage: Option<seq<Game>>): (s: Store)
    ensures s.storage == storage
    ensures storage.None? ==> s.games == []
    ensures storage.Some? ==> Mirrored(s)
  {
    Store(storage.GetOr([]), storage)
  }

  /** `add(game)`: appends `g` and rewrites storage when no element has its identifier;
      otherwise changes neither the list nor storage. */
  function Add(s: Store, g: Game): (r: Store)
    ensures HasId(s.games, g.id) ==> r == s
    ensures !HasId(s.games, g.id) ==> r.games == s.games + [g] && Mirrored(r)
    ensures |r.games| == |s.games| + (if HasId(s.games, g.id) then 0 else 1)
    ensures HasId(r.games, g.id)
  {
    if Find(s.games, g.id).Some? then s
    else
      var games := s.games + [g];
      assert games[|s.games|].id == g.id;
      Store(games, Some(games))
  }

  /** `remove(id)`: drops every element with identifier `id` and always rewrites storage,
      even when nothing was dropped. */
  function Remove(s: Store, id: int): (r: Store)
    ensures !HasId(r.games, id)
    ensures forall g :: g in r.games <==> g in s.games && g.id != id
    ensures Mirrored(r)
  {
    var games := Filter(s.games, id);
    Store(games, Some(games))
  }

  /** `isFavorite(id)`: whether some element has identifier `id`. It is a query: it yields a
      truth value and no new state. */
  function IsFavorite(s: Store, id: int): (b: bool)
    ensures b <==> HasId(s.games, id)
  {
    Find(s.games, id).Some?
  }

  /** The writes a caller can make to the store. */
  datatype Action = AddGame(game: Game) | RemoveId(id: int)

  function Apply(s: Store, a: Action): Store
  {
    match a
    case AddGame(g) => Add(s, g)
    case RemoveId(id) => Remove(s, id)
  }

  /** The state after performing `actions` in order, starting from `s`. */
  function Run(s: Store, actions: seq<Action>): Store
    decreases |actions|
  {
    if actions == [] then s else Run(Apply(s, actions[0]), actions[1..])
  }

  // ---------------------------------------------------------------------------
  // Identifier uniqueness

  lemma UniqueIdsCons(g: Game, rest: seq<Game>)
    ensures UniqueIds([g] + rest) <==> UniqueIds(rest) && !HasId(rest, g.id)
  {
    var gs := [g] + rest;
    assert gs[1..] == rest;
    if UniqueIds(gs) {
      forall i, j | 0 <= i < j < |rest| ensures rest[i].id != rest[j].id {
        assert gs[i + 1] == rest[i] && gs[j + 1] == rest[j];
      }
      forall k | 0 <= k < |rest| ensures rest[k].id != g.id {
        assert gs[0] == g && gs[k + 1] == rest[k];
      }
    }
    if UniqueIds(rest) && !HasId(rest, g.id) {
      forall i, j | 0 <= i < j < |gs| ensures gs[i].id != gs[j].id {
        if i == 0 {
          assert gs[j] == rest[j - 1];
        } else {
          assert gs[i] == rest[i - 1] && gs[j] == rest[j - 1];
        }
      }
    }
  }

  /** Adding keeps the identifiers pairwise distinct, provided they were before. */
  lemma AddPreservesUniqueIds(s: Store, g: Game)
    requires UniqueIds(s.games)
    ensures UniqueIds(Add(s, g).games)
  {
  }

  lemma {:induction false} FilterPreservesUniqueIds(games: seq<Game>, id: int)
    requires UniqueIds(games)
    ensures UniqueIds(Filter(games, id))
  {
    if games != [] {
      assert games == [games[0]] + games[1..];
      UniqueIdsCons(games[0], games[1..]);
      FilterPreservesUniqueIds(games[1..], id);
      if games[0].id != id {
        var rest := Filter(games[1..], id);
        forall k | 0 <= k < |rest| ensures rest[k].id != games[0].id {
          assert rest[k] in games[1..];
        }
        UniqueIdsCons(games[0], rest);
      }
    }
  }

  /** Removing keeps the identifiers pairwise distinct, provided they were before. */
  lemma RemovePreservesUniqueIds(s: Store, id: int)
    requires UniqueIds(s.games)
    ensures UniqueIds(Remove(s, id).games)
  {
    FilterPreservesUniqueIds(s.games, id);
  }

  /** Uniqueness holds after any sequence of writes when it held at load time. */
  lemma {:induction false} RunPreservesUniqueIds(s: Store, actions: seq<Action>)
    requires UniqueIds(s.games)
    ensures UniqueIds(Run(s, actions).games)
    decreases |actions|
  {
    if actions != [] {
      match actions[0] {
        case AddGame(g) => AddPreservesUniqueIds(s, g);
        case RemoveId(id) => RemovePreservesUniqueIds(s, id);
      }
      RunPreservesUniqueIds(Apply(s, actions[0]), actions[1..]);
    }
  }

  /** Loading does not establish uniqueness: a stored list with a repeated identifier is
      taken as it is, and `remove` then drops both copies. */
  lemma LoadAcceptsDuplicates()
    ensures var s := Load(Some([GameWithId(1), GameWithId(1)]));
      !UniqueIds(s.games) && |Remove(s, 1).games| == 0
  {
    var s := Load(Some([GameWithId(1), GameWithId(1)]));
    assert s.games[0].id == s.games[1].id;
  }

  // ---------------------------------------------------------------------------
  // add

  /** Adding the same game twice has the effect of adding it once. */
  lemma AddIdempotent(s: Store, g: Game)
    ensures Add(Add(s, g), g) == Add(s, g)
  {
  }

  /** After an insert `isFavorite` answers true for the game's identifier, and stays as it
      was for every other identifier. */
  lemma AddThenIsFavorite(s: Store, g: Game, id: int)
    ensures IsFavorite(Add(s, g), g.id)
    ensures id != g.id ==> (IsFavorite(Add(s, g), id) <==> IsFavorite(s, id))
  {
  }

  // ---------------------------------------------------------------------------
  // remove

  lemma {:induction false} CountPositive(games: seq<Game>, id: int)
    ensures Count(games, id) > 0 <==> HasId(games, id)
  {
    if games != [] {
      CountPositive(games[1..], id);
      if HasId(games, id) && games[0].id != id {
        var k :| 0 <= k < |games| && games[k].id == id;
        assert games[1..][k - 1].id == id;
      }
      if HasId(games[1..], id) {
        var k :| 0 <= k < |games[1..]| && games[1..][k].id == id;
        assert games[k + 1].id == id;
      }
    }
  }

  /** With distinct identifiers an identifier occurs at most once. */
  lemma {:induction false} CountUnique(games: seq<Game>, id: int)
    requires UniqueIds(games)
    ensures Count(games, id) == if HasId(games, id) then 1 else 0
  {
    CountPositive(games, id);
    if games != [] {
      assert games == [games[0]] + games[1..];
      UniqueIdsCons(games[0], games[1..]);
      CountUnique(games[1..], id);
      CountPositive(games[1..], id);
    }
  }

  /** Filtering drops exactly the elements carrying the identifier. */
  lemma {:induction false} FilterLength(games: seq<Game>, id: int)
    ensures |Filter(games, id)| == |games| - Count(games, id)
  {
    if games != [] {
      FilterLength(games[1..], id);
    }
  }

  /** `remove` shortens the list by the number of elements carrying the identifier; with
      distinct identifiers that is one when the identifier was present and zero otherwise. */
  lemma RemoveLength(s: Store, id: int)
    ensures |Remove(s, id).games| == |s.games| - Count(s.games, id)
    ensures UniqueIds(s.games) ==>
      |Remove(s, id).games| == |s.games| - (if HasId(s.games, id) then 1 else 0)
  {
    FilterLength(s.games, id);
    if UniqueIds(s.games) {
      CountUnique(s.games, id);
    }
  }

  /** After `remove(id)`, `isFavorite(id)` answers false. */
  lemma RemoveThenNotFavorite(s: Store, id: int)
    ensures !IsFavorite(Remove(s, id), id)
  {
  }

  /** Filtering distributes over concatenation and keeps or drops each element on its own:
      together these say the kept elements stay in their original relative order. */
  lemma {:induction false} FilterStable(a: seq<Game>, b: seq<Game>, id: int)
    ensures Filter(a + b, id) == Filter(a, id) + Filter(b, id)
    ensures forall g :: Filter([g], id) == if g.id == id then [] else [g]
  {
    forall g ensures Filter([g], id) == if g.id == id then [] else [g] {
      assert [g][1..] == [];
    }
    if a != [] {
      assert (a + b)[0] == a[0];
      assert (a + b)[1..] == a[1..] + b;
      FilterStable(a[1..], b, id);
    } else {
      assert a + b == b;
    }
  }

  /** Removing an identifier that is absent leaves the list as it was. */
  lemma {:induction false} FilterAbsent(games: seq<Game>, id: int)
    requires !HasId(games, id)
    ensures Filter(games, id) == games
  {
    if games != [] {
      assert games[0].id != id;
      forall k | 0 <= k < |games[1..]| ensures games[1..][k].id != id {
        assert games[1..][k] == games[k + 1];
      }
      FilterAbsent(games[1..], id);
      assert games == [games[0]] + games[1..];
    }
  }

  lemma RemoveAbsent(s: Store, id: int)
    requires !HasId(s.games, id)
    ensures Remove(s, id).games == s.games
  {
    FilterAbsent(s.games, id);
  }

  // ---------------------------------------------------------------------------
  // Persistence

  /** Every write that reaches storage leaves it equal to the in-memory list, so a fresh
      load from it yields the same list in the same order. */
  lemma ReloadAfterWrite(s: Store, a: Action)
    requires Mirrored(s) || s.games == []
    ensures Mirrored(Apply(s, a))
    ensures Load(Apply(s, a).storage) == Apply(s, a)
  {
  }

  /** A store loaded from any storage content is mirrored once it has been written to at
      least once, and stays mirrored afterwards. */
  lemma {:induction false} RunMirrored(storage: Option<seq<Game>>, actions: seq<Action>)
    requires actions != []
    ensures Mirrored(Run(Load(storage), actions))
  {
    var s1 := Apply(Load(storage), actions[0]);
    ReloadAfterWrite(Load(storage), actions[0]);
    RunFromMirrored(s1, actions[1..]);
  }

  lemma {:induction false} RunFromMirrored(s: Store, actions: seq<Action>)
    requires Mirrored(s)
    ensures Mirrored(Run(s, actions))
    decreases |actions|
  {
    if actions != [] {
      ReloadAfterWrite(s, actions[0]);
      RunFromMirrored(Apply(s, actions[0]), actions[1..]);
    }
  }

  // ---------------------------------------------------------------------------
  // The store test's scenario

  /** Adding game 1 to an empty store makes it a favorite and the only entry; removing it
      again leaves no favorite and an empty list. */
  lemma AddRemoveScenario()
    ensures var s1 := Add(Load(None), GameWithId(1));
      IsFavorite(s1, 1) && |s1.games| == 1
    ensures var s2 := Remove(Add(Load(None), GameWithId(1)), 1);
      !IsFavorite(s2, 1) && |s2.games| == 0
  {
  }
}
