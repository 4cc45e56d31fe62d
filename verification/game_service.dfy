/** `GameService`: each public method as a pure function of the repository
    snapshot. The reads `findAll` and `findByList` return their DTOs; `findById`
    returns its DTO or the `NoSuchElementException` of `Optional.get()`.
    `createGameInAList` returns the saved game with the writes it issues, in
    order; `updateGame` and `deleteGame` return those writes or the class and
    message of the `RuntimeException` they throw. A failing call issues no
    writes (the transaction is rolled back). */
module GameService {
  import opened Wrappers
  import opened JavaText
  import opened Entities
  import opened BeanMerge
  import opened Repository

  /** The message of the `NoSuchElementException` thrown by `Optional.get()`. */
  const NoValuePresent: string := "No value present"
  const NotInAnyList: string := "Game not found in any list."
  const NotInList: string := "Game not found in the list."
  const NotFoundPrefix: string := "Game not found with id: "

  /** The message `updateGame` throws for an unknown id. */
  function NotFoundWithId(id: Long): string {
    NotFoundPrefix + LongToString(id)
  }

  /** A successful call: what it returns, and the writes it issued. */
  datatype Reply<+T> = Reply(value: T, trace: seq<Command>)

  /** `list.stream().map(f).toList()`. */
  function MapSeq<A, B>(f: A -> B, s: seq<A>): (r: seq<B>)
    ensures |r| == |s|
    ensures forall i :: 0 <= i < |s| ==> r[i] == f(s[i])
  {
    if s == [] then [] else [f(s[0])] + MapSeq(f, s[1..])
  }

  /** `findById`: the DTO of the game keyed by `id`; `Optional.get()` throws when there is none. */
  function FindById(repo: Repo, id: Long): (r: Result<GameDto>)
    ensures r.Ok? <==> exists i :: 0 <= i < |repo.table| && repo.table[i].id == Some(id)
    ensures r.Ok? ==> r.value.id == Some(id)
    ensures r.Ok? ==> exists i :: 0 <= i < |repo.table| && repo.table[i].id == Some(id) && r.value == ToDto(repo.table[i])
    ensures r.Err? ==> r.thrown == NoSuchElement && r.message == NoValuePresent
  {
    match FindGame(repo, id)
    case None => Err(NoSuchElement, NoValuePresent)
    case Some(g) => Ok(ToDto(g))
  }

  /** `findAll`: one DTO per stored row, in row order. */
  function FindAll(repo: Repo): (r: seq<GameMinDto>)
    ensures |r| == |repo.table|
    ensures forall i :: 0 <= i < |r| ==> r[i].id == repo.table[i].id && r[i].title == repo.table[i].title
  {
    MapSeq(ToMinDto, repo.table)
  }

  /** `findByList`: one DTO per entry of the list, in list order; an unknown list gives none. */
  function FindByList(repo: Repo, listId: Long): (r: seq<GameMinDto>)
    ensures |r| == |SearchByList(repo, listId)|
    ensures forall i :: 0 <= i < |r| ==>
      r[i].id == Some(SearchByList(repo, listId)[i].id) && r[i].title == SearchByList(repo, listId)[i].title
    ensures listId !in repo.lists ==> r == []
  {
    MapSeq(ProjectionToMinDto, SearchByList(repo, listId))
  }

  /** `createGameInAList`. `save` is the repository's `save`, which returns the
      stored game with its id. The new game is placed one past the current
      length of the list: position 1 for an empty list. */
  function CreateGameInAList(repo: Repo, listId: Long, game: Game, save: Game -> Game): (r: Reply<Game>)
    ensures r.value == save(game)
    ensures |r.trace| == 2 && r.trace[0] == Save(game)
    ensures r.trace[1] == InsertBelonging(listId, save(game).id, |FindByList(repo, listId)| + 1)
    ensures r.trace[1].position >= 1
  {
    var gameListSize := |SearchByList(repo, listId)| + 1;
    var gameSaved := save(game);
    Reply(gameSaved, [Save(game), InsertBelonging(listId, gameSaved.id, gameListSize)])
  }

  /** `updateGame`: the game keyed by `id`, with every non-null property of
      `updates` copied over it, is saved once. */
  function UpdateGame(repo: Repo, id: Long, updates: Game): (r: Result<Reply<()>>)
    ensures r.Ok? <==> exists i :: 0 <= i < |repo.table| && repo.table[i].id == Some(id)
    ensures r.Err? ==> r.thrown == Runtime && r.message == NotFoundWithId(id)
    ensures r.Ok? ==> |r.value.trace| == 1 && r.value.trace[0].Save?
    ensures r.Ok? ==> forall p :: Get(updates, p).Some? ==> Get(r.value.trace[0].game, p) == Get(updates, p)
    ensures r.Ok? ==> forall p :: Get(updates, p).None? ==>
      Get(r.value.trace[0].game, p) == Get(FindGame(repo, id).value, p)
  {
    match FindGame(repo, id)
    case None => Err(Runtime, NotFoundWithId(id))
    case Some(existingGame) => Ok(Reply((), [Save(Merge(existingGame, updates))]))
  }

  /** `k` is the position of the first entry of `games` whose id is `id`. */
  predicate IsFirstMatch(games: seq<Projection>, id: Long, k: int) {
    && 0 <= k < |games|
    && games[k].id == id
    && forall j :: 0 <= j < k ==> games[j].id != id
  }

  /** The search loop of `deleteGame`: the 0-based index of the first entry with id `id`. */
  function PositionIn(games: seq<Projection>, id: Long): (r: Option<nat>)
    ensures r.None? <==> forall i :: 0 <= i < |games| ==> games[i].id != id
    ensures r.Some? ==> IsFirstMatch(games, id, r.value)
  {
    if games == [] then None
    else if games[0].id == id then Some(0)
    else match PositionIn(games[1..], id)
      case None => None
      case Some(k) => Some(k + 1)
  }

  /** The same search as the source writes it: a counting loop that stops at
      the first match and leaves -1 when there is none. */
  method RemovedPosition(games: seq<Projection>, id: Long) returns (removedPosition: int)
    ensures removedPosition == -1 <==> forall i :: 0 <= i < |games| ==> games[i].id != id
    ensures removedPosition != -1 ==> IsFirstMatch(games, id, removedPosition)
    ensures removedPosition == match PositionIn(games, id) case None => -1 case Some(k) => k
  {
    removedPosition := -1;
    var i := 0;
    while i < |games|
      invariant 0 <= i <= |games|
      invariant removedPosition == -1
      invariant forall j :: 0 <= j < i ==> games[j].id != id
    {
      if games[i].id == id {
        removedPosition := i;
        break;
      }
      i := i + 1;
    }
  }

  /** `deleteGame`: a game in no list fails before any list is read; a game
      missing from its list's contents fails next; otherwise the game is
      removed and the positions are renumbered from the 0-based index it had. */
  function DeleteGame(repo: Repo, id: Long): (r: Result<Reply<()>>)
    ensures id !in repo.listOf ==> r == Err(Runtime, NotInAnyList)
    ensures id in repo.listOf ==>
      var listId := repo.listOf[id];
      var games := SearchByList(repo, listId);
      && (r.Err? <==> forall i :: 0 <= i < |games| ==> games[i].id != id)
      && (r.Err? ==> r.thrown == Runtime && r.message == NotInList)
      && (r.Ok? ==>
        && |r.value.trace| == 2
        && r.value.trace[0] == RemoveGameFromList(id, listId)
        && r.value.trace[1].UpdateGamePositions?
        && r.value.trace[1].listId == listId
        && IsFirstMatch(games, id, r.value.trace[1].position))
  {
    match SearchListIdByGameId(repo, id)
    case None => Err(Runtime, NotInAnyList)
    case Some(listId) =>
      match PositionIn(SearchByList(repo, listId), id)
      case None => Err(Runtime, NotInList)
      case Some(removedPosition) =>
        Ok(Reply((), [RemoveGameFromList(id, listId), UpdateGamePositions(listId, removedPosition)]))
  }
}
