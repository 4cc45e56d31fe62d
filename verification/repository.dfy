/** The repositories `GameService` talks to, as an immutable snapshot of what
    their queries answer, and the write commands the service issues to them. */
module Repository {
  import opened Wrappers
  import opened JavaText
  import opened Entities

  /** What the repositories hold when a service method starts.
      - `table`: the game rows, in the order `findAll` returns them;
      - `listOf`: what `searchListIdByGameId` answers (a missing key is `null`);
      - `lists`: what `searchByList` answers for each list, in list order
        (a missing key is an empty list). */
  datatype Repo = Repo(
    table: seq<Game>,
    listOf: map<Long, Long>,
    lists: map<Long, seq<Projection>>)

  /** A stored table: every row has an id and no two rows share one. */
  predicate WellFormed(repo: Repo) {
    && (forall i :: 0 <= i < |repo.table| ==> repo.table[i].id.Some?)
    && (forall i, j :: 0 <= i < j < |repo.table| ==> repo.table[i].id != repo.table[j].id)
  }

  /** A repository write, in the order the service issues them. */
  datatype Command =
    | Save(game: Game)
    | InsertBelonging(listId: Long, savedId: Option<Long>, position: int)
    | RemoveGameFromList(gameId: Long, listId: Long)
    | UpdateGamePositions(listId: Long, position: int)

  /** The least index of a row whose id is `id`, if any. */
  function RowIndex(rows: seq<Game>, id: Long): (r: Option<nat>)
    ensures r.None? <==> forall i :: 0 <= i < |rows| ==> rows[i].id != Some(id)
    ensures r.Some? ==> r.value < |rows| && rows[r.value].id == Some(id)
    ensures r.Some? ==> forall j :: 0 <= j < r.value ==> rows[j].id != Some(id)
  {
    if rows == [] then None
    else if rows[0].id == Some(id) then Some(0)
    else match RowIndex(rows[1..], id)
      case None => None
      case Some(k) => Some(k + 1)
  }

  /** `gameRepository.findById(id)`: the row keyed by `id`, or empty. */
  function FindGame(repo: Repo, id: Long): (r: Option<Game>)
    ensures r.None? <==> forall i :: 0 <= i < |repo.table| ==> repo.table[i].id != Some(id)
    ensures r.Some? ==> r.value.id == Some(id) && r.value in repo.table
  {
    match RowIndex(repo.table, id)
    case None => None
    case Some(i) => Some(repo.table[i])
  }

  /** In a stored table the row found by id is the only row with that id. */
  lemma FindGameUnique(repo: Repo, id: Long, i: nat)
    requires WellFormed(repo)
    requires i < |repo.table| && repo.table[i].id == Some(id)
    ensures FindGame(repo, id) == Some(repo.table[i])
  {
  }

  /** `gameRepository.searchByList(listId)`. */
  function SearchByList(repo: Repo, listId: Long): seq<Projection> {
    if listId in repo.lists then repo.lists[listId] else []
  }

  /** `gameRepository.searchListIdByGameId(id)`. */
  function SearchListIdByGameId(repo: Repo, id: Long): Option<Long> {
    if id in repo.listOf then Some(repo.listOf[id]) else None
  }
}
