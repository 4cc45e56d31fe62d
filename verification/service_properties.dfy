/** Properties relating the `GameService` operations to each other, and the
    concrete cases its unit tests pin down. */
module ServiceProperties {
  import opened Wrappers
  import opened JavaText
  import opened Entities
  import opened BeanMerge
  import opened Repository
  import opened GameService

  /** `deleteGame` succeeds exactly when the game has a list and `findByList`
      of that list reports it; the position it passes on is the index of the
      first such DTO. */
  lemma DeleteAgreesWithFindByList(repo: Repo, id: Long)
    ensures DeleteGame(repo, id).Ok? <==>
      id in repo.listOf &&
      exists i :: 0 <= i < |FindByList(repo, repo.listOf[id])| && FindByList(repo, repo.listOf[id])[i].id == Some(id)
    ensures DeleteGame(repo, id).Ok? ==>
      var dtos := FindByList(repo, repo.listOf[id]);
      var k := DeleteGame(repo, id).value.trace[1].position;
      && 0 <= k < |dtos|
      && dtos[k].id == Some(id)
      && forall j :: 0 <= j < k ==> dtos[j].id != Some(id)
  {
    if id in repo.listOf {
      var games := SearchByList(repo, repo.listOf[id]);
      var dtos := FindByList(repo, repo.listOf[id]);
      assert forall i :: 0 <= i < |games| ==> (dtos[i].id == Some(id) <==> games[i].id == id);
    }
  }

  /** A game that belongs to no list fails before any list contents are read:
      the outcome is the same whatever the lists and the game table hold. */
  lemma DeleteChecksListBeforeContents(repo: Repo, id: Long, table: seq<Game>, lists: map<Long, seq<Projection>>)
    requires id !in repo.listOf
    ensures DeleteGame(repo, id) == DeleteGame(repo.(table := table, lists := lists), id)
    ensures DeleteGame(repo, id) == Err(Runtime, NotInAnyList)
  {
  }

  /** The two positions are on different scales: a game appended to a list of
      `n` entries is inserted at position `n + 1`, and deleting that same last
      entry later renumbers from `n`. */
  lemma InsertAndDeletePositionsDiffer(
    repo: Repo, listId: Long, game: Game, save: Game -> Game, id: Long, title: Option<string>)
    requires forall i :: 0 <= i < |SearchByList(repo, listId)| ==> SearchByList(repo, listId)[i].id != id
    ensures
      var n := |SearchByList(repo, listId)|;
      var after := repo.(
        listOf := repo.listOf[id := listId],
        lists := repo.lists[listId := SearchByList(repo, listId) + [Projection(id, title)]]);
      && CreateGameInAList(repo, listId, game, save).trace[1].position == n + 1
      && DeleteGame(after, id).Ok?
      && DeleteGame(after, id).value.trace[1] == UpdateGamePositions(listId, n)
  {
    var games := SearchByList(repo, listId);
    var after := repo.(
      listOf := repo.listOf[id := listId],
      lists := repo.lists[listId := games + [Projection(id, title)]]);
    var grown := SearchByList(after, listId);
    assert grown == games + [Projection(id, title)];
    assert IsFirstMatch(grown, id, |games|);
  }

  /** `updateGame` fails exactly when `findById` does. */
  lemma UpdateFailsIffFindByIdFails(repo: Repo, id: Long, updates: Game)
    ensures UpdateGame(repo, id, updates).Err? <==> FindById(repo, id).Err?
  {
  }

  /** Because `copyProperties` copies the id too, the saved record keeps the
      looked-up id only when the updates leave their id null. */
  lemma UpdateSavedId(repo: Repo, id: Long, updates: Game)
    requires UpdateGame(repo, id, updates).Ok?
    ensures UpdateGame(repo, id, updates).value.trace[0].game.id ==
      if updates.id.Some? then updates.id else Some(id)
  {
  }

  /** Updating with `new Game()` saves the stored game unchanged. */
  lemma UpdateWithNothingSavesStoredGame(repo: Repo, id: Long, i: nat)
    requires WellFormed(repo)
    requires i < |repo.table| && repo.table[i].id == Some(id)
    ensures UpdateGame(repo, id, NewGame) == Ok(Reply((), [Save(repo.table[i])]))
  {
  }

  /** The update error message names the id: different ids give different messages. */
  lemma {:induction false} NotFoundMessageIdentifiesId(a: Long, b: Long)
    requires NotFoundWithId(a) == NotFoundWithId(b)
    ensures a == b
  {
    var n := |NotFoundPrefix|;
    assert LongToString(a) == NotFoundWithId(a)[n..];
    assert LongToString(b) == NotFoundWithId(b)[n..];
    LongToStringInjective(a, b);
  }

  /** The three messages of the service's own exceptions are pairwise different. */
  lemma ErrorMessagesDistinct(id: Long)
    ensures NotFoundWithId(id) != NotInAnyList
    ensures NotFoundWithId(id) != NotInList
    ensures NotInAnyList != NotInList
  {
  }

  /** The game `findById` returns is also among the rows `findAll` returns. */
  lemma FindByIdAmongFindAll(repo: Repo, id: Long)
    requires FindById(repo, id).Ok?
    ensures exists i :: (0 <= i < |FindAll(repo)| &&
      FindAll(repo)[i].id == Some(id) && FindAll(repo)[i].title == FindById(repo, id).value.title)
  {
    var i := RowIndex(repo.table, id).value;
    assert FindAll(repo)[i].id == Some(id);
  }

  /** In a stored table `findAll` reports no id twice. */
  lemma FindAllIdsDistinct(repo: Repo)
    requires WellFormed(repo)
    ensures forall i, j :: 0 <= i < j < |FindAll(repo)| ==> FindAll(repo)[i].id != FindAll(repo)[j].id
  {
  }

  // Cases from the service's unit tests.

  /** Saving into an empty list inserts at position 1, into a one-game list at 2. */
  lemma CreateScenarios()
    ensures
      var saved := NewGame.(id := Some(100));
      CreateGameInAList(Repo([], map[], map[]), 7, NewGame, _ => saved)
        == Reply(saved, [Save(NewGame), InsertBelonging(7, Some(100), 1)])
    ensures
      var game := NewGame.(id := Some(1), title := Some("Test Game"));
      var repo := Repo([], map[], map[1 := [Projection(1, Some("Test Game"))]]);
      CreateGameInAList(repo, 1, game, g => g).trace == [Save(game), InsertBelonging(1, Some(1), 2)]
  {
  }

  /** Deleting the second of two games renumbers from 1; with a duplicated id the first entry wins. */
  lemma DeleteScenarios()
    ensures
      var repo := Repo([], map[3 := 9], map[9 := [Projection(1, None), Projection(3, None)]]);
      DeleteGame(repo, 3) == Ok(Reply((), [RemoveGameFromList(3, 9), UpdateGamePositions(9, 1)]))
    ensures
      var p := Projection(1, Some("Test Game"));
      var repo := Repo([], map[1 := 1], map[1 := [p, p]]);
      DeleteGame(repo, 1) == Ok(Reply((), [RemoveGameFromList(1, 1), UpdateGamePositions(1, 0)]))
    ensures DeleteGame(Repo([], map[], map[]), 5) == Err(Runtime, "Game not found in any list.")
    ensures DeleteGame(Repo([], map[8 := 4], map[4 := [Projection(1, None)]]), 8) == Err(Runtime, "Game not found in the list.")
    ensures DeleteGame(Repo([], map[6 := 30], map[]), 6) == Err(Runtime, "Game not found in the list.")
  {
  }

  /** A title update overwrites the old title and keeps the id; an unknown id names itself. */
  lemma UpdateScenarios()
    ensures
      var existing := NewGame.(id := Some(2), title := Some("Old"));
      UpdateGame(Repo([existing], map[], map[]), 2, NewGame.(title := Some("New")))
        == Ok(Reply((), [Save(NewGame.(id := Some(2), title := Some("New")))]))
    ensures UpdateGame(Repo([], map[], map[]), 4, NewGame) == Err(Runtime, "Game not found with id: 4")
  {
  }

  /** Lookups keep ids and order; an unknown id fails with the
      `NoSuchElementException` of `Optional.get()`. */
  lemma FindScenarios()
    ensures
      var repo := Repo([NewGame.(id := Some(1)), NewGame.(id := Some(2))], map[], map[]);
      FindAll(repo) == [GameMinDto(Some(1), None), GameMinDto(Some(2), None)]
    ensures
      var repo := Repo([], map[], map[5 := [Projection(10, None), Projection(20, None)]]);
      FindByList(repo, 5) == [GameMinDto(Some(10), None), GameMinDto(Some(20), None)]
    ensures FindByList(Repo([], map[], map[]), 10) == []
    ensures FindById(Repo([NewGame.(id := Some(1))], map[], map[]), 1) == Ok(GameDto(Some(1), None))
    ensures FindById(Repo([], map[], map[]), 2) == Err(NoSuchElement, "No value present")
  {
  }
}
