# GameService list bookkeeping, in Dafny

This project models `GameService` of the `dslist` application. It is the
service that reads games, creates a game inside a list, updates a game with a
partial record, and deletes a game from its list.

The repositories are an immutable snapshot (`Repository.Repo`). It holds three things:
- the game table, in the order `findAll` returns it;
- the answer of `searchListIdByGameId`, as a map from game id to list id;
- the answer of `searchByList`, as a map from list id to the ordered rows of that list.

Each service method is a pure function over that snapshot:
- `FindAll` and `FindByList` return their list of DTOs; they cannot fail.
- `FindById` returns `Ok(dto)`, or `Err(NoSuchElement, "No value present")` when
  `Optional.get()` finds no game.
- `CreateGameInAList` throws nothing of its own and returns `Reply(value, trace)`:
  the saved game and the repository writes it issues, in order.
- `UpdateGame` and `DeleteGame` return `Ok(Reply((), trace))`, or
  `Err(Runtime, message)`: a plain `RuntimeException` with its exact message.

The writes in a trace are `Save`, `InsertBelonging`, `RemoveGameFromList` and
`UpdateGamePositions`. A failing call carries no trace: the method throws before
any write, and the transaction is rolled back.

Modules:
- `Wrappers`: `Option` (null / empty `Optional`), `Result`, and the exception classes `Thrown`.
- `JavaText`: Java `long`/`int` ranges and `Long.toString`, with its parse round trip.
- `Entities`: the `Game` entity as a record of nullable properties, its bean
  properties, and the DTOs.
- `BeanMerge`: the null-skipping `copyProperties` merge of `updateGame`.
- `Repository`: the snapshot, the write commands, and the key lookup by id.
- `GameService`: the six service methods.
- `ServiceProperties`: lemmas relating the methods to each other, and the
  concrete cases of the unit tests.

Two positions are kept as the code writes them. They are not reconciled:
- `createGameInAList` inserts at `size() + 1`, so the first game of a list gets position 1.
- `deleteGame` passes the 0-based index of the removed entry to `updateGamePositions`.

`ServiceProperties.InsertAndDeletePositionsDiffer` states the off-by-one between the two.
The SQL behind `updateGamePositions` is not part of this model, so the model records only the command.
It does not record that command's effect.

## Model

The helpers `Entities.ToDto`, `Entities.ToMinDto` and `Entities.ProjectionToMinDto`
(the DTO constructors), `Repository.SearchByList` and `Repository.SearchListIdByGameId`
(the answers of the two repository queries) and `GameService.NotFoundWithId` (the
message builder of `updateGame`) have no row: each is stated through the contracts of
the members below that use it.

| member | source | states |
|---|---|---|
| GameService.FindById | dslist/GameService/GameService.java:27-31 | succeeds exactly when some stored row has the id, and the DTO is the one built from such a row (its id and title); otherwise throws `Optional.get()`'s `NoSuchElementException` with message "No value present" |
| GameService.FindAll | dslist/GameService/GameService.java:33-37 | one DTO per stored row, same length, same order, each with its row's id and title |
| GameService.FindByList | dslist/GameService/GameService.java:39-43 | one DTO per entry of the list's rows, in list order with the same ids and titles; an unknown list gives the empty list |
| GameService.MapSeq | dslist/GameService/GameService.java:36 | `stream().map(f).toList()` keeps the length and applies `f` at every index |
| GameService.CreateGameInAList | dslist/GameService/GameService.java:45-56 | returns what `save` returned; issues exactly `Save(game)` then `InsertBelonging(listId, savedId, n + 1)` where `n` is the number of DTOs `findByList` reports for the list |
| GameService.UpdateGame | dslist/GameService/GameService.java:58-66 | throws a `RuntimeException` "Game not found with id: " followed by the decimal id exactly when no row has the id; otherwise issues exactly one `Save` whose non-null-in-updates properties come from the updates and all others from the stored game |
| GameService.PositionIn | dslist/GameService/GameService.java:77-84 | absent exactly when no entry has the id; otherwise the least index whose entry has the id |
| GameService.RemovedPosition | dslist/GameService/GameService.java:77-87 | the counting loop with `break` leaves -1 exactly when no entry matches, else the first matching index; agrees with `PositionIn` |
| GameService.DeleteGame | dslist/GameService/GameService.java:68-92 | no list throws a `RuntimeException` "Game not found in any list."; a list whose rows lack the id throws one with "Game not found in the list."; otherwise exactly `RemoveGameFromList(id, listId)` then `UpdateGamePositions(listId, k)` with `k` the first matching 0-based index |
| Repository.RowIndex | dslist/GameService/GameService.java:29 | the key lookup of `findById`: absent exactly when no row has the id, else the least index of a row with it |
| Repository.FindGame | dslist/GameService/GameService.java:29 | `gameRepository.findById`: empty exactly when no row has the id; otherwise a stored row carrying that id |
| Repository.FindGameUnique | dslist/GameService/GameService.java:60 | in a table with distinct ids, the lookup finds the one row with that id |
| BeanMerge.NullPropertyNames | dslist/GameService/GameService.java:63 | `EntityUtils.getNullPropertyNames`: a property is named exactly when its value in the updates is null |
| BeanMerge.CopyProperties | dslist/GameService/GameService.java:63 | every property outside the ignore set takes the source value; every ignored one keeps the target value |
| BeanMerge.Merge | dslist/GameService/GameService.java:63 | non-null properties of the updates, the id included, overwrite; null ones leave the existing value |
| BeanMerge.MergeDeterminedByProperties | dslist/GameService/GameService.java:63-65 | any record taking each non-null property from the updates and the rest from the existing game is the merge, so the per-property contract of `updateGame` fixes the saved record |
| BeanMerge.MergeIdempotent | dslist/GameService/GameService.java:63 | applying the same updates twice equals applying them once |
| BeanMerge.MergeNothing | dslist/GameService/GameService.java:63 | updates with every property null leave the game unchanged |
| BeanMerge.MergeCompose | dslist/GameService/GameService.java:63 | two successive updates equal one update with the second laid over the first |
| BeanMerge.MergeTotal | dslist/GameService/GameService.java:63 | updates with no null property replace the game entirely |
| Entities.PropertiesDetermineGame | dslist/GameService/GameService.java:63 | two games whose bean properties all agree are equal |
| JavaText.LongToString | dslist/GameService/GameService.java:61 | the `"..." + id` conversion: a non-empty decimal with a leading '-' exactly for negative ids, and no leading zero |
| JavaText.ParseNatDigits | dslist/GameService/GameService.java:61 | reading back the decimal digits of `n` gives `n` |
| JavaText.LongToStringRoundTrip | dslist/GameService/GameService.java:61 | `Long.toString` produces a well-formed decimal that parses back to the same value |
| JavaText.LongToStringInjective | dslist/GameService/GameService.java:61 | distinct ids print differently |
| ServiceProperties.DeleteAgreesWithFindByList | dslist/GameService/GameService.java:68-92 | delete succeeds iff the game has a list and `findByList` of it reports the id; the position passed on indexes the first such DTO |
| ServiceProperties.DeleteChecksListBeforeContents | dslist/GameService/GameService.java:70-73 | for a game in no list the outcome is the `RuntimeException` "Game not found in any list." whatever the list contents and game table |
| ServiceProperties.InsertAndDeletePositionsDiffer | dslist/GameService/GameService.java:46-91 | appending to a list of `n` entries inserts at `n + 1`, while deleting that last entry passes `n` |
| ServiceProperties.UpdateFailsIffFindByIdFails | dslist/GameService/GameService.java:28-61 | `updateGame` fails exactly when `findById` fails for the same id |
| ServiceProperties.UpdateSavedId | dslist/GameService/GameService.java:60-65 | the saved id is the updates' id when that is non-null, else the looked-up id |
| ServiceProperties.UpdateWithNothingSavesStoredGame | dslist/GameService/GameService.java:60-65 | updating with `new Game()` saves the stored row unchanged |
| ServiceProperties.NotFoundMessageIdentifiesId | dslist/GameService/GameService.java:61 | different ids give different "not found" messages |
| ServiceProperties.ErrorMessagesDistinct | dslist/GameService/GameService.java:61-86 | the three `RuntimeException` messages differ pairwise |
| ServiceProperties.FindByIdAmongFindAll | dslist/GameService/GameService.java:28-37 | the game `findById` returns appears, with its title, among the `findAll` results |
| ServiceProperties.FindAllIdsDistinct | dslist/GameService/GameService.java:33-37 | in a table with distinct ids, `findAll` reports no id twice |
| ServiceProperties.CreateScenarios | dslist/GameService/CONTEXT_MANAGER.java:76-88 | an empty list gives position 1; a one-game list (TREE_OF_THOUGHTS.java:85-92) gives 2 |
| ServiceProperties.DeleteScenarios | dslist/GameService/CONTEXT_MANAGER.java:102-138 | deleting the second of two games passes 1; a duplicated id passes 0 (TREE_OF_THOUGHTS.java:111-118); the two `RuntimeException` outcomes with their messages |
| ServiceProperties.UpdateScenarios | dslist/GameService/CONTEXT_MANAGER.java:90-100 | a title update keeps the id and replaces the title; an unknown id 4 throws a `RuntimeException` (ROLE_PROMPTING.java:97-100), whose message "Game not found with id: 4" is the one GameService.java:61 builds |
| ServiceProperties.FindScenarios | dslist/GameService/CONTEXT_MANAGER.java:34-72 | ids and order of `findAll` and `findByList`; empty list; an unknown id 2 makes `findById` throw `NoSuchElementException` (PROMPT_AUGMENTATION.java:65-70), with the message "No value present" of the `Optional.get()` at GameService.java:29 |

## Left out

- Spring wiring and `@Transactional`: a failing call is modelled as issuing no writes, which is what the rollback achieves.
- The effect of the write commands on the stored data: `save`, `insertBelonging`, `removeGameFromList` and `updateGamePositions` run JPA or SQL that is not part of this model, so they appear only as emitted commands.
- `save` itself: `CreateGameInAList` takes it as a function parameter, since the id it assigns comes from the database.
- The reflection inside `BeanUtils.copyProperties` and `EntityUtils.getNullPropertyNames`: replaced by the fixed `Property` enumeration of the `Game` entity.
- The `score` property (a Java `Double`): floating point is not modelled. It merges by the same null-skipping rule as the others.
- DTO properties other than id and title: the DTO classes are not part of this model.
- Null arguments (`findById(null)` and the like) and null ids inside the list rows: ids are modelled as non-null `Long` values.
- GameService.CreateGameInAList: does not model the 32-bit wrap of `size() + 1`. A `searchByList` result of 2^31 - 1 or more rows is not considered, so the position is modelled as the unbounded `|list| + 1`.
- The Java exception hierarchy: `Thrown` records which class is thrown, not that `NoSuchElementException` extends `RuntimeException`. A test expecting a `RuntimeException` from `findById` (dslist/GameService/TREE_OF_THOUGHTS.java:59) holds in Java through that subclass relation, which the model does not state.
