/** The null-skipping property copy that `updateGame` performs with
    `BeanUtils.copyProperties(source, target, EntityUtils.getNullPropertyNames(source))`.
    The reflection behind both helpers is replaced by the `Property` enumeration. */
module BeanMerge {
  import opened Wrappers
  import opened Entities

  /** `EntityUtils.getNullPropertyNames(g)`: the properties whose value is null. */
  function NullPropertyNames(g: Game): (names: set<Property>)
    ensures forall p :: p in names <==> Get(g, p).None?
  {
    forall p ensures p in AllProperties { AllPropertiesComplete(p); }
    set p | p in AllProperties && Get(g, p).None?
  }

  function Pick<T>(ignored: bool, fromSource: T, fromTarget: T): T {
    if ignored then fromTarget else fromSource
  }

  /** `BeanUtils.copyProperties(source, target, ignore)`: the target after every
      property outside `ignore` has been copied over from the source. */
  function CopyProperties(source: Game, target: Game, ignore: set<Property>): (r: Game)
    ensures forall p :: Get(r, p) == if p in ignore then Get(target, p) else Get(source, p)
  {
    Game(
      Pick(Id in ignore, source.id, target.id),
      Pick(Title in ignore, source.title, target.title),
      Pick(Year in ignore, source.year, target.year),
      Pick(Genre in ignore, source.genre, target.genre),
      Pick(Platforms in ignore, source.platforms, target.platforms),
      Pick(ImgUrl in ignore, source.imgUrl, target.imgUrl),
      Pick(ShortDescription in ignore, source.shortDescription, target.shortDescription),
      Pick(LongDescription in ignore, source.longDescription, target.longDescription))
  }

  /** The record `updateGame` saves: each property that is non-null in `updates`
      overwrites the existing one, each null one leaves it as it was. The `id`
      property is no exception. */
  function Merge(existing: Game, updates: Game): (merged: Game)
    ensures forall p :: Get(updates, p).Some? ==> Get(merged, p) == Get(updates, p)
    ensures forall p :: Get(updates, p).None? ==> Get(merged, p) == Get(existing, p)
  {
    CopyProperties(updates, existing, NullPropertyNames(updates))
  }

  /** The per-property promises of a merge fix the record: any game that takes
      each non-null property from the updates and every other property from the
      existing game is the merge. So `UpdateGame`'s contract, stated property by
      property, determines the record it saves. Dafny closes this without
      `Entities.PropertiesDetermineGame`, which states the underlying fact. */
  lemma MergeDeterminedByProperties(existing: Game, updates: Game, saved: Game)
    requires forall p :: Get(updates, p).Some? ==> Get(saved, p) == Get(updates, p)
    requires forall p :: Get(updates, p).None? ==> Get(saved, p) == Get(existing, p)
    ensures saved == Merge(existing, updates)
  {
  }

  /** Applying the same updates twice changes nothing more. */
  lemma MergeIdempotent(existing: Game, updates: Game)
    ensures Merge(Merge(existing, updates), updates) == Merge(existing, updates)
  {
  }

  /** Updates with every property null (`new Game()`) leave the game as it was. */
  lemma MergeNothing(existing: Game)
    ensures Merge(existing, NewGame) == existing
  {
  }

  /** Two successive updates amount to one update with the second laid over the first. */
  lemma MergeCompose(existing: Game, first: Game, second: Game)
    ensures Merge(Merge(existing, first), second) == Merge(existing, Merge(first, second))
  {
  }

  /** Updates that set every property replace the game entirely. */
  lemma MergeTotal(existing: Game, updates: Game)
    requires forall p :: Get(updates, p).Some?
    ensures Merge(existing, updates) == updates
  {
  }
}
