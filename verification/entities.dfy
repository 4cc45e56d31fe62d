/** The `Game` entity, its bean properties, and the DTOs the service returns. */
module Entities {
  import opened Wrappers
  import opened JavaText

  /** The `Game` entity. Every property is a boxed Java value and so may be null.
      The floating-point `score` property is not part of this model. */
  datatype Game = Game(
    id: Option<Long>,
    title: Option<string>,
    year: Option<Int>,
    genre: Option<string>,
    platforms: Option<string>,
    imgUrl: Option<string>,
    shortDescription: Option<string>,
    longDescription: Option<string>)

  /** `new Game()`: every property null. */
  const NewGame: Game := Game(None, None, None, None, None, None, None, None)

  /** The modelled bean properties of `Game`: reflection also finds `score`, which
      is not modelled, and `class`, which `copyProperties` skips for lack of a setter. */
  datatype Property =
    | Id | Title | Year | Genre | Platforms | ImgUrl | ShortDescription | LongDescription

  const AllProperties: set<Property> :=
    {Id, Title, Year, Genre, Platforms, ImgUrl, ShortDescription, LongDescription}

  lemma AllPropertiesComplete(p: Property)
    ensures p in AllProperties
  {
  }

  /** A non-null property value, whatever its Java type. */
  datatype Value = Number(n: int) | Text(s: string)

  function NumberOf(v: Option<Int>): Option<Value> {
    match v
    case None => None
    case Some(n) => Some(Number(n))
  }

  function LongOf(v: Option<Long>): Option<Value> {
    match v
    case None => None
    case Some(n) => Some(Number(n))
  }

  function TextOf(v: Option<string>): Option<Value> {
    match v
    case None => None
    case Some(s) => Some(Text(s))
  }

  /** The bean getter for property `p`; `None` stands for a null value. */
  function Get(g: Game, p: Property): Option<Value> {
    match p
    case Id => LongOf(g.id)
    case Title => TextOf(g.title)
    case Year => NumberOf(g.year)
    case Genre => TextOf(g.genre)
    case Platforms => TextOf(g.platforms)
    case ImgUrl => TextOf(g.imgUrl)
    case ShortDescription => TextOf(g.shortDescription)
    case LongDescription => TextOf(g.longDescription)
  }

  /** A game is determined by the values of its bean properties: the `Get` view
      loses nothing, so contracts stated property by property (as those of the
      merge in `updateGame` are) speak about the whole record. */
  lemma PropertiesDetermineGame(a: Game, b: Game)
    requires forall p :: Get(a, p) == Get(b, p)
    ensures a == b
  {
    assert Get(a, Id) == Get(b, Id);
    assert Get(a, Title) == Get(b, Title);
    assert Get(a, Year) == Get(b, Year);
    assert Get(a, Genre) == Get(b, Genre);
    assert Get(a, Platforms) == Get(b, Platforms);
    assert Get(a, ImgUrl) == Get(b, ImgUrl);
    assert Get(a, ShortDescription) == Get(b, ShortDescription);
    assert Get(a, LongDescription) == Get(b, LongDescription);
  }

  /** A row of the `searchByList` query (`GameMinProjection`), in list order. */
  datatype Projection = Projection(id: Long, title: Option<string>)

  /** `GameDTO`, reduced to the properties this model carries. */
  datatype GameDto = GameDto(id: Option<Long>, title: Option<string>)

  /** `GameMinDTO`, reduced to the properties this model carries. */
  datatype GameMinDto = GameMinDto(id: Option<Long>, title: Option<string>)

  /** `new GameDTO(game)`. */
  function ToDto(g: Game): GameDto {
    GameDto(g.id, g.title)
  }

  /** `new GameMinDTO(game)`. */
  function ToMinDto(g: Game): GameMinDto {
    GameMinDto(g.id, g.title)
  }

  /** `new GameMinDTO(projection)`. */
  function ProjectionToMinDto(p: Projection): GameMinDto {
    GameMinDto(Some(p.id), p.title)
  }
}
