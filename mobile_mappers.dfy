/** The games journal's row types (one per SQLite table) and the mappers that turn a row into the
    entity the screens use.  `null` and a missing column are both `None`. */
module MobileMappers {
  import opened Common

  datatype DbUser = DbUser(id: int, username: string, email: string, avatar: Option<string>)
  datatype DbGame = DbGame(id: int, title: string, platform: string, genre: string, cover_image: Option<string>)
  /** `rating` is a JavaScript number: the column has INTEGER affinity, so a fractional value such
      as 2.5 is kept as it is. */
  datatype DbReview = DbReview(id: int, user_id: int, game_id: int, rating: real, comment: string, created_at: string)

  datatype User = User(id: int, username: string, email: string, avatar: Option<string>)
  datatype Game = Game(id: int, title: string, platform: string, genre: string, coverImage: Option<string>)
  datatype Review = Review(id: int, userId: int, gameId: int, rating: real, comment: string, createdAt: string)
  datatype ReviewDetail = ReviewDetail(review: Review, user: User, game: Game)

  function MapGame(row: DbGame): (g: Game)
    ensures g.id == row.id && g.title == row.title && g.platform == row.platform && g.genre == row.genre
    ensures g.coverImage.None? <==> row.cover_image.None?
    ensures row.cover_image.Some? ==> g.coverImage == row.cover_image
  {
    Game(row.id, row.title, row.platform, row.genre, if row.cover_image.Some? then row.cover_image else None)
  }

  function MapUser(row: DbUser): (u: User)
    ensures u.id == row.id && u.username == row.username && u.email == row.email
    ensures u.avatar.None? <==> row.avatar.None?
    ensures row.avatar.Some? ==> u.avatar == row.avatar
  {
    User(row.id, row.username, row.email, if row.avatar.Some? then row.avatar else None)
  }

  function MapReview(row: DbReview): Review {
    Review(row.id, row.user_id, row.game_id, row.rating, row.comment, row.created_at)
  }

  /** The rows the entities came from: each mapper is undone by its partner. */
  function GameRow(g: Game): DbGame {
    DbGame(g.id, g.title, g.platform, g.genre, g.coverImage)
  }

  function UserRow(u: User): DbUser {
    DbUser(u.id, u.username, u.email, u.avatar)
  }

  function ReviewRow(r: Review): DbReview {
    DbReview(r.id, r.userId, r.gameId, r.rating, r.comment, r.createdAt)
  }

  lemma GameRoundTrip(row: DbGame, g: Game)
    ensures GameRow(MapGame(row)) == row
    ensures MapGame(GameRow(g)) == g
  {
  }

  lemma UserRoundTrip(row: DbUser, u: User)
    ensures UserRow(MapUser(row)) == row
    ensures MapUser(UserRow(u)) == u
  {
  }

  /** `mapReview` is a pure renaming of the columns, so no information is lost either way. */
  lemma ReviewRoundTrip(row: DbReview, r: Review)
    ensures ReviewRow(MapReview(row)) == row
    ensures MapReview(ReviewRow(r)) == r
    ensures MapReview(row).userId == row.user_id && MapReview(row).gameId == row.game_id
    ensures MapReview(row).createdAt == row.created_at
  {
  }
}
