/** The shape of a game summary as the remote game service returns it.
    Only `id` takes part in the stores' logic; the other fields are carried along
    unchanged and compared only as part of the whole value. */
module GameTypes {

  datatype Genre = Genre(id: int, name: string, slug: string)

  datatype Platform = Platform(id: int, name: string, slug: string)

  /** One entry of `parent_platforms`: a wrapper around a platform. */
  datatype PlatformEntry = PlatformEntry(platform: Platform)

  datatype Game = Game(
    id: int,
    name: string,
    released: string,
    backgroundImage: string,
    rating: real,
    genres: seq<Genre>,
    parentPlatforms: seq<PlatformEntry>
  )

  /** A game that carries nothing but its identifier, as the store tests build them. */
  function GameWithId(id: int): (g: Game)
    ensures g.id == id
  {
    Game(id, "", "", "", 0.0, [], [])
  }
}
