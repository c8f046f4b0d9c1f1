/** The shared types of the game: room status, optional values and players. */
module GameTypes {

  /** A value that may be absent (the source's `null`). */
  datatype Option<T> = None | Some(value: T)

  /** The phases a room goes through. */
  datatype GameStatus = Lobby | Setup | Playing | Finished

  /**
   One participant as the store keeps it. `createdAt` is optional because the
   record the store builds for the local player leaves it out.
   */
  datatype Player = Player(
    id: string,
    name: string,
    isHost: bool,
    isReady: bool,
    board: seq<int>,
    checkedIndices: seq<int>,
    createdAt: Option<string>)
}
