/** The records shared by the model and the client (src/types/canvas.ts). */
module CanvasTypes {

  /** A painted cell. `owner` is the placing actor's address and `timestamp`
      is in milliseconds since the epoch. */
  datatype Pixel = Pixel(x: int, y: int, color: string, owner: string, timestamp: int)

  /** The canvas key of cell (x, y); the source spells it as the string "x,y",
      which is injective on integer pairs. */
  type Key = (int, int)

  /** One row of the client's users view. `totalTokensSpent` is a floating-point
      amount and is not part of this model. */
  datatype UserData = UserData(address: string, pixelsPlaced: nat, lastPixelTime: int)
}
