/** The symbols a board cell can hold, shared by both versions of the engine. */
module Symbols {

  datatype Option<+T> = None | Some(value: T)

  /** A cell's content: one of the game's icons, or `null` while the cell is cleared. */
  datatype Sym = Null | Icon(glyph: string)

  /** The fixed icon alphabet of both games (the `icons` array). */
  const Icons: seq<Sym> := [Icon("🔥"), Icon("💧"), Icon("🌿"), Icon("✨"), Icon("🌑"), Icon("💗")]

  /** `randomIcon`: `Math.random` is replaced by an arbitrary choice of an index into `Icons`. */
  method RandomIcon() returns (s: Sym)
    ensures s in Icons && s != Null
  {
    var i :| 0 <= i < |Icons|;
    s := Icons[i];
  }

  /** `Math.min` on integers. */
  function Min(a: int, b: int): int
  {
    if a < b then a else b
  }

  /** `Math.max` on integers. */
  function Max(a: int, b: int): int
  {
    if a < b then b else a
  }
}
