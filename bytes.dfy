/** Byte-level vocabulary shared by the grid store and the UI layer: the `u8`
    machine type, an `Option` for the source's `Option<T>` arguments, and the
    RGBA colour tuple `Col` together with the named colours the library uses. */
module Bytes {

  /** An unsigned 8-bit integer, as stored in every grid buffer. */
  newtype u8 = x: int | 0 <= x < 256

  datatype Option<+T> = None | Some(value: T) {
    /** The wrapped value, or `default` when there is none. */
    function GetOr(default: T): T {
      match this
      case Some(v) => v
      case None => default
    }
  }

  /** `Col` in the source: an (r, g, b, a) tuple of bytes. */
  datatype Col = Col(r: u8, g: u8, b: u8, a: u8)

  /** Named colours from the library's colour table that the core uses. */
  const Black := Col(0, 0, 0, 255)
  const White := Col(255, 255, 255, 255)
  const Transparent := Col(0, 0, 0, 0)
}
