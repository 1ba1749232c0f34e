/** The polygon entity shared by the store and the window: a reference object
    whose ID the store writes in place, and whose name labels it in menus. */
module Polygons {

  /** A value that may be absent; None stands for C#'s null. */
  datatype Option<T> = None | Some(value: T)

  const MinInt32: int := -0x8000_0000
  const MaxInt32: int := 0x7fff_ffff

  /** C#'s `int`: a 32-bit two's-complement integer. */
  type Int32 = x: int | -0x8000_0000 <= x <= 0x7fff_ffff

  /** The polygon of the map. Its vertices and geometry belong to the map
      library and play no part in the store or in the window's decisions. */
  class Polygon {
    var ID: Int32
    var Name: Option<string>

    /** A polygon not yet inserted carries the unset ID -1. */
    constructor (name: Option<string>)
      ensures ID == -1 && Name == name
    {
      ID := -1;
      Name := name;
    }
  }
}
