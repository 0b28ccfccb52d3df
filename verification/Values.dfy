/** Values that several components use. */
module Values {

  datatype Option<+T> = None | Some(value: T)

  /** What is added to each side of a rectangle. */
  datatype Extents = Extents(left: int, right: int, top: int, bottom: int)

  const NO_EXTENTS := Extents(0, 0, 0, 0)
}
