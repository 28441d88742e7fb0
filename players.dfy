/** The `Player` enumeration of board_classes.py: the first mover, the second
    mover and the neutral value. Each carries a numeric value (+1, -1, 0) that the
    rules write into cells and sum along lines. */
module Players {

  /** `Nobody` is the source's `Player.none`. */
  datatype Player = A | B | Nobody

  /** The enumeration value. The source stores 1.0, -1.0 and 0.0; these are
      exact in floating point, so integers model them without loss. */
  function Value(p: Player): int
  {
    match p
    case A => 1
    case B => -1
    case Nobody => 0
  }

}
