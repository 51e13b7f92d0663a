/** The 26 directions under the names the communicator gives their ranks,
    lists, counts and buffers (rank_xYz, sendList_xYz, ...): a lower-case
    letter moves -1 along its axis, an upper-case letter +1. */
module Suffixes {
  import opened Directions

  const x: Direction := Offset(Neg, Zero, Zero)
  const X: Direction := Offset(Pos, Zero, Zero)
  const y: Direction := Offset(Zero, Neg, Zero)
  const Y: Direction := Offset(Zero, Pos, Zero)
  const z: Direction := Offset(Zero, Zero, Neg)
  const Z: Direction := Offset(Zero, Zero, Pos)
  const xy: Direction := Offset(Neg, Neg, Zero)
  const xY: Direction := Offset(Neg, Pos, Zero)
  const Xy: Direction := Offset(Pos, Neg, Zero)
  const XY: Direction := Offset(Pos, Pos, Zero)
  const xz: Direction := Offset(Neg, Zero, Neg)
  const xZ: Direction := Offset(Neg, Zero, Pos)
  const Xz: Direction := Offset(Pos, Zero, Neg)
  const XZ: Direction := Offset(Pos, Zero, Pos)
  const yz: Direction := Offset(Zero, Neg, Neg)
  const yZ: Direction := Offset(Zero, Neg, Pos)
  const Yz: Direction := Offset(Zero, Pos, Neg)
  const YZ: Direction := Offset(Zero, Pos, Pos)
  const xyz: Direction := Offset(Neg, Neg, Neg)
  const xyZ: Direction := Offset(Neg, Neg, Pos)
  const xYz: Direction := Offset(Neg, Pos, Neg)
  const xYZ: Direction := Offset(Neg, Pos, Pos)
  const Xyz: Direction := Offset(Pos, Neg, Neg)
  const XyZ: Direction := Offset(Pos, Neg, Pos)
  const XYz: Direction := Offset(Pos, Pos, Neg)
  const XYZ: Direction := Offset(Pos, Pos, Pos)

  /** Each constant is the direction its name denotes under the naming rule. */
  lemma SuffixesFollowNaming()
    ensures
    Named("x") == x &&
    Named("X") == X &&
    Named("y") == y &&
    Named("Y") == Y &&
    Named("z") == z &&
    Named("Z") == Z &&
    Named("xy") == xy &&
    Named("xY") == xY &&
    Named("Xy") == Xy &&
    Named("XY") == XY &&
    Named("xz") == xz &&
    Named("xZ") == xZ &&
    Named("Xz") == Xz &&
    Named("XZ") == XZ &&
    Named("yz") == yz &&
    Named("yZ") == yZ &&
    Named("Yz") == Yz &&
    Named("YZ") == YZ &&
    Named("xyz") == xyz &&
    Named("xyZ") == xyZ &&
    Named("xYz") == xYz &&
    Named("xYZ") == xYZ &&
    Named("Xyz") == Xyz &&
    Named("XyZ") == XyZ &&
    Named("XYz") == XYz &&
    Named("XYZ") == XYZ
  {
  }
}
