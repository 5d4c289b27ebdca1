/** Piece kinds, colours and pieces, and the per-colour constants of pawn play. */
module Pieces {

  /** An optional value: `None` stands for Java's `null`. */
  datatype Option<T> = None | Some(value: T)

  /** `PieceType`. */
  datatype PieceType = King | Queen | Rook | Bishop | Knight | Pawn

  /** `PieceColor`. */
  datatype PieceColor = White | Black

  /** `PieceColor.opposite`: the other colour. */
  function Opposite(c: PieceColor): (r: PieceColor)
    ensures r != c
  {
    if c == White then Black else White
  }

  /** An immutable (kind, colour) pair; two equal pairs are the same piece. */
  datatype Piece = Piece(kind: PieceType, color: PieceColor)

  /** Row step of a pawn of colour `c`: White moves towards row 0, Black towards row 7. */
  function PawnDir(c: PieceColor): int
  {
    if c == White then -1 else 1
  }

  /** The row from which a pawn of colour `c` may advance two squares. */
  function StartRow(c: PieceColor): int
  {
    if c == White then 6 else 1
  }

  /** The row on which a pawn of colour `c` is promoted. */
  function PromotionRow(c: PieceColor): int
  {
    if c == White then 0 else 7
  }
}
