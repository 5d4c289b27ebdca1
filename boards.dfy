/**
  * Squares, offsets and the 8x8 board as a value: the live board of the panel,
  * its scratch copies and the standard initial layout all have this shape.
  */
module Boards {
  import opened Pieces

  /** `BOARD_SIZE`: the number of rows and of columns. */
  const Size := 8

  /** A square; `java.awt.Point` with `x` the row and `y` the column. */
  datatype Square = Square(row: int, col: int)

  /** A (row, column) step, as in the source's `int[]` offset and direction pairs. */
  datatype Offset = Offset(dr: int, dc: int)

  function Shift(s: Square, d: Offset): Square
  {
    Square(s.row + d.dr, s.col + d.dc)
  }

  /** `inBounds`. */
  predicate InBounds(s: Square)
  {
    0 <= s.row < Size && 0 <= s.col < Size
  }

  type Cell = Option<Piece>

  /** An 8x8 grid of optional pieces, indexed by row and then column. */
  type Board = b: seq<seq<Cell>> | |b| == Size && forall i | 0 <= i < |b| :: |b[i]| == Size
    witness seq(8, _ => EmptyRank())

  function At(b: Board, s: Square): Cell
    requires InBounds(s)
  {
    b[s.row][s.col]
  }

  /** The board with square `s` set to `v`: one cell changes, every other stays. */
  function Put(b: Board, s: Square, v: Cell): (r: Board)
    requires InBounds(s)
    ensures At(r, s) == v
    ensures forall t | InBounds(t) && t != s :: At(r, t) == At(b, t)
  {
    b[s.row := b[s.row][s.col := v]]
  }

  // ---------------------------------------------------------------------------
  // The standard initial layout (`initBoard`)

  function EmptyRank(): seq<Cell>
  {
    seq(Size, _ => None)
  }

  const BackRankKinds: seq<PieceType> := [Rook, Knight, Bishop, Queen, King, Bishop, Knight, Rook]

  function BackRank(c: PieceColor): seq<Cell>
  {
    seq(Size, i requires 0 <= i < Size => Some(Piece(BackRankKinds[i], c)))
  }

  function PawnRank(c: PieceColor): seq<Cell>
  {
    seq(Size, _ => Some(Piece(Pawn, c)))
  }

  /** Black's pieces on rows 0 and 1, White's on rows 6 and 7, rows 2 to 5 empty. */
  function InitialBoard(): Board
  {
    [BackRank(Black), PawnRank(Black), EmptyRank(), EmptyRank(),
     EmptyRank(), EmptyRank(), PawnRank(White), BackRank(White)]
  }

  /** A board with no piece on it: the contents of a freshly allocated `Piece[8][8]`. */
  function EmptyBoard(): Board
  {
    seq(Size, _ => EmptyRank())
  }

  /** `initBoard` applied to `b`: both back ranks and both pawn ranks placed, rows 2 to 5 kept. */
  function SetUp(b: Board): Board
  {
    [BackRank(Black), PawnRank(Black), b[2], b[3], b[4], b[5], PawnRank(White), BackRank(White)]
  }

  /** Setting up an empty board gives the standard initial layout. */
  lemma SetUpEmpty()
    ensures SetUp(EmptyBoard()) == InitialBoard()
  {
    assert EmptyBoard()[2] == EmptyBoard()[3] == EmptyBoard()[4] == EmptyBoard()[5] == EmptyRank();
  }

  /** The initial layout square by square. */
  lemma InitialBoardAt(s: Square)
    requires InBounds(s)
    ensures At(InitialBoard(), s) ==
              if s.row == 0 then Some(Piece(BackRankKinds[s.col], Black))
              else if s.row == 1 then Some(Piece(Pawn, Black))
              else if s.row == 6 then Some(Piece(Pawn, White))
              else if s.row == 7 then Some(Piece(BackRankKinds[s.col], White))
              else None
  {
    assert InitialBoard()[s.row] ==
      if s.row == 0 then BackRank(Black) else if s.row == 1 then PawnRank(Black)
      else if s.row == 6 then PawnRank(White) else if s.row == 7 then BackRank(White) else EmptyRank();
  }

  /** The square each king starts on: column 4 of its colour's back rank. */
  function HomeKingSquare(c: PieceColor): Square
  {
    Square(if c == White then 7 else 0, 4)
  }

  // ---------------------------------------------------------------------------
  // `findKing`: a row-major scan for the first king of a colour

  /** `s` comes before `t` in the scan order (row by row, column by column). */
  predicate Before(s: Square, t: Square)
  {
    s.row < t.row || (s.row == t.row && s.col < t.col)
  }

  /** The scan from square (r, c) on; c == Size stands for the end of row r. */
  function FindKingFrom(b: Board, color: PieceColor, r: int, c: int): (k: Option<Square>)
    requires 0 <= r <= Size && 0 <= c <= Size
    decreases Size - r, Size - c
    ensures k.Some? ==> InBounds(k.value) && At(b, k.value) == Some(Piece(King, color))
                        && !Before(k.value, Square(r, c))
    ensures k.Some? ==> forall s | InBounds(s) && !Before(s, Square(r, c)) && Before(s, k.value) ::
                          At(b, s) != Some(Piece(King, color))
    ensures k.None? ==> forall s | InBounds(s) && !Before(s, Square(r, c)) ::
                          At(b, s) != Some(Piece(King, color))
  {
    if r == Size then None
    else if c == Size then FindKingFrom(b, color, r + 1, 0)
    else if At(b, Square(r, c)) == Some(Piece(King, color)) then Some(Square(r, c))
    else FindKingFrom(b, color, r, c + 1)
  }

  /**
    * `findKing`: the first square in row-major order that holds the king of
    * `color`, or None when the board has no such king.
    */
  function FindKing(b: Board, color: PieceColor): (k: Option<Square>)
    ensures k.Some? ==> InBounds(k.value) && At(b, k.value) == Some(Piece(King, color))
    ensures k.Some? ==> forall s | InBounds(s) && Before(s, k.value) :: At(b, s) != Some(Piece(King, color))
    ensures k.None? <==> forall s | InBounds(s) :: At(b, s) != Some(Piece(King, color))
  {
    FindKingFrom(b, color, 0, 0)
  }

  /** Boards with the kings of `color` on the same squares give the same scan result. */
  lemma FindKingSameKings(b1: Board, b2: Board, color: PieceColor)
    requires forall s | InBounds(s) :: At(b1, s) == Some(Piece(King, color)) <==> At(b2, s) == Some(Piece(King, color))
    ensures FindKing(b1, color) == FindKing(b2, color)
  {
    var k1, k2 := FindKing(b1, color), FindKing(b2, color);
    if k1.Some? && k2.Some? {
      assert !Before(k1.value, k2.value) && !Before(k2.value, k1.value);
    }
  }

  /** On a board with exactly one king of `color`, the scan finds that king. */
  lemma FindUniqueKing(b: Board, color: PieceColor, s: Square)
    requires InBounds(s) && At(b, s) == Some(Piece(King, color))
    requires forall t | InBounds(t) && t != s :: At(b, t) != Some(Piece(King, color))
    ensures FindKing(b, color) == Some(s)
  {
  }

  /** In the initial layout each colour has exactly one king, on its home square. */
  lemma InitialKings(color: PieceColor)
    ensures forall s | InBounds(s) :: At(InitialBoard(), s) == Some(Piece(King, color))
                                      <==> s == HomeKingSquare(color)
    ensures FindKing(InitialBoard(), color) == Some(HomeKingSquare(color))
  {
    var b := InitialBoard();
    forall s | InBounds(s)
      ensures At(b, s) == Some(Piece(King, color)) <==> s == HomeKingSquare(color)
    {
      InitialBoardAt(s);
    }
    FindUniqueKing(b, color, HomeKingSquare(color));
  }

  // ---------------------------------------------------------------------------
  // Fixed step sets, each in the order the source lists or loops over them

  /** An L-shaped knight jump: two squares one way and one square the other. */
  predicate IsJump(dr: int, dc: int)
  {
    ((dr == 1 || dr == -1) && (dc == 2 || dc == -2)) || ((dr == 2 || dr == -2) && (dc == 1 || dc == -1))
  }

  /** A knight jump as an offset. */
  type Jump = d: Offset | IsJump(d.dr, d.dc)
    witness Offset(1, 2)

  /** The knight's eight L-shaped jumps. */
  const KnightOffsets: seq<Jump> :=
    [Offset(-2, -1), Offset(-2, 1), Offset(-1, -2), Offset(-1, 2),
     Offset(1, -2), Offset(1, 2), Offset(2, -1), Offset(2, 1)]

  /** The eight neighbouring squares, in the order of the nested `dr`, `dc` loops. */
  const KingRing: seq<Direction> :=
    [Offset(-1, -1), Offset(-1, 0), Offset(-1, 1), Offset(0, -1),
     Offset(0, 1), Offset(1, -1), Offset(1, 0), Offset(1, 1)]

  /** The index of the knight jump (dr, dc) in `KnightOffsets`. */
  ghost function KnightIndex(dr: int, dc: int): int
  {
    2 * (if dr == -2 then 0 else if dr == -1 then 1 else if dr == 1 then 2 else 3) + (if dc > 0 then 1 else 0)
  }

  /** The knight jump (dr, dc) is entry `KnightIndex(dr, dc)` of `KnightOffsets`. */
  lemma KnightStep(dr: int, dc: int)
    requires IsJump(dr, dc)
    ensures 0 <= KnightIndex(dr, dc) < |KnightOffsets| && KnightOffsets[KnightIndex(dr, dc)] == Offset(dr, dc)
  {
  }

  /** The index of the step (dr, dc) in `KingRing`: the order of the nested loops, the centre skipped. */
  ghost function RingIndex(dr: int, dc: int): int
  {
    3 * (dr + 1) + (dc + 1) - (if dr > 0 || (dr == 0 && dc > 0) then 1 else 0)
  }

  /** The king step (dr, dc) is entry `RingIndex(dr, dc)` of `KingRing`, and the next column step is the next entry. */
  lemma RingStep(dr: int, dc: int)
    requires -1 <= dr <= 1 && -1 <= dc <= 1 && (dr != 0 || dc != 0)
    ensures 0 <= RingIndex(dr, dc) < |KingRing| && KingRing[RingIndex(dr, dc)] == Offset(dr, dc)
    ensures RingIndex(dr, dc + 1) == RingIndex(dr, dc) + 1
  {
  }

  /** The absolute value. */
  function Abs(x: int): int
  {
    if x < 0 then -x else x
  }

  /** `t` is a knight's jump from `o`: two squares one way and one the other. */
  predicate KnightJump(o: Square, t: Square)
  {
    (Abs(t.row - o.row) == 1 && Abs(t.col - o.col) == 2) || (Abs(t.row - o.row) == 2 && Abs(t.col - o.col) == 1)
  }

  /** `t` touches `o`: a different square at most one row and one column away. */
  predicate Adjacent(o: Square, t: Square)
  {
    t != o && Abs(t.row - o.row) <= 1 && Abs(t.col - o.col) <= 1
  }

  /** A square is one of the knight's jumps from `o` exactly when it is a knight's jump away. */
  lemma KnightOffsetsAreJumps(o: Square, t: Square)
    ensures (exists i | 0 <= i < |KnightOffsets| :: t == Shift(o, KnightOffsets[i])) <==> KnightJump(o, t)
  {
    if i :| 0 <= i < |KnightOffsets| && t == Shift(o, KnightOffsets[i]) {
      var d: Jump := KnightOffsets[i];
      assert IsJump(t.row - o.row, t.col - o.col);
    }
    if KnightJump(o, t) {
      var dr, dc := t.row - o.row, t.col - o.col;
      KnightStep(dr, dc);
      assert t == Shift(o, KnightOffsets[KnightIndex(dr, dc)]);
    }
  }

  /** A square is one of the king's steps from `o` exactly when it touches `o`. */
  lemma KingRingIsAdjacent(o: Square, t: Square)
    ensures (exists i | 0 <= i < |KingRing| :: t == Shift(o, KingRing[i])) <==> Adjacent(o, t)
  {
    if i :| 0 <= i < |KingRing| && t == Shift(o, KingRing[i]) {
      var d: Direction := KingRing[i];
    }
    if Adjacent(o, t) {
      var dr, dc := t.row - o.row, t.col - o.col;
      RingStep(dr, dc);
      assert t == Shift(o, KingRing[RingIndex(dr, dc)]);
    }
  }

  // ---------------------------------------------------------------------------
  // Rays: the squares reached by repeating one unit step

  /** A unit step in one of the eight compass directions. */
  type Direction = d: Offset | -1 <= d.dr <= 1 && -1 <= d.dc <= 1 && (d.dr != 0 || d.dc != 0)
    witness Offset(1, 0)

  const BishopDirs: seq<Direction> := [Offset(1, 1), Offset(1, -1), Offset(-1, 1), Offset(-1, -1)]
  const RookDirs: seq<Direction> := [Offset(1, 0), Offset(-1, 0), Offset(0, 1), Offset(0, -1)]
  const QueenDirs: seq<Direction> := BishopDirs + RookDirs

  /** The ray order of `isSquareAttacked`: orthogonals first, then diagonals. */
  const AttackDirs: seq<Direction> := RookDirs + BishopDirs

  /** A step along a diagonal (as opposed to along a row or a column). */
  predicate Diagonal(d: Direction)
  {
    d.dr != 0 && d.dc != 0
  }

  /** k times a unit component x, kept linear for the solver. */
  function Scale(k: int, x: int): int
    requires -1 <= x <= 1
  {
    if x == 1 then k else if x == -1 then -k else 0
  }

  /** The square k steps along `d` from `start` (k == 0 is `start` itself). */
  function RaySquare(start: Square, d: Direction, k: int): Square
  {
    Square(start.row + Scale(k, d.dr), start.col + Scale(k, d.dc))
  }

  /** One more step along the ray from the next square is one more step from here. */
  lemma RaySquareNext(start: Square, d: Direction, k: int)
    ensures RaySquare(Shift(start, d), d, k) == RaySquare(start, d, k + 1)
    ensures RaySquare(start, d, 0) == start
  {
  }

  /** Different distances along a ray give different squares. */
  lemma RaySquareInjective(start: Square, d: Direction, j: int, k: int)
    requires j != k
    ensures RaySquare(start, d, j) != RaySquare(start, d, k)
  {
  }

  /** A bound on the number of further steps a walk along `d` from `s` stays on the board. */
  function RayFuel(s: Square, d: Direction): int
  {
    (if d.dr > 0 then Size - s.row else if d.dr < 0 then s.row + 1 else 0) +
    (if d.dc > 0 then Size - s.col else if d.dc < 0 then s.col + 1 else 0)
  }

  /** The first k squares of the ray from `start` are on the board and empty. */
  predicate ClearUpTo(b: Board, start: Square, d: Direction, k: int)
  {
    forall j | 0 <= j < k :: InBounds(RaySquare(start, d, j)) && At(b, RaySquare(start, d, j)).None?
  }

  /** The ray from `start` is clear for k squares iff `start` is empty and the ray from the next square is clear for k - 1. */
  lemma ClearUpToNext(b: Board, start: Square, d: Direction, k: int)
    requires 0 < k && InBounds(start) && At(b, start).None?
    ensures ClearUpTo(b, start, d, k) <==> ClearUpTo(b, Shift(start, d), d, k - 1)
  {
    var next := Shift(start, d);
    forall j | 0 <= j < k - 1 {
      RaySquareNext(start, d, j);
    }
    if ClearUpTo(b, next, d, k - 1) {
      forall j | 0 <= j < k
        ensures InBounds(RaySquare(start, d, j)) && At(b, RaySquare(start, d, j)).None?
      {
        RaySquareNext(start, d, 0);
        if j > 0 {
          RaySquareNext(start, d, j - 1);
        }
      }
    }
  }
}
