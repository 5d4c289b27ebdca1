/**
  * `BoardPanel` without its Swing parts: the live 8x8 board array, the turn,
  * the selection and the selected-piece move list, updated in place. The ghost
  * field `position` is the board array as a value; each method is proved
  * against the functions of `MoveGen`, `Rules` and `Selection` on it.
  */
module Panel {
  import opened Pieces
  import opened Boards
  import opened Attacks
  import opened MoveGen
  import opened Rules
  import opened Selection

  /** The contents of an 8x8 array as a board value. */
  function Cells(a: array2<Cell>): Board
    reads a
    requires a.Length0 == Size && a.Length1 == Size
  {
    seq(Size, r requires 0 <= r < Size reads a =>
      seq(Size, c requires 0 <= c < Size reads a => a[r, c]))
  }

  /** An array that agrees with `p` cell by cell has `p` as its contents. */
  lemma CellsOf(a: array2<Cell>, p: Board)
    requires a.Length0 == Size && a.Length1 == Size
    requires forall r, c | 0 <= r < Size && 0 <= c < Size :: a[r, c] == p[r][c]
    ensures Cells(a) == p
  {
    forall r | 0 <= r < Size
      ensures Cells(a)[r] == p[r]
    {
    }
  }

  /** Removing the element at `i`, as `Iterator.remove` does: the prefix stays, the rest moves down by one. */
  lemma DropAt<T>(s: seq<T>, i: int)
    requires 0 <= i < |s|
    ensures (s[..i] + s[i + 1..])[..i] == s[..i]
    ensures (s[..i] + s[i + 1..])[i..] == s[i + 1..]
  {
    var s' := s[..i] + s[i + 1..];
    assert s'[..i] == s[..i];
    assert s'[i..] == s[i + 1..];
  }

  /** Two sequences with the same suffix from `i` and from `j` have the same element there and the same suffix after it. */
  lemma SuffixStep<T>(s: seq<T>, t: seq<T>, i: int, j: int)
    requires 0 <= i < |s| && 0 <= j < |t| && s[i..] == t[j..]
    ensures s[i] == t[j] && s[i + 1..] == t[j + 1..]
  {
    assert s[i] == s[i..][0] && t[j] == t[j..][0];
    assert s[i + 1..] == s[i..][1..] && t[j + 1..] == t[j..][1..];
  }

  /**
    * One step of an iterator that removes the rejected elements of `generated`
    * in place: `list` holds the kept prefix up to `i` and the unvisited rest.
    * Removing a rejected element, or passing a kept one, extends the kept prefix
    * by the next element of `generated`.
    */
  lemma IteratorStep(list: seq<Square>, i: int, generated: seq<Square>, seen: int, reject: Square -> bool)
    requires 0 <= i < |list| && 0 <= seen <= |generated|
    requires list[..i] == Keep(generated[..seen], reject) && list[i..] == generated[seen..]
    ensures seen < |generated| && list[i] == generated[seen]
    ensures reject(list[i]) ==> var dropped := list[..i] + list[i + 1..];
              dropped[..i] == Keep(generated[..seen + 1], reject) && dropped[i..] == generated[seen + 1..]
    ensures !reject(list[i]) ==>
              list[..i + 1] == Keep(generated[..seen + 1], reject) && list[i + 1..] == generated[seen + 1..]
  {
    SuffixStep(list, generated, i, seen);
    KeepSnoc(generated, reject, seen);
    if reject(list[i]) {
      DropAt(list, i);
    } else {
      assert list[..i + 1] == list[..i] + [list[i]];
    }
  }

  /** Taking the king step (dr, dc) appends its destination to those of the steps before it in `KingRing`. */
  lemma RingSnoc(b: Board, o: Square, color: PieceColor, dr: int, dc: int)
    requires -1 <= dr <= 1 && -1 <= dc <= 1 && (dr != 0 || dc != 0)
    ensures 0 <= RingIndex(dr, dc) < RingIndex(dr, dc + 1) <= |KingRing|
    ensures StepTargets(b, o, color, KingRing[..RingIndex(dr, dc + 1)])
            == StepTargets(b, o, color, KingRing[..RingIndex(dr, dc)]) + StepOne(b, o, color, Offset(dr, dc))
  {
    RingStep(dr, dc);
    StepTargetsSnoc(b, o, color, KingRing, RingIndex(dr, dc));
  }

  /** No piece of `color` in columns 0 to c - 1 of row `r` has a `computeLegalMoves` destination. */
  ghost predicate RowWithoutMoves(b: Board, color: PieceColor, r: int, c: int)
    requires 0 <= r < Size
  {
    forall j | 0 <= j < c && j < Size && OwnPiece(b, Square(r, j), color) :: LegalMoves(b, Square(r, j)) == []
  }

  /** Rows 0 to r - 1 were scanned without finding a piece of `color` that can move. */
  ghost predicate ScannedWithoutMoves(b: Board, color: PieceColor, r: int)
  {
    forall i | 0 <= i < r && i < Size :: RowWithoutMoves(b, color, i, Size)
  }

  /** A row without moves extends the scanned prefix by one row. */
  lemma ScannedNext(b: Board, color: PieceColor, r: int)
    requires 0 <= r < Size && ScannedWithoutMoves(b, color, r) && RowWithoutMoves(b, color, r, Size)
    ensures ScannedWithoutMoves(b, color, r + 1)
  {
  }

  /** Concatenation is associative; called where the solver would otherwise have to find it. */
  lemma AppendAssoc<T>(a: seq<T>, b: seq<T>, c: seq<T>)
    ensures a + (b + c) == (a + b) + c
  {
  }

  /** A square without a movable piece of `color` extends the scanned part of row r by one column. */
  lemma RowNext(b: Board, color: PieceColor, r: int, c: int)
    requires 0 <= r < Size && 0 <= c < Size && RowWithoutMoves(b, color, r, c)
    requires !(OwnPiece(b, Square(r, c), color) && LegalMoves(b, Square(r, c)) != [])
    ensures RowWithoutMoves(b, color, r, c + 1)
  {
  }

  /** A movable piece of `color` on (r, c) is a witness against row r being without moves. */
  lemma RowHasMove(b: Board, color: PieceColor, r: int, c: int)
    requires 0 <= r < Size && 0 <= c < Size
    requires OwnPiece(b, Square(r, c), color) && LegalMoves(b, Square(r, c)) != []
    ensures !RowWithoutMoves(b, color, r, Size)
  {
  }

  /** A piece of `color` with a legal move rules checkmate out. */
  lemma RowBlocksMate(b: Board, color: PieceColor, r: int)
    requires 0 <= r < Size && !RowWithoutMoves(b, color, r, Size)
    ensures !Checkmate(b, color)
  {
    var j :| 0 <= j < Size && OwnPiece(b, Square(r, j), color) && LegalMoves(b, Square(r, j)) != [];
    var s := Square(r, j);
    assert InBounds(s) && OwnPiece(b, s, color) && LegalMoves(b, s) != [];
  }

  /** Once every row is scanned, no piece of `color` anywhere has a destination. */
  lemma AllScanned(b: Board, color: PieceColor)
    requires ScannedWithoutMoves(b, color, Size)
    ensures forall s | InBounds(s) && OwnPiece(b, s, color) :: LegalMoves(b, s) == []
  {
    forall s | InBounds(s) && OwnPiece(b, s, color)
      ensures LegalMoves(b, s) == []
    {
      assert RowWithoutMoves(b, color, s.row, Size);
      assert s == Square(s.row, s.col);
    }
  }

  class BoardPanel {
    const board: array2<Cell>
    /** The live board as a value. */
    ghost var position: Board
    var legalMoves: seq<Square>
    var selected: Option<Square>
    var turn: PieceColor

    ghost predicate Valid()
      reads this, board
    {
      && board.Length0 == Size && board.Length1 == Size
      && (forall r, c | 0 <= r < Size && 0 <= c < Size :: board[r, c] == position[r][c])
      && (selected.Some? ==> InBounds(selected.value))
    }

    ghost function State(): Game
      reads this
    {
      Game(position, selected, legalMoves, turn)
    }

    /** A new panel: the standard layout, nothing selected, White to move; it is consistent. */
    constructor ()
      ensures Valid() && fresh(board)
      ensures State() == InitialGame() && Consistent(State())
    {
      board := new Cell[Size, Size]((_, _) => None);
      position := EmptyBoard();
      legalMoves := [];
      selected := None;
      turn := White;
      new;
      InitBoard();
      SetUpEmpty();
      InitialGameConsistent();
    }

    /** `initBoard`: both back ranks and both pawn ranks, rows 2 to 5 left as they were. */
    method InitBoard()
      requires Valid()
      modifies board, this`position
      ensures Valid()
      ensures position == SetUp(old(position))
    {
      SetBackRank(0, Black);
      SetPawnRank(1, Black);
      SetPawnRank(6, White);
      SetBackRank(7, White);
      position := SetUp(position);
    }

    /**
      * The eight back-rank assignments of `initBoard` for one colour, written as
      * a loop over `BackRankKinds`, which lists the same pieces in the same
      * column order.
      */
    method SetBackRank(row: int, color: PieceColor)
      requires board.Length0 == Size && board.Length1 == Size && 0 <= row < Size
      modifies board
      ensures forall j | 0 <= j < Size :: board[row, j] == BackRank(color)[j]
      ensures forall i, j | 0 <= i < Size && i != row && 0 <= j < Size :: board[i, j] == old(board[i, j])
    {
      for c := 0 to Size
        invariant forall j | 0 <= j < c :: board[row, j] == BackRank(color)[j]
        invariant forall i, j | 0 <= i < Size && i != row && 0 <= j < Size :: board[i, j] == old(board[i, j])
      {
        board[row, c] := Some(Piece(BackRankKinds[c], color));
      }
    }

    /** The pawn-rank loop of `initBoard` for one colour. */
    method SetPawnRank(row: int, color: PieceColor)
      requires board.Length0 == Size && board.Length1 == Size && 0 <= row < Size
      modifies board
      ensures forall j | 0 <= j < Size :: board[row, j] == PawnRank(color)[j]
      ensures forall i, j | 0 <= i < Size && i != row && 0 <= j < Size :: board[i, j] == old(board[i, j])
    {
      for c := 0 to Size
        invariant forall j | 0 <= j < c :: board[row, j] == PawnRank(color)[j]
        invariant forall i, j | 0 <= i < Size && i != row && 0 <= j < Size :: board[i, j] == old(board[i, j])
      {
        board[row, c] := Some(Piece(Pawn, color));
      }
    }

    // -------------------------------------------------------------------------
    // Move generators: each appends to `m` and returns the extended list

    /** The body of the `computePawnMoves` capture loop, for column side `d`. */
    method AddPawnCapture(r: int, c: int, color: PieceColor, d: int, m: seq<Square>) returns (m': seq<Square>)
      requires Valid()
      ensures m' == m + PawnCapture(position, Square(r, c), color, d)
    {
      m' := m;
      var cr, cc := r + PawnDir(color), c + d;
      if InBounds(Square(cr, cc)) && board[cr, cc].Some? && board[cr, cc].value.color != color {
        m' := m' + [Square(cr, cc)];
      }
    }

    /** The one- and two-square advances that open `computePawnMoves`. */
    method AddPawnAdvances(r: int, c: int, color: PieceColor, m: seq<Square>) returns (m': seq<Square>)
      requires Valid()
      ensures m' == m + PawnAdvances(position, Square(r, c), color)
    {
      var dir := PawnDir(color);
      var startRow := StartRow(color);
      var nextR := r + dir;
      var twoR := r + 2 * dir;
      m' := m;
      if InBounds(Square(nextR, c)) && board[nextR, c].None? {
        m' := m' + [Square(nextR, c)];
      }
      if r == startRow && InBounds(Square(nextR, c)) && board[nextR, c].None?
         && InBounds(Square(twoR, c)) && board[twoR, c].None? {
        m' := m' + [Square(twoR, c)];
      }
    }

    /** `computePawnMoves`: the advances, then the captures on either side. */
    method ComputePawnMoves(r: int, c: int, color: PieceColor, m: seq<Square>) returns (m': seq<Square>)
      requires Valid()
      ensures m' == m + PawnTargets(position, Square(r, c), color)
    {
      m' := AddPawnAdvances(r, c, color, m);
      m' := AddPawnCaptures(r, c, color, m');
    }

    /** The `for (int d : new int[]{-1, 1})` capture loop of `computePawnMoves`. */
    method AddPawnCaptures(r: int, c: int, color: PieceColor, m: seq<Square>) returns (m': seq<Square>)
      requires Valid()
      ensures m' == m + PawnCaptures(position, Square(r, c), color, PawnSides)
    {
      ghost var b, o := position, Square(r, c);
      m' := m;
      for i := 0 to |PawnSides|
        invariant m' == m + PawnCaptures(b, o, color, PawnSides[..i])
      {
        PawnCapturesSnoc(b, o, color, PawnSides, i);
        m' := AddPawnCapture(r, c, color, PawnSides[i], m');
      }
      assert PawnSides[..|PawnSides|] == PawnSides;
    }

    /**
      * The loop body shared by `addKnightMoves` and `addKingMoves`: the square
      * one offset away is added when it is on the board and empty or held by
      * the other colour.
      */
    method AddStep(r: int, c: int, color: PieceColor, d: Offset, m: seq<Square>) returns (m': seq<Square>)
      requires Valid()
      ensures m' == m + StepOne(position, Square(r, c), color, d)
    {
      m' := m;
      var rr, cc := r + d.dr, c + d.dc;
      if !InBounds(Square(rr, cc)) {
        return;
      }
      var t := board[rr, cc];
      if t.None? || t.value.color != color {
        m' := m' + [Square(rr, cc)];
      }
    }

    /** `addKnightMoves`. */
    method AddKnightMoves(r: int, c: int, color: PieceColor, m: seq<Square>) returns (m': seq<Square>)
      requires Valid()
      ensures m' == m + KnightTargets(position, Square(r, c), color)
    {
      ghost var b, o := position, Square(r, c);
      m' := m;
      for i := 0 to |KnightOffsets|
        invariant m' == m + StepTargets(b, o, color, KnightOffsets[..i])
      {
        StepTargetsSnoc(b, o, color, KnightOffsets, i);
        m' := AddStep(r, c, color, KnightOffsets[i], m');
      }
      assert KnightOffsets[..|KnightOffsets|] == KnightOffsets;
    }

    /** `addKingMoves`: the nested loops over the row and column step, skipping (0, 0). */
    method AddKingMoves(r: int, c: int, color: PieceColor, m: seq<Square>) returns (m': seq<Square>)
      requires Valid()
      ensures m' == m + KingTargets(position, Square(r, c), color)
    {
      ghost var b, o := position, Square(r, c);
      m' := m;
      for dr := -1 to 2
        invariant m' == m + StepTargets(b, o, color, KingRing[..RingIndex(dr, -1)])
      {
        m' := AddKingRow(r, c, color, dr, m, m');
      }
      assert KingRing[..|KingRing|] == KingRing;
    }

    /** One pass of the inner `dc` loop of `addKingMoves`, for the row step `dr`. */
    method AddKingRow(r: int, c: int, color: PieceColor, dr: int, ghost base: seq<Square>, m: seq<Square>)
      returns (m': seq<Square>)
      requires Valid() && -1 <= dr <= 1
      requires m == base + StepTargets(position, Square(r, c), color, KingRing[..RingIndex(dr, -1)])
      ensures 0 <= RingIndex(dr + 1, -1) <= |KingRing|
      ensures m' == base + StepTargets(position, Square(r, c), color, KingRing[..RingIndex(dr + 1, -1)])
    {
      ghost var b := position;
      m' := m;
      for dc := -1 to 2
        invariant 0 <= RingIndex(dr, dc) <= |KingRing|
        invariant m' == base + StepTargets(b, Square(r, c), color, KingRing[..RingIndex(dr, dc)])
      {
        m' := AddKingStep(r, c, color, dr, dc, base, m');
      }
    }

    /** The body of the inner loop of `addKingMoves`: skip (0, 0), otherwise one step. */
    method AddKingStep(r: int, c: int, color: PieceColor, dr: int, dc: int, ghost base: seq<Square>, m: seq<Square>)
      returns (m': seq<Square>)
      requires Valid() && -1 <= dr <= 1 && -1 <= dc <= 1
      requires m == base + StepTargets(position, Square(r, c), color, KingRing[..RingIndex(dr, dc)])
      ensures 0 <= RingIndex(dr, dc + 1) <= |KingRing|
      ensures m' == base + StepTargets(position, Square(r, c), color, KingRing[..RingIndex(dr, dc + 1)])
    {
      if dr == 0 && dc == 0 {
        return m;
      }
      RingSnoc(position, Square(r, c), color, dr, dc);
      m' := AddStep(r, c, color, Offset(dr, dc), m);
    }

    /** The `while` walk of `addSlidingMoves` along direction `d`, from its first square `from` on. */
    method AddRay(from: Square, color: PieceColor, d: Direction, m: seq<Square>) returns (m': seq<Square>)
      requires Valid()
      ensures m' == m + RayTargets(position, from, d, color)
    {
      ghost var b := position;
      ghost var goal := m + RayTargets(b, from, d, color);
      m' := m;
      var rr, cc := from.row, from.col;
      while InBounds(Square(rr, cc))
        invariant m' + RayTargets(b, Square(rr, cc), d, color) == goal
        decreases RayFuel(Square(rr, cc), d)
      {
        var t := board[rr, cc];
        var s := Square(rr, cc);
        ghost var rest := RayTargets(b, Square(rr + d.dr, cc + d.dc), d, color);
        assert t == At(b, s) && Shift(s, d) == Square(rr + d.dr, cc + d.dc);
        if t.None? {
          assert RayTargets(b, s, d, color) == [s] + rest;
          assert (m' + [s]) + rest == m' + ([s] + rest);
          m' := m' + [s];
        } else {
          if t.value.color != color {
            m' := m' + [s];
          }
          break;
        }
        rr, cc := rr + d.dr, cc + d.dc;
      }
    }

    /** `addSlidingMoves`: along each direction, walk until the edge or the first occupied square. */
    method AddSlidingMoves(r: int, c: int, color: PieceColor, dirs: seq<Direction>, m: seq<Square>)
      returns (m': seq<Square>)
      requires Valid()
      ensures m' == m + SlidingTargets(position, Square(r, c), color, dirs)
    {
      ghost var b := position;
      ghost var o := Square(r, c);
      m' := m;
      for i := 0 to |dirs|
        invariant m' == m + SlidingTargets(b, o, color, dirs[..i])
      {
        m' := AddDirection(r, c, color, dirs, i, m, m');
      }
      assert dirs[..|dirs|] == dirs;
    }

    /** One pass of the direction loop of `addSlidingMoves`: the ray along `dirs[i]` is appended. */
    method AddDirection(r: int, c: int, color: PieceColor, dirs: seq<Direction>, i: int,
                        ghost base: seq<Square>, m: seq<Square>) returns (m': seq<Square>)
      requires Valid() && 0 <= i < |dirs|
      requires m == base + SlidingTargets(position, Square(r, c), color, dirs[..i])
      ensures m' == base + SlidingTargets(position, Square(r, c), color, dirs[..i + 1])
    {
      var o := Square(r, c);
      SlidingTargetsSnoc(position, o, color, dirs, i);
      m' := AddRay(Shift(o, dirs[i]), color, dirs[i], m);
      AppendAssoc(base, SlidingTargets(position, o, color, dirs[..i]), RayTargets(position, Shift(o, dirs[i]), dirs[i], color));
    }

    /** The `switch` on the piece kind shared by `recomputeLegalMoves` and `computeLegalMoves`. */
    method AddPseudoMoves(r: int, c: int, p: Piece, m: seq<Square>) returns (m': seq<Square>)
      requires Valid() && InBounds(Square(r, c)) && board[r, c] == Some(p)
      ensures m' == m + PseudoMoves(position, Square(r, c))
    {
      match p.kind {
        case Pawn => m' := ComputePawnMoves(r, c, p.color, m);
        case Knight => m' := AddKnightMoves(r, c, p.color, m);
        case Bishop => m' := AddSlidingMoves(r, c, p.color, BishopDirs, m);
        case Rook => m' := AddSlidingMoves(r, c, p.color, RookDirs, m);
        case Queen => m' := AddSlidingMoves(r, c, p.color, QueenDirs, m);
        case King => m' := AddKingMoves(r, c, p.color, m);
      }
    }

    // -------------------------------------------------------------------------
    // The self-check filter on a scratch copy

    /** `copyBoard`: a fresh array with the same cells, sharing nothing with `src`. */
    method CopyBoard(src: array2<Cell>) returns (copy: array2<Cell>)
      requires src.Length0 == Size && src.Length1 == Size
      ensures fresh(copy) && copy.Length0 == Size && copy.Length1 == Size
      ensures forall r, c | 0 <= r < Size && 0 <= c < Size :: copy[r, c] == src[r, c]
    {
      copy := new Cell[Size, Size];
      for r := 0 to Size
        invariant forall i, j | 0 <= i < r && 0 <= j < Size :: copy[i, j] == src[i, j]
      {
        for s := 0 to Size
          invariant forall i, j | 0 <= i < r && 0 <= j < Size :: copy[i, j] == src[i, j]
          invariant forall j | 0 <= j < s :: copy[r, j] == src[r, j]
        {
          copy[r, s] := src[r, s];
        }
      }
    }

    /**
      * `wouldLeaveKingInCheck`: plays the move on a copy and asks the oracle
      * about the mover's king there. It has no `modifies` clause: the live
      * board is left as it was.
      */
    method WouldLeaveKingInCheck(fromR: int, fromC: int, toR: int, toC: int) returns (res: bool)
      requires Valid() && InBounds(Square(fromR, fromC)) && InBounds(Square(toR, toC))
      ensures res == Rules.WouldLeaveKingInCheck(position, Square(fromR, fromC), Square(toR, toC))
    {
      var moving := board[fromR, fromC];
      if moving.None? {
        return true;
      }
      var copy := CopyBoard(board);
      copy[toR, toC] := copy[fromR, fromC];
      copy[fromR, fromC] := None;
      ghost var after := Played(position, Square(fromR, fromC), Square(toR, toC));
      forall r, c | 0 <= r < Size && 0 <= c < Size
        ensures copy[r, c] == after[r][c]
      {
        assert after[r][c] == At(after, Square(r, c));
      }
      CellsOf(copy, after);
      var scratch := Cells(copy);
      var kingPos := FindKing(scratch, moving.value.color);
      res := kingPos.None? || IsSquareAttacked(scratch, kingPos.value, Opposite(moving.value.color));
    }

    // -------------------------------------------------------------------------
    // Move lists

    /** `recomputeLegalMoves`: generate for the selected square into `legalMoves`, then prune it in place. */
    method RecomputeLegalMoves()
      requires Valid()
      modifies this`legalMoves
      ensures legalMoves == if selected.None? then [] else SelectedMoves(position, selected.value)
    {
      legalMoves := [];
      if selected.None? {
        return;
      }
      var r, c := selected.value.row, selected.value.col;
      var p := board[r, c];
      if p.None? {
        return;
      }
      legalMoves := AddPseudoMoves(r, c, p.value, legalMoves);
      PruneLegalMoves(r, c);
    }

    /**
      * The iterator loop of `recomputeLegalMoves`: remove each rejected
      * destination from the list in place. The list is held in a local while
      * the iterator walks it and stored back into `legalMoves` at the end.
      */
    method PruneLegalMoves(r: int, c: int)
      requires Valid() && InBounds(Square(r, c)) && legalMoves == PseudoMoves(position, Square(r, c))
      modifies this`legalMoves
      ensures legalMoves == Keep(old(legalMoves), Rejected(position, Square(r, c)))
    {
      ghost var reject := Rejected(position, Square(r, c));
      var list := legalMoves;
      ghost var generated := list;
      assert forall t | t in generated :: InBounds(t);
      var i := 0;
      ghost var seen := 0;
      while i < |list|
        invariant 0 <= i <= |list| && 0 <= seen <= |generated|
        invariant list[..i] == Keep(generated[..seen], reject)
        invariant list[i..] == generated[seen..]
        decreases |list| - i
      {
        IteratorStep(list, i, generated, seen, reject);
        var mv := list[i];
        var remove := RejectMove(r, c, mv);
        if remove {
          list := list[..i] + list[i + 1..];
        } else {
          i := i + 1;
        }
        seen := seen + 1;
      }
      assert generated[..seen] == generated;
      legalMoves := list;
    }

    /** The body of the iterator loop: a destination holding a king is dropped before the self-check test is asked. */
    method RejectMove(r: int, c: int, mv: Square) returns (remove: bool)
      requires Valid() && InBounds(Square(r, c)) && InBounds(mv)
      ensures remove == Rejected(position, Square(r, c))(mv)
    {
      var target := board[mv.row, mv.col];
      if target.Some? && target.value.kind == King {
        return true;
      }
      remove := WouldLeaveKingInCheck(r, c, mv.row, mv.col);
    }

    /** `computeLegalMoves(r, c)`: generate into a new list, then `removeIf` the self-checking moves. */
    method ComputeLegalMoves(r: int, c: int) returns (moves: seq<Square>)
      requires Valid() && InBounds(Square(r, c))
      ensures moves == LegalMoves(position, Square(r, c))
    {
      moves := [];
      var piece := board[r, c];
      if piece.None? {
        return;
      }
      ghost var b, o := position, Square(r, c);
      moves := AddPseudoMoves(r, c, piece.value, moves);
      var kept := [];
      for i := 0 to |moves|
        invariant kept == Keep(moves[..i], Unsafe(b, o))
      {
        KeepSnoc(moves, Unsafe(b, o), i);
        var unsafe := WouldLeaveKingInCheck(r, c, moves[i].row, moves[i].col);
        if !unsafe {
          kept := kept + [moves[i]];
        }
      }
      assert moves[..|moves|] == moves;
      moves := kept;
    }

    // -------------------------------------------------------------------------
    // Check, checkmate and committing a move

    /** `isInCheck(color)`: the oracle asked about the first king of `color` on the live board. */
    method IsInCheck(color: PieceColor) returns (check: bool)
      requires Valid()
      ensures check == InCheck(position, color)
    {
      CellsOf(board, position);
      var snapshot := Cells(board);
      var kingPos := FindKing(snapshot, color);
      check := kingPos.Some? && IsSquareAttacked(snapshot, kingPos.value, Opposite(color));
    }

    /** `isCheckmate(currentTurn)`: in check, and every piece of that colour has no legal move. */
    method IsCheckmate(currentTurn: PieceColor) returns (mate: bool)
      requires Valid()
      ensures mate == Checkmate(position, currentTurn)
    {
      ghost var b := position;
      var check := IsInCheck(currentTurn);
      if !check {
        return false;
      }
      for r := 0 to Size
        invariant ScannedWithoutMoves(b, currentTurn, r)
      {
        var hasMove := ScanRow(currentTurn, r);
        if hasMove {
          RowBlocksMate(b, currentTurn, r);
          return false;
        }
        ScannedNext(b, currentTurn, r);
      }
      AllScanned(b, currentTurn);
      return true;
    }

    /** The inner loop of `isCheckmate` over row `r`: does some piece of `currentTurn` there have a legal move? */
    method ScanRow(currentTurn: PieceColor, r: int) returns (hasMove: bool)
      requires Valid() && 0 <= r < Size
      ensures hasMove <==> !RowWithoutMoves(position, currentTurn, r, Size)
    {
      ghost var b := position;
      for c := 0 to Size
        invariant RowWithoutMoves(b, currentTurn, r, c)
      {
        var found := SquareHasMove(currentTurn, r, c);
        if found {
          RowHasMove(b, currentTurn, r, c);
          return true;
        }
        RowNext(b, currentTurn, r, c);
      }
      return false;
    }

    /** The body of the inner loop of `isCheckmate`: a piece of `currentTurn` on (r, c) with a legal move. */
    method SquareHasMove(currentTurn: PieceColor, r: int, c: int) returns (found: bool)
      requires Valid() && InBounds(Square(r, c))
      ensures found <==> OwnPiece(position, Square(r, c), currentTurn) && LegalMoves(position, Square(r, c)) != []
    {
      var piece := board[r, c];
      found := false;
      if piece.Some? && piece.value.color == currentTurn {
        var moves := ComputeLegalMoves(r, c);
        found := moves != [];
      }
    }

    /**
      * `move`: relocate the piece (promoting a pawn on its last row), pass the
      * turn, and report whether the side now to move is checkmated (the source
      * announces it in a dialog).
      */
    method Move(r0: int, c0: int, r1: int, c1: int) returns (mate: bool)
      requires Valid() && InBounds(Square(r0, c0)) && InBounds(Square(r1, c1)) && board[r0, c0].Some?
      modifies board, this`position, this`turn
      ensures Valid()
      ensures position == AfterMove(old(position), Square(r0, c0), Square(r1, c1))
      ensures turn == Opposite(old(turn))
      ensures mate == Checkmate(position, turn)
    {
      Relocate(r0, c0, r1, c1);
      turn := Opposite(turn);
      mate := IsCheckmate(turn);
    }

    /** The board part of `move`: relocate the piece, clear the source, promote a pawn on its last row to a queen. */
    method Relocate(r0: int, c0: int, r1: int, c1: int)
      requires Valid() && InBounds(Square(r0, c0)) && InBounds(Square(r1, c1)) && board[r0, c0].Some?
      modifies board, this`position
      ensures Valid()
      ensures position == AfterMove(old(position), Square(r0, c0), Square(r1, c1))
    {
      var p := board[r0, c0].value;
      board[r1, c1] := Some(p);
      board[r0, c0] := None;

      if p.kind == Pawn {
        if p.color == White && r1 == 0 {
          board[r1, c1] := Some(Piece(Queen, White));
        }
        if p.color == Black && r1 == 7 {
          board[r1, c1] := Some(Piece(Queen, Black));
        }
      }
      ghost var before := position;
      ghost var after := AfterMove(before, Square(r0, c0), Square(r1, c1));
      forall r, c | 0 <= r < Size && 0 <= c < Size
        ensures board[r, c] == after[r][c]
      {
        var s := Square(r, c);
        assert after[r][c] == At(after, s);
        if s != Square(r0, c0) && s != Square(r1, c1) {
          assert board[r, c] == before[r][c] == At(before, s);
        }
      }
      position := after;
    }

    /**
      * The selection logic of `handleClick` for the square at row `r`,
      * column `c`. The panel stays consistent, so clicks can follow one
      * another. Returns whether a committed move checkmated the other side.
      */
    method HandleClick(r: int, c: int) returns (mate: bool)
      requires Valid() && Consistent(State())
      modifies this, board
      ensures Valid() && State() == Click(old(State()), r, c) && Consistent(State())
      ensures mate == (Commits(old(State()), r, c) && Checkmate(position, turn))
    {
      ClickKeepsConsistent(State(), r, c);
      mate := false;
      if !InBounds(Square(r, c)) {
        return;
      }

      if selected.None? {
        var piece := board[r, c];
        if piece.Some? && piece.value.color == turn {
          selected := Some(Square(r, c));
          RecomputeLegalMoves();
        }
      } else {
        var target := board[r, c];
        if target.Some? && target.value.color == turn {
          selected := Some(Square(r, c));
          RecomputeLegalMoves();
          return;
        }
        var isLegal := Square(r, c) in legalMoves;
        if isLegal {
          mate := Move(selected.value.row, selected.value.col, r, c);
          selected := None;
          legalMoves := [];
        } else {
          selected := None;
          legalMoves := [];
        }
      }
    }
  }
}
