/**
  * The game state of the panel (board, selection, selected-piece move list,
  * side to move) and the selection logic of `handleClick` once the mouse
  * position has become a row and a column.
  */
module Selection {
  import opened Pieces
  import opened Boards
  import opened Rules

  datatype Game = Game(board: Board, selected: Option<Square>, legalMoves: seq<Square>, turn: PieceColor)

  /**
    * What the panel keeps true between clicks: nothing selected and no move
    * list, or a selected square holding a piece of the side to move together
    * with that square's selected-piece move list.
    */
  ghost predicate Consistent(g: Game)
  {
    match g.selected
    case None => g.legalMoves == []
    case Some(s) => InBounds(s) && OwnPiece(g.board, s, g.turn) && g.legalMoves == SelectedMoves(g.board, s)
  }

  /** A fresh panel: the initial layout, nothing selected, White to move. */
  function InitialGame(): Game
  {
    Game(InitialBoard(), None, [], White)
  }

  /** Select `s` and compute its move list, as `recomputeLegalMoves` does. */
  function Select(g: Game, s: Square): Game
    requires InBounds(s)
  {
    g.(selected := Some(s), legalMoves := SelectedMoves(g.board, s))
  }

  /** A click on row `r`, column `c`. */
  function Click(g: Game, r: int, c: int): Game
    requires Consistent(g)
  {
    var s := Square(r, c);
    if !InBounds(s) then g
    else if g.selected.None? then
      if OwnPiece(g.board, s, g.turn) then Select(g, s) else g
    else if OwnPiece(g.board, s, g.turn) then Select(g, s)
    else if s in g.legalMoves then
      Game(AfterMove(g.board, g.selected.value, s), None, [], Opposite(g.turn))
    else
      Game(g.board, None, [], g.turn)
  }

  /** The click commits a move: a piece is selected and `(r, c)` is in its list and not one of the mover's pieces. */
  predicate Commits(g: Game, r: int, c: int)
  {
    var s := Square(r, c);
    InBounds(s) && g.selected.Some? && !OwnPiece(g.board, s, g.turn) && s in g.legalMoves
  }

  /** A new panel is consistent. */
  lemma InitialGameConsistent()
    ensures Consistent(InitialGame())
  {
  }

  /** Every click keeps the panel consistent. */
  lemma ClickKeepsConsistent(g: Game, r: int, c: int)
    requires Consistent(g)
    ensures Consistent(Click(g, r, c))
  {
    var s := Square(r, c);
    if Commits(g, r, c) {
      assert Click(g, r, c).selected.None?;
    }
  }

  /**
    * The outcomes of a click. The side to move changes exactly when a move is
    * committed; then the board is the committed move's board, nothing is
    * selected, the side that moved is not in check and every king of the
    * other colour is still in place. Otherwise the board is untouched.
    */
  lemma ClickOutcome(g: Game, r: int, c: int)
    requires Consistent(g)
    ensures var g' := Click(g, r, c);
            (g'.turn != g.turn <==> Commits(g, r, c))
            && (Commits(g, r, c) ==>
                  && g'.board == AfterMove(g.board, g.selected.value, Square(r, c))
                  && g'.turn == Opposite(g.turn) && g'.selected.None? && g'.legalMoves == []
                  && !InCheck(g'.board, g.turn)
                  && forall k | InBounds(k) && At(g.board, k) == Some(Piece(King, Opposite(g.turn))) ::
                       At(g'.board, k) == At(g.board, k))
            && (!Commits(g, r, c) ==> g'.board == g.board && g'.turn == g.turn)
  {
    if Commits(g, r, c) {
      var from, to := g.selected.value, Square(r, c);
      SelectedMoveLeavesKingSafe(g.board, from, to);
      forall k | InBounds(k) && At(g.board, k) == Some(Piece(King, Opposite(g.turn)))
        ensures At(AfterMove(g.board, from, to), k) == At(g.board, k)
      {
        SelectedMoveKeepsKings(g.board, from, to, k);
      }
    }
  }

  /**
    * Clicking one of the mover's own pieces always selects it, whether or not
    * something was selected before: it re-selects and never deselects.
    */
  lemma ClickOwnPieceSelects(g: Game, r: int, c: int)
    requires Consistent(g) && InBounds(Square(r, c)) && OwnPiece(g.board, Square(r, c), g.turn)
    ensures Click(g, r, c).selected == Some(Square(r, c))
    ensures Click(g, r, c).legalMoves == SelectedMoves(g.board, Square(r, c))
    ensures Click(g, r, c).board == g.board && Click(g, r, c).turn == g.turn
  {
  }
}
