/**
  * The rules built on the generators and the oracle: playing a move on a
  * board, the self-check filter, the two legal-move filters, committing a
  * move with promotion, check and checkmate.
  */
module Rules {
  import opened Pieces
  import opened Boards
  import opened Attacks
  import opened MoveGen

  /** `s` holds a piece of `color`. */
  predicate OwnPiece(b: Board, s: Square, color: PieceColor)
    requires InBounds(s)
  {
    At(b, s).Some? && At(b, s).value.color == color
  }

  /** `s` holds a king of either colour. */
  predicate KingAt(b: Board, s: Square)
    requires InBounds(s)
  {
    At(b, s).Some? && At(b, s).value.kind == King
  }

  /** The scratch-board update: the piece on `from` copied onto `to`, then `from` cleared. */
  function Played(b: Board, from: Square, to: Square): (r: Board)
    requires InBounds(from) && InBounds(to)
    ensures At(r, from) == None
    ensures from != to ==> At(r, to) == At(b, from)
    ensures forall s | InBounds(s) && s != from && s != to :: At(r, s) == At(b, s)
  {
    Put(Put(b, to, At(b, from)), from, None)
  }

  /** `isInCheck`: the first king of `color` found is attacked by the other colour; false with no king. */
  predicate InCheck(b: Board, color: PieceColor)
  {
    match FindKing(b, color)
    case None => false
    case Some(k) => IsSquareAttacked(b, k, Opposite(color))
  }

  /** With exactly one king of `color`, on `k`, being in check is that square being attacked. */
  lemma InCheckUniqueKing(b: Board, color: PieceColor, k: Square)
    requires InBounds(k) && At(b, k) == Some(Piece(King, color))
    requires forall s | InBounds(s) && s != k :: At(b, s) != Some(Piece(King, color))
    ensures InCheck(b, color) <==> IsSquareAttacked(b, k, Opposite(color))
  {
    FindUniqueKing(b, color, k);
  }

  /** Without a king of `color` on the board, `color` is never in check. */
  lemma NoKingNoCheck(b: Board, color: PieceColor)
    requires forall s | InBounds(s) :: At(b, s) != Some(Piece(King, color))
    ensures !InCheck(b, color)
  {
  }

  /**
    * `wouldLeaveKingInCheck`: true when `from` is empty, when the mover has no
    * king after the move is played on a copy, or when that king is attacked there.
    */
  predicate WouldLeaveKingInCheck(b: Board, from: Square, to: Square)
    requires InBounds(from) && InBounds(to)
  {
    match At(b, from)
    case None => true
    case Some(p) =>
      var after := Played(b, from, to);
      match FindKing(after, p.color)
      case None => true
      case Some(k) => IsSquareAttacked(after, k, Opposite(p.color))
  }

  /** A move passes the filter exactly when the mover keeps a king that is not in check after it. */
  lemma WouldLeaveIff(b: Board, from: Square, to: Square)
    requires InBounds(from) && InBounds(to) && At(b, from).Some?
    ensures var c := At(b, from).value.color;
            !WouldLeaveKingInCheck(b, from, to) <==>
              (exists k | InBounds(k) :: At(Played(b, from, to), k) == Some(Piece(King, c)))
              && !InCheck(Played(b, from, to), c)
  {
  }

  // ---------------------------------------------------------------------------
  // The two filters

  /** The destinations of `ts` that `reject` lets through, in their order. */
  function Keep(ts: seq<Square>, reject: Square -> bool): seq<Square>
    decreases |ts|
  {
    if ts == [] then []
    else Keep(ts[..|ts| - 1], reject) + (if reject(ts[|ts| - 1]) then [] else [ts[|ts| - 1]])
  }

  /** Filtering keeps exactly the destinations that are not rejected, and adds none. */
  lemma {:induction false} KeepIff(ts: seq<Square>, reject: Square -> bool)
    decreases |ts|
    ensures |Keep(ts, reject)| <= |ts|
    ensures forall t :: t in Keep(ts, reject) <==> t in ts && !reject(t)
  {
    if ts != [] {
      var n := |ts| - 1;
      KeepIff(ts[..n], reject);
      assert ts == ts[..n] + [ts[n]];
    }
  }

  /** Filtering one more destination appends it unless it is rejected. */
  lemma KeepSnoc(ts: seq<Square>, reject: Square -> bool, i: int)
    requires 0 <= i < |ts|
    ensures Keep(ts[..i + 1], reject) == Keep(ts[..i], reject) + (if reject(ts[i]) then [] else [ts[i]])
  {
    assert ts[..i + 1][..i] == ts[..i];
  }

  /** The `removeIf` test of `computeLegalMoves` for a piece on `from`. */
  function Unsafe(b: Board, from: Square): Square -> bool
    requires InBounds(from)
  {
    t => InBounds(t) && WouldLeaveKingInCheck(b, from, t)
  }

  /**
    * The test of the iterator pass of `recomputeLegalMoves`: a destination
    * holding a king is dropped, then one that would leave the mover's king in check.
    */
  function Rejected(b: Board, from: Square): Square -> bool
    requires InBounds(from)
  {
    t => InBounds(t) && (KingAt(b, t) || WouldLeaveKingInCheck(b, from, t))
  }

  /** `computeLegalMoves(r, c)`: the pseudo-legal moves that pass the self-check filter. */
  function LegalMoves(b: Board, o: Square): seq<Square>
    requires InBounds(o)
  {
    Keep(PseudoMoves(b, o), Unsafe(b, o))
  }

  /** `legalMoves` after `recomputeLegalMoves` for a selected square `o`. */
  function SelectedMoves(b: Board, o: Square): seq<Square>
    requires InBounds(o)
  {
    Keep(PseudoMoves(b, o), Rejected(b, o))
  }

  /**
    * The selected-piece list is the `computeLegalMoves` list without the
    * destinations that hold a king: the only difference between the two.
    */
  lemma SelectedMovesAreLegalMovesButKings(b: Board, o: Square)
    requires InBounds(o)
    ensures forall t | t in LegalMoves(b, o) :: InBounds(t)
    ensures forall t :: t in SelectedMoves(b, o) <==> t in LegalMoves(b, o) && !KingAt(b, t)
    ensures forall t | t in SelectedMoves(b, o) :: t in PseudoMoves(b, o) && t != o
  {
    PseudoMovesLeaveOrigin(b, o);
    KeepIff(PseudoMoves(b, o), Unsafe(b, o));
    KeepIff(PseudoMoves(b, o), Rejected(b, o));
  }

  // ---------------------------------------------------------------------------
  // Committing a move (`move`)

  /** A pawn reaching its colour's last row is promoted. */
  predicate Promotes(p: Piece, to: Square)
  {
    p.kind == Pawn && to.row == PromotionRow(p.color)
  }

  /** The board after `move`: relocate the piece, clear the source, promote a pawn on its last row to a queen. */
  function AfterMove(b: Board, from: Square, to: Square): (r: Board)
    requires InBounds(from) && InBounds(to) && At(b, from).Some?
    ensures from != to ==> At(r, from) == None
    ensures from != to ==> At(r, to) == Some(var p := At(b, from).value;
                                            if Promotes(p, to) then Piece(Queen, p.color) else p)
    ensures forall s | InBounds(s) && s != from && s != to :: At(r, s) == At(b, s)
  {
    var p := At(b, from).value;
    var moved := Played(b, from, to);
    if Promotes(p, to) then Put(moved, to, Some(Piece(Queen, p.color))) else moved
  }

  /**
    * A move that passed the self-check filter leaves the mover with a king that
    * is not in check, promotion included: the queen that replaces the pawn
    * shields and attacks nothing the oracle asks about for the other colour.
    */
  lemma LegalMoveLeavesKingSafe(b: Board, from: Square, to: Square)
    requires InBounds(from) && to in LegalMoves(b, from)
    ensures At(b, from).Some? && InBounds(to) && from != to
    ensures var c := At(b, from).value.color;
            FindKing(AfterMove(b, from, to), c).Some? && !InCheck(AfterMove(b, from, to), c)
  {
    PseudoMovesLeaveOrigin(b, from);
    KeepIff(PseudoMoves(b, from), Unsafe(b, from));
    var p := At(b, from).value;
    var c := p.color;
    if Promotes(p, to) {
      PromotionKeepsSafety(Played(b, from, to), to, c);
    }
  }

  /** Turning an own pawn into a queen changes neither the own king's square nor the opponent's attacks. */
  lemma PromotionKeepsSafety(moved: Board, to: Square, c: PieceColor)
    requires InBounds(to) && At(moved, to) == Some(Piece(Pawn, c))
    ensures var promoted := Put(moved, to, Some(Piece(Queen, c)));
            FindKing(promoted, c) == FindKing(moved, c) && InCheck(promoted, c) == InCheck(moved, c)
  {
    var promoted := Put(moved, to, Some(Piece(Queen, c)));
    assert SameForAttacker(moved, promoted, Opposite(c));
    FindKingSameKings(moved, promoted, c);
    if FindKing(moved, c).Some? {
      AttackDependsOnlyOnAttacker(moved, promoted, FindKing(moved, c).value, Opposite(c));
    }
  }

  /** The same for a destination of the selected-piece list, which the panel commits. */
  lemma SelectedMoveLeavesKingSafe(b: Board, from: Square, to: Square)
    requires InBounds(from) && to in SelectedMoves(b, from)
    ensures At(b, from).Some? && InBounds(to) && from != to
    ensures var c := At(b, from).value.color;
            FindKing(AfterMove(b, from, to), c).Some? && !InCheck(AfterMove(b, from, to), c)
  {
    SelectedMovesAreLegalMovesButKings(b, from);
    LegalMoveLeavesKingSafe(b, from, to);
  }

  /** A committed selected move never captures a king: every king on the board survives it. */
  lemma SelectedMoveKeepsKings(b: Board, from: Square, to: Square, k: Square)
    requires InBounds(from) && to in SelectedMoves(b, from)
    requires InBounds(k) && KingAt(b, k) && k != from
    ensures InBounds(to) && At(b, from).Some?
    ensures KingAt(AfterMove(b, from, to), k) && At(AfterMove(b, from, to), k) == At(b, k)
  {
    SelectedMovesAreLegalMovesButKings(b, from);
  }

  // ---------------------------------------------------------------------------
  // Checkmate (`isCheckmate`)

  /** `isCheckmate(color)`: in check, and no piece of `color` has a `computeLegalMoves` destination. */
  ghost predicate Checkmate(b: Board, color: PieceColor)
  {
    InCheck(b, color) && forall s | InBounds(s) && OwnPiece(b, s, color) :: LegalMoves(b, s) == []
  }

  /** Checkmate is check with every pseudo-legal move of `color` rejected by the self-check filter. */
  lemma CheckmateIff(b: Board, color: PieceColor)
    ensures Checkmate(b, color) <==>
              InCheck(b, color) &&
              forall s, t | InBounds(s) && OwnPiece(b, s, color) && t in PseudoMoves(b, s) ::
                WouldLeaveKingInCheck(b, s, t)
  {
    forall s | InBounds(s) && OwnPiece(b, s, color)
      ensures LegalMoves(b, s) == [] <==> forall t | t in PseudoMoves(b, s) :: WouldLeaveKingInCheck(b, s, t)
    {
      KeepIff(PseudoMoves(b, s), Unsafe(b, s));
      if LegalMoves(b, s) != [] {
        assert LegalMoves(b, s)[0] in LegalMoves(b, s);
      }
    }
  }
}
