# Chess rules engine of `BoardPanel`

This project models the rules engine of the `BoardPanel` Swing panel (file
`src/Main.java`) without its Swing parts. It covers:

- the 8x8 board of immutable (kind, colour) pieces and its standard initial layout;
- the four pseudo-legal move generators (pawn, knight, king, sliding pieces);
- the attack oracle `isSquareAttacked`;
- the self-check filter `wouldLeaveKingInCheck`, which plays a move on a scratch copy of the board;
- the two legal-move lists;
- committing a move with automatic queen promotion and the change of turn;
- check and checkmate;
- the selection logic of a click.

The model is split into seven modules:

- `Pieces`: piece kinds, colours, pieces and the per-colour pawn constants.
- `Boards`: squares, the board as a value (`Board`, an 8x8 sequence of
  optional pieces), the initial layout and the row-major king scan `findKing`.
- `Attacks`: the oracle as a predicate on a board value. Because it is a
  value function, it answers equally for the live board and for a copy.
- `MoveGen`: each generator as a function listing its destinations in the
  order the source appends them, with lemmas stating each piece's geometry
  without walks or loops.
- `Rules`: playing a move on a copy, the two filters, committing a move,
  check and checkmate.
- `Selection`: the game state (board, selection, selected-piece list, side to
  move) and a click as a function on it.
- `Panel`: the class `BoardPanel`.
  - The live board is an `array2` updated in place. The ghost field
    `position` holds its contents as a value.
  - The move lists are sequences that the generator methods extend.
  - Each method is proved against the functions above. A generator method
    ensures that the list it returns is the input list followed by the
    generator function's destinations. `HandleClick` ensures that the new
    state is `Selection.Click` of the old one.

Two asymmetries of the source are modelled as written:

- The selected-piece list of `recomputeLegalMoves` drops destinations that
  hold a king. The list of `computeLegalMoves`, which `isCheckmate` uses, does
  not drop them (`Rules.SelectedMovesAreLegalMovesButKings` states the
  difference exactly).
- Clicking one of the mover's own pieces while a piece is selected re-selects
  it rather than deselecting.

Rows are `Point.x` and columns are `Point.y`. White pawns move towards row 0
and Black pawns towards row 7.

## Model

| member | source | states |
|---|---|---|
| Pieces.Opposite | src/Main.java:510-513 | the opposite colour always differs from the given one |
| Boards.InBounds | src/Main.java:502-504 | defines `inBounds`: row and column both between 0 and 7 |
| Boards.InitialBoard | src/Main.java:74-99 | defines the layout `initBoard` builds; characterised square by square by `Boards.InitialBoardAt` |
| Boards.SetUpEmpty | src/Main.java:74-99 | placing both back ranks and both pawn ranks on the empty board of a fresh `Piece[8][8]` gives the standard layout |
| Boards.InitialBoardAt | src/Main.java:74-99 | the standard layout square by square: black back rank on row 0, black pawns on row 1, white pawns on row 6, white back rank on row 7 (rook, knight, bishop, queen, king, bishop, knight, rook), rows 2 to 5 empty |
| Boards.InitialKings | src/Main.java:74-99 | in the initial layout each colour has exactly one king, on column 4 of its back rank, and the king scan finds it there |
| Boards.FindKing | src/Main.java:429-438 | the scan returns a square holding the king of that colour with no such king earlier in row-major order, and returns none exactly when the board has no king of that colour |
| Boards.FindKingSameKings | src/Main.java:429-438 | the scan result depends only on where the kings of that colour stand |
| Boards.KnightOffsetsAreJumps | src/Main.java:351 | the eight offsets of the knight table are exactly the knight's jumps |
| Boards.KingRingIsAdjacent | src/Main.java:361-363 | the eight steps of the nested king loops are exactly the moves to a touching square |
| Boards.FindUniqueKing | src/Main.java:429-438 | with exactly one king of the colour, the scan finds that king |
| Attacks.FirstOnRayIsFirstOccupied | src/Main.java:479-495 | the walk along a ray stops at the k-th square exactly when that square is on the board and occupied and every square before it is empty |
| Attacks.RayAttackIsSliderAt | src/Main.java:479-495 | a ray attacks exactly when an attacker piece that slides along that direction stands at some distance with only empty squares before it |
| Attacks.IsSquareAttacked | src/Main.java:441-499 | defines the oracle as the four tests of the source over its offset tables and ray walks; characterised by `Attacks.AttackedIff` |
| Attacks.PawnAttackIff | src/Main.java:443-451 | a pawn attacks a square exactly when a diagonal step of its colour lands there |
| Attacks.KnightAttackIff | src/Main.java:454-461 | a knight attacks a square exactly when it stands a knight's jump away |
| Attacks.KingAttackIff | src/Main.java:464-474 | a king attacks a square exactly when it stands on a square touching it |
| Attacks.AttackedIff | src/Main.java:441-499 | a square is attacked iff an attacker pawn would capture onto it, an attacker knight stands a knight's jump away, an attacker king touches it, or an attacker bishop or queen (diagonals) or rook or queen (orthogonals) is the first piece on one of the eight rays; any other piece blocks the ray |
| Attacks.AttackDependsOnlyOnAttacker | src/Main.java:441-499 | the answer is unchanged when the other side's pieces are swapped for other pieces of that side on the same squares |
| MoveGen.PawnTargets | src/Main.java:332-347 | defines the list `computePawnMoves` appends: advances, then left and right captures; characterised by `MoveGen.PawnMoves` |
| MoveGen.KnightTargets | src/Main.java:350-357 | defines the list `addKnightMoves` appends, in table order; characterised by `MoveGen.KnightMoves` |
| MoveGen.KingTargets | src/Main.java:360-370 | defines the list `addKingMoves` appends, in loop order; characterised by `MoveGen.KingMoves` |
| MoveGen.RayTargets | src/Main.java:375-386 | defines one direction's walk of `addSlidingMoves`; characterised by `MoveGen.RayTargetsAt` and `MoveGen.RayReach` |
| MoveGen.SlidingTargets | src/Main.java:373-388 | defines the list `addSlidingMoves` appends, direction by direction; characterised by `MoveGen.SlidingMoves` |
| MoveGen.PawnCapturesIff | src/Main.java:341-347 | the captures listed are exactly the squares one row ahead and one column to either side holding a piece of the other colour |
| MoveGen.PawnMoves | src/Main.java:332-347 | a pawn goes one square forward only onto an empty square, two squares only from its start row over two empty squares, and diagonally forward only onto a piece of the other colour; nothing else is listed |
| MoveGen.InitialPawnMoves | src/Main.java:332-340 | in the initial layout every pawn has exactly its one- and two-square advances, in that order |
| MoveGen.StepTargetsIff | src/Main.java:350-370 | a fixed-step generator lists exactly the on-board squares one listed step away that are empty or hold the other colour |
| MoveGen.KnightMoves | src/Main.java:350-357 | at most eight knight destinations, exactly the on-board squares a knight's jump away that are empty or hold the other colour |
| MoveGen.KingMoves | src/Main.java:360-370 | at most eight king destinations, exactly the on-board neighbouring squares (never the origin) that are empty or hold the other colour |
| MoveGen.RayTargetsAt | src/Main.java:375-386 | the k-th square of a ray is listed exactly when it is on the board, every square before it is empty and it is empty or holds the other colour |
| MoveGen.RayReach | src/Main.java:375-386 | one direction's walk lists exactly the squares the slide reaches along it |
| MoveGen.SlidingMoves | src/Main.java:373-388 | a sliding piece lists exactly the consecutive empty squares along each direction and then the first occupied square if it is the other colour's, and nothing beyond it |
| MoveGen.PseudoMoves | src/Main.java:244-264 | an empty square has no destinations; every destination is on the board and empty or held by the other colour |
| MoveGen.PseudoMovesLeaveOrigin | src/Main.java:244-264 | no generator lists the origin square |
| Rules.Played | src/Main.java:408-410 | on the copy, the origin is cleared, the destination holds the moving piece and every other square is unchanged |
| Rules.InCheck | src/Main.java:296-300 | defines `isInCheck`: the first king of the colour is attacked by the other colour; characterised by `Rules.InCheckUniqueKing` and `Rules.NoKingNoCheck` |
| Rules.InCheckUniqueKing | src/Main.java:296-300 | with one king of the colour, being in check is that king's square being attacked by the other colour |
| Rules.NoKingNoCheck | src/Main.java:296-300 | a colour without a king is never in check |
| Rules.WouldLeaveKingInCheck | src/Main.java:405-414 | defines `wouldLeaveKingInCheck` on a board value: true for an empty origin, a missing king after the move, or an attacked king; characterised by `Rules.WouldLeaveIff` |
| Rules.WouldLeaveIff | src/Main.java:405-414 | for an occupied origin, a move passes the self-check test exactly when after it the mover still has a king and is not in check |
| Rules.KeepIff | src/Main.java:266-278 | filtering keeps exactly the destinations that are not rejected, adds none and never lengthens the list |
| Rules.LegalMoves | src/Main.java:303-329 | defines the `computeLegalMoves` list: the pseudo-legal destinations kept by the self-check test; characterised by `Rules.KeepIff` and `Rules.LegalMoveLeavesKingSafe` |
| Rules.SelectedMoves | src/Main.java:238-279 | defines the `recomputeLegalMoves` list: the pseudo-legal destinations kept by the king-capture and self-check tests; characterised by `Rules.SelectedMovesAreLegalMovesButKings` |
| Rules.SelectedMovesAreLegalMovesButKings | src/Main.java:266-278 | the selected-piece list is the `computeLegalMoves` list without the squares holding a king, and is a subset of the generator's output that never contains the origin |
| Rules.AfterMove | src/Main.java:211-221 | after a move the origin is empty, the destination holds the piece (a queen of the same colour when a pawn reaches its last row) and no other square changes |
| Rules.LegalMoveLeavesKingSafe | src/Main.java:303-329 | committing a move from the `computeLegalMoves` list, promotion included, leaves the mover with a king that is not in check |
| Rules.PromotionKeepsSafety | src/Main.java:216-221 | turning the mover's pawn into a queen changes neither where the mover's king is found nor whether it is in check |
| Rules.SelectedMoveLeavesKingSafe | src/Main.java:266-278 | committing a move from the selected-piece list leaves the mover with a king that is not in check |
| Rules.SelectedMoveKeepsKings | src/Main.java:270-274 | committing a move from the selected-piece list never captures a king: every king other than the moving piece stays on its square |
| Rules.Checkmate | src/Main.java:282-293 | defines `isCheckmate`: in check, and no piece of the colour has a `computeLegalMoves` destination; characterised by `Rules.CheckmateIff` |
| Rules.CheckmateIff | src/Main.java:282-293 | checkmate is being in check with every generated move of every own piece failing the self-check test |
| Selection.InitialGameConsistent | src/Main.java:51-62 | a new panel holds a consistent state: nothing selected and no move list |
| Selection.Click | src/Main.java:178-209 | defines a click on the game state: off-board ignored, own piece (re)selected, listed destination committed with the turn passed, anything else deselects; characterised by `Selection.ClickOutcome`, `Selection.ClickOwnPieceSelects` and `Selection.ClickKeepsConsistent` |
| Selection.ClickKeepsConsistent | src/Main.java:178-209 | after any click the selection is empty with no list, or is a piece of the side to move with its selected-piece list |
| Selection.ClickOutcome | src/Main.java:178-209 | the turn changes exactly when the click commits a move; the board is then the committed move's board, nothing is selected, the mover is not in check and the other side's kings are in place; otherwise the board and turn are unchanged |
| Selection.ClickOwnPieceSelects | src/Main.java:183-196 | clicking an own piece always selects it with its freshly computed list, whether or not something was selected, and changes neither board nor turn |
| Panel.IteratorStep | src/Main.java:267-277 | one iterator step over the list keeps the visited part equal to the filtered prefix of the generated list and the rest equal to the unvisited part |
| Panel.AllScanned | src/Main.java:284-291 | once every row is scanned without finding a movable piece, no piece of that colour has a legal move |
| Panel.BoardPanel.constructor | src/Main.java:57-63 | a new panel has the standard layout, nothing selected, no move list and White to move, and is consistent |
| Panel.BoardPanel.InitBoard | src/Main.java:74-99 | both back ranks and both pawn ranks are placed and rows 2 to 5 are kept |
| Panel.BoardPanel.SetBackRank | src/Main.java:76-83 | the row holds the back rank of that colour in column order, and no other row changes |
| Panel.BoardPanel.SetPawnRank | src/Main.java:84-85 | the row holds pawns of that colour, and no other row changes |
| Panel.BoardPanel.AddPawnAdvances | src/Main.java:333-340 | appends the pawn's advances to the list |
| Panel.BoardPanel.AddPawnCapture | src/Main.java:342-346 | appends the capture on one side, if any |
| Panel.BoardPanel.AddPawnCaptures | src/Main.java:341-347 | appends the captures on both sides, left first |
| Panel.BoardPanel.ComputePawnMoves | src/Main.java:332-347 | appends exactly the pawn destinations characterised by `MoveGen.PawnMoves` |
| Panel.BoardPanel.AddStep | src/Main.java:351-356 | appends the square one step away when it is on the board and empty or held by the other colour |
| Panel.BoardPanel.AddKnightMoves | src/Main.java:350-357 | appends exactly the knight destinations characterised by `MoveGen.KnightMoves` |
| Panel.BoardPanel.AddKingMoves | src/Main.java:360-370 | appends exactly the king destinations characterised by `MoveGen.KingMoves`, in loop order |
| Panel.BoardPanel.AddKingRow | src/Main.java:362-369 | one pass of the inner loop appends the destinations of one row step |
| Panel.BoardPanel.AddKingStep | src/Main.java:363-368 | skips the null step and otherwise appends the destination of one step |
| Panel.BoardPanel.AddRay | src/Main.java:375-386 | the while loop appends exactly one direction's ray destinations |
| Panel.BoardPanel.AddDirection | src/Main.java:374-387 | one pass of the direction loop appends that direction's ray |
| Panel.BoardPanel.AddSlidingMoves | src/Main.java:373-388 | appends exactly the sliding destinations characterised by `MoveGen.SlidingMoves` |
| Panel.BoardPanel.AddPseudoMoves | src/Main.java:244-264 | the switch on the piece kind appends that piece's pseudo-legal destinations |
| Panel.BoardPanel.CopyBoard | src/Main.java:417-426 | returns a fresh array, not aliasing the source, with the same cells |
| Panel.BoardPanel.WouldLeaveKingInCheck | src/Main.java:405-414 | answers as `Rules.WouldLeaveKingInCheck` on the live board and modifies nothing |
| Panel.BoardPanel.RecomputeLegalMoves | src/Main.java:238-279 | the list is empty without a selection and otherwise is the selected-piece list of the selected square |
| Panel.BoardPanel.PruneLegalMoves | src/Main.java:266-278 | removing in place leaves the generated list filtered by the king-capture and self-check tests, order kept |
| Panel.BoardPanel.RejectMove | src/Main.java:269-277 | a destination is removed exactly when it holds a king or fails the self-check test |
| Panel.BoardPanel.ComputeLegalMoves | src/Main.java:303-329 | returns the pseudo-legal destinations that pass the self-check test, in generation order |
| Panel.BoardPanel.IsInCheck | src/Main.java:296-300 | answers whether the first king of the colour is attacked by the other colour |
| Panel.BoardPanel.IsCheckmate | src/Main.java:282-293 | true exactly when the colour is in check and no piece of it has a legal move |
| Panel.BoardPanel.ScanRow | src/Main.java:285-290 | finds a movable piece of the colour in the row exactly when there is one |
| Panel.BoardPanel.SquareHasMove | src/Main.java:286-289 | the square holds a piece of the colour with a nonempty legal-move list |
| Panel.BoardPanel.Relocate | src/Main.java:212-221 | the board becomes the committed move's board, with promotion |
| Panel.BoardPanel.Move | src/Main.java:211-235 | the board becomes the committed move's board, the turn passes to the other colour, and the result is whether that colour is now checkmated |
| Panel.BoardPanel.HandleClick | src/Main.java:178-209 | the new panel state is the click's outcome and the panel stays consistent; the result reports a checkmate caused by a committed move |

## Left out

- Swing and AWT: `Main.main`, `ChessFrame`, `paintComponent`, the mouse listener methods, and the panel's size, colour and focus set-up in the constructor. None of them has rules content.
- The pixel-to-square division at the start of `handleClick`: `HandleClick` takes the row and column directly.
- `repaint`, `statusListener` and `setStatusListener`: I/O with no effect on the rules.
- The checkmate dialog (`JOptionPane`): `Move` and `HandleClick` return the checkmate verdict instead of showing it. As in the source, checkmate does not stop the game.
- `getTurn`: a plain field read.
- `Piece.unicode`: it only produces display strings.
- `src/ChessAI.java` is not part of this model. It picks a move at random, and it depends on a `Move` class that neither `Main.java` nor `ChessAI.java` defines.
- Java object identity: `copyBoard` and `move` create new `Piece` objects, and the generators create new `Point` objects. Pieces are values here, and equal (kind, colour) pairs are the same piece. No code of the engine compares pieces or points by identity.
- `AddSlidingMoves` and `AddRay` accept only unit compass directions (`Direction`). The source passes only such directions.
- `Rules.Unsafe` and `Rules.Rejected` treat an off-board destination as kept. The generators never produce one, and `PseudoMoves` ensures this.
- The generator wrappers without the list argument (lines 391-402) are the same methods applied to `legalMoves`. `RecomputeLegalMoves` calls the list-taking methods and stores the result in `legalMoves`.
- `InitBoard`: the eight explicit back-rank assignments per colour are written as the loop `SetBackRank` over `BackRankKinds`. That sequence lists the same pieces in the same column order.
- `PruneLegalMoves`: the iterator removal works on a local copy of the list that is stored back into `legalMoves` at the end. The result is the same; the aliasing between the iterator and the field is not modelled.
- Castling, en passant, stalemate and draws are absent from the source, so they are absent here too.
