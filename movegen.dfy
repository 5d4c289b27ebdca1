/**
  * Pseudo-legal destinations per piece kind: the squares the piece's geometry
  * reaches, ignoring whether the mover's own king is left attacked. Each
  * function lists the destinations in the order the generators append them.
  */
module MoveGen {
  import opened Pieces
  import opened Boards

  /** A piece of `color` may end on `t`: `t` is empty or holds a piece of the other colour. */
  predicate Enterable(b: Board, t: Square, color: PieceColor)
    requires InBounds(t)
  {
    At(b, t).None? || At(b, t).value.color != color
  }

  // ---------------------------------------------------------------------------
  // Pawns (`computePawnMoves`)

  /** The one- and two-square advances onto empty squares, the second only from the start row. */
  function PawnAdvances(b: Board, o: Square, color: PieceColor): seq<Square>
  {
    var next := Square(o.row + PawnDir(color), o.col);
    var two := Square(o.row + 2 * PawnDir(color), o.col);
    (if InBounds(next) && At(b, next).None? then [next] else [])
    + (if o.row == StartRow(color) && InBounds(next) && At(b, next).None? && InBounds(two) && At(b, two).None?
       then [two] else [])
  }

  /** The diagonal capture one row ahead and `side` columns across, if a piece of the other colour stands there. */
  function PawnCapture(b: Board, o: Square, color: PieceColor, side: int): seq<Square>
  {
    var t := Square(o.row + PawnDir(color), o.col + side);
    if InBounds(t) && At(b, t).Some? && At(b, t).value.color != color then [t] else []
  }

  /** The diagonal captures, one per column side in `sides`. */
  function PawnCaptures(b: Board, o: Square, color: PieceColor, sides: seq<int>): seq<Square>
    decreases |sides|
  {
    if sides == [] then []
    else PawnCaptures(b, o, color, sides[..|sides| - 1]) + PawnCapture(b, o, color, sides[|sides| - 1])
  }

  /** Taking one more side appends that side's capture, if any. */
  lemma PawnCapturesSnoc(b: Board, o: Square, color: PieceColor, sides: seq<int>, i: int)
    requires 0 <= i < |sides|
    ensures PawnCaptures(b, o, color, sides[..i + 1]) == PawnCaptures(b, o, color, sides[..i]) + PawnCapture(b, o, color, sides[i])
  {
    assert sides[..i + 1][..i] == sides[..i];
  }

  /** The captures listed are exactly the opposing pieces one row ahead and one of `sides` across. */
  lemma {:induction false} PawnCapturesIff(b: Board, o: Square, color: PieceColor, sides: seq<int>)
    decreases |sides|
    ensures forall t :: t in PawnCaptures(b, o, color, sides) <==>
              InBounds(t) && At(b, t).Some? && At(b, t).value.color != color
              && t.row == o.row + PawnDir(color) && t.col - o.col in sides
  {
    if sides != [] {
      var n := |sides| - 1;
      PawnCapturesIff(b, o, color, sides[..n]);
      assert sides == sides[..n] + [sides[n]];
    }
  }

  const PawnSides: seq<int> := [-1, 1]

  /** `computePawnMoves`: the advances, then the captures to the left and to the right. */
  function PawnTargets(b: Board, o: Square, color: PieceColor): seq<Square>
  {
    PawnAdvances(b, o, color) + PawnCaptures(b, o, color, PawnSides)
  }

  /**
    * A pawn goes one square forward onto an empty square; two squares forward
    * only from its start row and only over two empty squares; diagonally forward
    * only onto a piece of the other colour.
    */
  lemma PawnMoves(b: Board, o: Square, color: PieceColor)
    ensures forall t :: t in PawnTargets(b, o, color) <==>
              InBounds(t) &&
              ( (t == Square(o.row + PawnDir(color), o.col) && At(b, t).None?)
              || (t == Square(o.row + 2 * PawnDir(color), o.col) && o.row == StartRow(color)
                  && InBounds(Square(o.row + PawnDir(color), o.col))
                  && At(b, Square(o.row + PawnDir(color), o.col)).None? && At(b, t).None?)
              || (t.row == o.row + PawnDir(color) && (t.col == o.col - 1 || t.col == o.col + 1)
                  && At(b, t).Some? && At(b, t).value.color != color))
  {
    PawnCapturesIff(b, o, color, PawnSides);
  }

  /** From the initial layout every pawn has exactly its one- and two-square advances. */
  lemma InitialPawnMoves(color: PieceColor, c: int)
    requires 0 <= c < Size
    ensures PawnTargets(InitialBoard(), Square(StartRow(color), c), color)
            == [Square(StartRow(color) + PawnDir(color), c), Square(StartRow(color) + 2 * PawnDir(color), c)]
  {
    var b := InitialBoard();
    var o := Square(StartRow(color), c);
    var row := StartRow(color) + PawnDir(color);
    assert b[row] == EmptyRank();
    assert b[StartRow(color) + 2 * PawnDir(color)] == EmptyRank();
    assert PawnCaptures(b, o, color, PawnSides) == [] by {
      assert PawnSides[..1] == [-1];
      assert PawnCaptures(b, o, color, [-1]) == [];
    }
  }

  // ---------------------------------------------------------------------------
  // Knights and kings (`addKnightMoves`, `addKingMoves`)

  /** The destination one fixed step `d` away, if it is on the board and enterable. */
  function StepOne(b: Board, o: Square, color: PieceColor, d: Offset): seq<Square>
  {
    var t := Shift(o, d);
    if InBounds(t) && Enterable(b, t, color) then [t] else []
  }

  /** The destinations one step away, for each step of `offs` in turn. */
  function StepTargets(b: Board, o: Square, color: PieceColor, offs: seq<Offset>): seq<Square>
    decreases |offs|
  {
    if offs == [] then []
    else StepTargets(b, o, color, offs[..|offs| - 1]) + StepOne(b, o, color, offs[|offs| - 1])
  }

  /** At most one destination per step, and each is on the board, enterable and one step of `offs` away. */
  lemma {:induction false} StepTargetsSound(b: Board, o: Square, color: PieceColor, offs: seq<Offset>)
    decreases |offs|
    ensures |StepTargets(b, o, color, offs)| <= |offs|
    ensures forall t | t in StepTargets(b, o, color, offs) ::
              InBounds(t) && Enterable(b, t, color) && exists i | 0 <= i < |offs| :: t == Shift(o, offs[i])
  {
    if offs != [] {
      var init := offs[..|offs| - 1];
      StepTargetsSound(b, o, color, init);
      forall t | t in StepTargets(b, o, color, offs)
        ensures InBounds(t) && Enterable(b, t, color) && exists i | 0 <= i < |offs| :: t == Shift(o, offs[i])
      {
        if t in StepTargets(b, o, color, init) {
          var i :| 0 <= i < |init| && t == Shift(o, init[i]);
          assert offs[i] == init[i];
        } else {
          assert t == Shift(o, offs[|offs| - 1]);
        }
      }
    }
  }

  /** Taking one more step of `offs` appends that step's destination, if any. */
  lemma StepTargetsSnoc(b: Board, o: Square, color: PieceColor, offs: seq<Offset>, i: int)
    requires 0 <= i < |offs|
    ensures StepTargets(b, o, color, offs[..i + 1]) == StepTargets(b, o, color, offs[..i]) + StepOne(b, o, color, offs[i])
  {
    assert offs[..i + 1][..i] == offs[..i];
  }

  /** Every step of `offs` that lands on an enterable square is listed. */
  lemma {:induction false} StepTargetsComplete(b: Board, o: Square, color: PieceColor, offs: seq<Offset>, i: int)
    requires 0 <= i < |offs| && InBounds(Shift(o, offs[i])) && Enterable(b, Shift(o, offs[i]), color)
    decreases |offs|
    ensures Shift(o, offs[i]) in StepTargets(b, o, color, offs)
  {
    if i < |offs| - 1 {
      StepTargetsComplete(b, o, color, offs[..|offs| - 1], i);
    }
  }

  /** The destinations `addKnightMoves` appends, in the order of its offset table. */
  function KnightTargets(b: Board, o: Square, color: PieceColor): seq<Square>
  {
    StepTargets(b, o, color, KnightOffsets)
  }

  /** The destinations `addKingMoves` appends, in the order of its nested loops. */
  function KingTargets(b: Board, o: Square, color: PieceColor): seq<Square>
  {
    StepTargets(b, o, color, KingRing)
  }

  /** The listed destinations are exactly the enterable squares one step of `offs` away. */
  lemma StepTargetsIff(b: Board, o: Square, color: PieceColor, offs: seq<Offset>)
    ensures forall t :: t in StepTargets(b, o, color, offs) <==>
              InBounds(t) && Enterable(b, t, color) && exists i | 0 <= i < |offs| :: t == Shift(o, offs[i])
  {
    StepTargetsSound(b, o, color, offs);
    forall t, i | 0 <= i < |offs| && t == Shift(o, offs[i]) && InBounds(t) && Enterable(b, t, color)
      ensures t in StepTargets(b, o, color, offs)
    {
      StepTargetsComplete(b, o, color, offs, i);
    }
  }

  /** At most eight knight destinations: exactly the enterable squares a knight's jump away. */
  lemma KnightMoves(b: Board, o: Square, color: PieceColor)
    ensures |KnightTargets(b, o, color)| <= 8
    ensures forall t :: t in KnightTargets(b, o, color) <==> InBounds(t) && KnightJump(o, t) && Enterable(b, t, color)
  {
    StepTargetsSound(b, o, color, KnightOffsets);
    StepTargetsIff(b, o, color, KnightOffsets);
    forall t {
      KnightOffsetsAreJumps(o, t);
    }
  }

  /** At most eight king destinations: exactly the enterable neighbouring squares. */
  lemma KingMoves(b: Board, o: Square, color: PieceColor)
    ensures |KingTargets(b, o, color)| <= 8
    ensures forall t :: t in KingTargets(b, o, color) <==> InBounds(t) && Adjacent(o, t) && Enterable(b, t, color)
  {
    StepTargetsSound(b, o, color, KingRing);
    StepTargetsIff(b, o, color, KingRing);
    forall t {
      KingRingIsAdjacent(o, t);
    }
  }

  // ---------------------------------------------------------------------------
  // Sliding pieces (`addSlidingMoves`)

  /** The walk from `s` along `d`: empty squares, then the first occupied square if it is the other colour's. */
  function RayTargets(b: Board, s: Square, d: Direction, color: PieceColor): seq<Square>
    decreases RayFuel(s, d)
  {
    if !InBounds(s) then []
    else if At(b, s).None? then [s] + RayTargets(b, Shift(s, d), d, color)
    else if At(b, s).value.color != color then [s]
    else []
  }

  /** The k-th square of the ray is listed exactly when it is enterable and every square before it is empty. */
  lemma {:induction false} RayTargetsAt(b: Board, start: Square, d: Direction, color: PieceColor, k: int)
    requires 0 <= k
    decreases RayFuel(start, d)
    ensures RaySquare(start, d, k) in RayTargets(b, start, d, color) <==>
              InBounds(RaySquare(start, d, k)) && ClearUpTo(b, start, d, k)
              && Enterable(b, RaySquare(start, d, k), color)
  {
    RaySquareNext(start, d, 0);
    var t := RaySquare(start, d, k);
    if !InBounds(start) {
      assert k > 0 ==> !ClearUpTo(b, start, d, k);
    } else if At(b, start).Some? {
      if k > 0 {
        RaySquareInjective(start, d, 0, k);
        assert !ClearUpTo(b, start, d, k);
        assert t !in RayTargets(b, start, d, color);
      }
    } else if k == 0 {
      assert t in RayTargets(b, start, d, color);
    } else {
      var next := Shift(start, d);
      RaySquareInjective(start, d, 0, k);
      RayTargetsAt(b, next, d, color, k - 1);
      RaySquareNext(start, d, k - 1);
      assert t in RayTargets(b, start, d, color) <==> t in RayTargets(b, next, d, color);
      ClearUpToNext(b, start, d, k);
    }
  }

  /** Every listed square lies on the ray. */
  lemma {:induction false} RayTargetsOnRay(b: Board, start: Square, d: Direction, color: PieceColor)
    decreases RayFuel(start, d)
    ensures forall t | t in RayTargets(b, start, d, color) :: exists k | 0 <= k :: t == RaySquare(start, d, k)
  {
    RaySquareNext(start, d, 0);
    if InBounds(start) && At(b, start).None? {
      var next := Shift(start, d);
      RayTargetsOnRay(b, next, d, color);
      forall t | t in RayTargets(b, next, d, color)
        ensures exists k | 0 <= k :: t == RaySquare(start, d, k)
      {
        var j :| 0 <= j && t == RaySquare(next, d, j);
        RaySquareNext(start, d, j);
      }
    }
  }

  /** The rays along each direction of `dirs` in turn, starting next to `o`. */
  function SlidingTargets(b: Board, o: Square, color: PieceColor, dirs: seq<Direction>): seq<Square>
    decreases |dirs|
  {
    if dirs == [] then []
    else
      var d := dirs[|dirs| - 1];
      SlidingTargets(b, o, color, dirs[..|dirs| - 1]) + RayTargets(b, Shift(o, d), d, color)
  }

  /** Taking one more direction appends that direction's ray. */
  lemma SlidingTargetsSnoc(b: Board, o: Square, color: PieceColor, dirs: seq<Direction>, i: int)
    requires 0 <= i < |dirs|
    ensures SlidingTargets(b, o, color, dirs[..i + 1])
            == SlidingTargets(b, o, color, dirs[..i]) + RayTargets(b, Shift(o, dirs[i]), dirs[i], color)
  {
    assert dirs[..i + 1][..i] == dirs[..i];
  }

  /** `t` is k squares beyond the neighbour of `o` along `d`, enterable, and only empty squares lie before it. */
  predicate SlideReach(b: Board, o: Square, color: PieceColor, d: Direction, k: int, t: Square)
  {
    t == RaySquare(Shift(o, d), d, k) && InBounds(t) && ClearUpTo(b, Shift(o, d), d, k) && Enterable(b, t, color)
  }

  /** One ray of a sliding piece, stated without the walk. */
  lemma RayReach(b: Board, o: Square, color: PieceColor, d: Direction)
    ensures forall t :: t in RayTargets(b, Shift(o, d), d, color) <==> exists k | 0 <= k :: SlideReach(b, o, color, d, k, t)
  {
    var start := Shift(o, d);
    RayTargetsOnRay(b, start, d, color);
    forall t | t in RayTargets(b, start, d, color)
      ensures exists k | 0 <= k :: SlideReach(b, o, color, d, k, t)
    {
      var k :| 0 <= k && t == RaySquare(start, d, k);
      RayTargetsAt(b, start, d, color, k);
      assert SlideReach(b, o, color, d, k, t);
    }
    forall t, k | 0 <= k && SlideReach(b, o, color, d, k, t)
      ensures t in RayTargets(b, start, d, color)
    {
      RayTargetsAt(b, start, d, color, k);
    }
  }

  /**
    * A sliding piece reaches exactly the consecutive empty squares along each
    * of its directions and then the first occupied square if it is the other
    * colour's; nothing beyond the first occupied square.
    */
  lemma {:induction false} SlidingMoves(b: Board, o: Square, color: PieceColor, dirs: seq<Direction>)
    decreases |dirs|
    ensures forall t :: t in SlidingTargets(b, o, color, dirs) <==>
              exists i, k | 0 <= i < |dirs| && 0 <= k :: SlideReach(b, o, color, dirs[i], k, t)
  {
    if dirs != [] {
      var n := |dirs| - 1;
      var d := dirs[n];
      var front := SlidingTargets(b, o, color, dirs[..n]);
      var ray := RayTargets(b, Shift(o, d), d, color);
      assert SlidingTargets(b, o, color, dirs) == front + ray;
      SlidingMoves(b, o, color, dirs[..n]);
      RayReach(b, o, color, d);
      forall t | t in front
        ensures exists i, k | 0 <= i < |dirs| && 0 <= k :: SlideReach(b, o, color, dirs[i], k, t)
      {
        var i, k :| 0 <= i < n && 0 <= k && SlideReach(b, o, color, dirs[..n][i], k, t);
        assert dirs[..n][i] == dirs[i];
      }
      forall t | t in ray
        ensures exists i, k | 0 <= i < |dirs| && 0 <= k :: SlideReach(b, o, color, dirs[i], k, t)
      {
        var k :| 0 <= k && SlideReach(b, o, color, d, k, t);
        assert SlideReach(b, o, color, dirs[n], k, t);
      }
      forall t, i, k | 0 <= i < |dirs| && 0 <= k && SlideReach(b, o, color, dirs[i], k, t)
        ensures t in front + ray
      {
        if i < n {
          assert SlideReach(b, o, color, dirs[..n][i], k, t);
        }
      }
    }
  }

  // ---------------------------------------------------------------------------
  // Dispatch on the piece kind (the `switch` of `recomputeLegalMoves` and `computeLegalMoves`)

  /** The pseudo-legal destinations of the piece on `o`; none when `o` is empty. */
  function PseudoMoves(b: Board, o: Square): (r: seq<Square>)
    requires InBounds(o)
    ensures At(b, o).None? ==> r == []
    ensures forall t | t in r :: InBounds(t) && Enterable(b, t, At(b, o).value.color)
  {
    match At(b, o)
    case None => []
    case Some(p) =>
      match p.kind
      case Pawn => PawnMoves(b, o, p.color); PawnTargets(b, o, p.color)
      case Knight => KnightMoves(b, o, p.color); KnightTargets(b, o, p.color)
      case Bishop => SlidingMoves(b, o, p.color, BishopDirs); SlidingTargets(b, o, p.color, BishopDirs)
      case Rook => SlidingMoves(b, o, p.color, RookDirs); SlidingTargets(b, o, p.color, RookDirs)
      case Queen => SlidingMoves(b, o, p.color, QueenDirs); SlidingTargets(b, o, p.color, QueenDirs)
      case King => KingMoves(b, o, p.color); KingTargets(b, o, p.color)
  }

  /** No piece can stay where it is: the origin is never a destination. */
  lemma PseudoMovesLeaveOrigin(b: Board, o: Square)
    requires InBounds(o)
    ensures o !in PseudoMoves(b, o)
  {
    if At(b, o).Some? {
      var p := At(b, o).value;
      match p.kind
      case Bishop => SlidingLeaveOrigin(b, o, p.color, BishopDirs);
      case Rook => SlidingLeaveOrigin(b, o, p.color, RookDirs);
      case Queen => SlidingLeaveOrigin(b, o, p.color, QueenDirs);
      case _ =>
    }
  }

  /** A slider never lists its own square: every ray starts one step away and does not come back. */
  lemma SlidingLeaveOrigin(b: Board, o: Square, color: PieceColor, dirs: seq<Direction>)
    ensures o !in SlidingTargets(b, o, color, dirs)
  {
    SlidingMoves(b, o, color, dirs);
    if o in SlidingTargets(b, o, color, dirs) {
      var i, k :| 0 <= i < |dirs| && 0 <= k && SlideReach(b, o, color, dirs[i], k, o);
      RaySquareNext(o, dirs[i], k);
      RaySquareNext(o, dirs[i], 0);
      RaySquareInjective(o, dirs[i], 0, k + 1);
    }
  }
}
