/**
  * The attack oracle `isSquareAttacked`: does colour `a` attack square `t` on
  * board `b`? It is a function of the board value, so it answers equally for
  * the live board and for a scratch copy.
  */
module Attacks {
  import opened Pieces
  import opened Boards

  /** Square `s` is on the board and holds exactly piece `p`. */
  predicate HasAt(b: Board, s: Square, p: Piece)
  {
    InBounds(s) && At(b, s) == Some(p)
  }

  /** A pawn of `a` stands one step behind `t` (as `a` moves) and one column to either side. */
  predicate PawnAttack(b: Board, t: Square, a: PieceColor)
  {
    var pr := t.row - PawnDir(a);
    HasAt(b, Square(pr, t.col - 1), Piece(Pawn, a)) || HasAt(b, Square(pr, t.col + 1), Piece(Pawn, a))
  }

  predicate KnightAttack(b: Board, t: Square, a: PieceColor)
  {
    exists i | 0 <= i < |KnightOffsets| :: HasAt(b, Shift(t, KnightOffsets[i]), Piece(Knight, a))
  }

  predicate KingAttack(b: Board, t: Square, a: PieceColor)
  {
    exists i | 0 <= i < |KingRing| :: HasAt(b, Shift(t, KingRing[i]), Piece(King, a))
  }

  /** The first occupied square met walking from `s` along `d`, if the walk meets one on the board. */
  function FirstOnRay(b: Board, s: Square, d: Direction): (f: Option<Square>)
    decreases RayFuel(s, d)
    ensures f.Some? ==> InBounds(f.value) && At(b, f.value).Some?
  {
    if !InBounds(s) then None
    else if At(b, s).Some? then Some(s)
    else FirstOnRay(b, Shift(s, d), d)
  }

  /** `p` moves along `d`: bishops and queens on diagonals, rooks and queens on rows and columns. */
  predicate SlidesAlong(p: Piece, d: Direction)
  {
    if Diagonal(d) then p.kind == Bishop || p.kind == Queen else p.kind == Rook || p.kind == Queen
  }

  /** The first piece along `d` from `t` belongs to `a` and slides along `d`; any other piece blocks. */
  predicate RayAttack(b: Board, t: Square, a: PieceColor, d: Direction)
  {
    match FirstOnRay(b, Shift(t, d), d)
    case None => false
    case Some(s) => At(b, s).value.color == a && SlidesAlong(At(b, s).value, d)
  }

  predicate SlidingAttack(b: Board, t: Square, a: PieceColor)
  {
    exists i | 0 <= i < |AttackDirs| :: RayAttack(b, t, a, AttackDirs[i])
  }

  /** `isSquareAttacked(r, c, attacker, b)`. */
  predicate IsSquareAttacked(b: Board, t: Square, a: PieceColor)
  {
    PawnAttack(b, t, a) || KnightAttack(b, t, a) || KingAttack(b, t, a) || SlidingAttack(b, t, a)
  }

  // ---------------------------------------------------------------------------
  // The oracle stated without walks

  /** The square k steps along the ray from `start` is the first occupied one. */
  lemma {:induction false} FirstOnRayIsFirstOccupied(b: Board, start: Square, d: Direction, k: int)
    requires 0 <= k
    decreases RayFuel(start, d)
    ensures FirstOnRay(b, start, d) == Some(RaySquare(start, d, k)) <==>
              InBounds(RaySquare(start, d, k)) && At(b, RaySquare(start, d, k)).Some?
              && ClearUpTo(b, start, d, k)
  {
    RaySquareNext(start, d, 0);
    if k > 0 {
      RaySquareInjective(start, d, 0, k);
    }
    if InBounds(start) && At(b, start).None? {
      if k == 0 {
        FirstOnRayPastEmpty(b, start, d);
      } else {
        FirstOnRayIsFirstOccupied(b, Shift(start, d), d, k - 1);
        RaySquareNext(start, d, k - 1);
        ClearUpToNext(b, start, d, k);
      }
    }
  }

  /** The walk from an empty square never stops on that square. */
  lemma FirstOnRayPastEmpty(b: Board, start: Square, d: Direction)
    requires InBounds(start) && At(b, start).None?
    ensures FirstOnRay(b, start, d) != Some(start)
  {
    var next := Shift(start, d);
    FirstOnRayAlongRay(b, next, d);
    if FirstOnRay(b, next, d).Some? {
      var j :| 0 <= j && FirstOnRay(b, next, d) == Some(RaySquare(next, d, j));
      RaySquareNext(start, d, 0);
      RaySquareNext(start, d, j);
      RaySquareInjective(start, d, 0, j + 1);
    }
  }

  /** Whatever the walk finds lies on the ray. */
  lemma {:induction false} FirstOnRayAlongRay(b: Board, start: Square, d: Direction)
    decreases RayFuel(start, d)
    ensures FirstOnRay(b, start, d).Some? ==>
              exists k | 0 <= k :: FirstOnRay(b, start, d) == Some(RaySquare(start, d, k))
  {
    RaySquareNext(start, d, 0);
    if InBounds(start) && At(b, start).None? {
      var next := Shift(start, d);
      FirstOnRayAlongRay(b, next, d);
      if FirstOnRay(b, next, d).Some? {
        var j :| 0 <= j && FirstOnRay(b, next, d) == Some(RaySquare(next, d, j));
        RaySquareNext(start, d, j);
      }
    }
  }

  /**
    * A slider of `a` stands k steps beyond the first square along `d` from `t`,
    * and every square before it on that ray is empty.
    */
  predicate SliderAt(b: Board, t: Square, a: PieceColor, d: Direction, k: int)
  {
    var s := RaySquare(Shift(t, d), d, k);
    InBounds(s) && At(b, s).Some? && At(b, s).value.color == a && SlidesAlong(At(b, s).value, d)
    && ClearUpTo(b, Shift(t, d), d, k)
  }

  /** A ray attack is exactly an attacking slider at some distance k along the ray with every square before it empty. */
  lemma RayAttackIsSliderAt(b: Board, t: Square, a: PieceColor, d: Direction)
    ensures RayAttack(b, t, a, d) <==> exists k | 0 <= k :: SliderAt(b, t, a, d, k)
  {
    var start := Shift(t, d);
    FirstOnRayAlongRay(b, start, d);
    if RayAttack(b, t, a, d) {
      var k :| 0 <= k && FirstOnRay(b, start, d) == Some(RaySquare(start, d, k));
      FirstOnRayIsFirstOccupied(b, start, d, k);
      assert SliderAt(b, t, a, d, k);
    }
    if k :| 0 <= k && SliderAt(b, t, a, d, k) {
      FirstOnRayIsFirstOccupied(b, start, d, k);
    }
  }

  /** A pawn of `a` attacks `t` exactly when it stands where a diagonal pawn step of `a` lands on `t`. */
  lemma PawnAttackIff(b: Board, t: Square, a: PieceColor)
    ensures PawnAttack(b, t, a) <==>
              exists s | InBounds(s) && At(b, s) == Some(Piece(Pawn, a)) ::
                t.row == s.row + PawnDir(a) && Abs(t.col - s.col) == 1
  {
    var pr := t.row - PawnDir(a);
    if s :| InBounds(s) && At(b, s) == Some(Piece(Pawn, a)) && t.row == s.row + PawnDir(a) && Abs(t.col - s.col) == 1 {
      assert s == Square(pr, t.col - 1) || s == Square(pr, t.col + 1);
    }
  }

  /** A knight of `a` attacks `t` exactly when one stands a knight's jump away from `t`. */
  lemma KnightAttackIff(b: Board, t: Square, a: PieceColor)
    ensures KnightAttack(b, t, a) <==>
              exists s | InBounds(s) && KnightJump(t, s) :: At(b, s) == Some(Piece(Knight, a))
  {
    forall s {
      KnightOffsetsAreJumps(t, s);
    }
  }

  /** A king of `a` attacks `t` exactly when it stands on a square touching `t`. */
  lemma KingAttackIff(b: Board, t: Square, a: PieceColor)
    ensures KingAttack(b, t, a) <==>
              exists s | InBounds(s) && Adjacent(t, s) :: At(b, s) == Some(Piece(King, a))
  {
    forall s {
      KingRingIsAdjacent(t, s);
    }
  }

  /**
    * The oracle without walks or offset tables: a pawn of `a` that would
    * capture onto `t`, a knight of `a` a knight's jump away, a king of `a`
    * touching `t`, or, along one of the eight rays from `t`, a slider of `a`
    * that is the first piece on that ray.
    */
  lemma AttackedIff(b: Board, t: Square, a: PieceColor)
    ensures IsSquareAttacked(b, t, a) <==>
              || (exists s | InBounds(s) && At(b, s) == Some(Piece(Pawn, a)) ::
                    t.row == s.row + PawnDir(a) && Abs(t.col - s.col) == 1)
              || (exists s | InBounds(s) && KnightJump(t, s) :: At(b, s) == Some(Piece(Knight, a)))
              || (exists s | InBounds(s) && Adjacent(t, s) :: At(b, s) == Some(Piece(King, a)))
              || (exists i, k | 0 <= i < |AttackDirs| && 0 <= k :: SliderAt(b, t, a, AttackDirs[i], k))
  {
    PawnAttackIff(b, t, a);
    KnightAttackIff(b, t, a);
    KingAttackIff(b, t, a);
    forall i | 0 <= i < |AttackDirs| {
      RayAttackIsSliderAt(b, t, a, AttackDirs[i]);
    }
  }

  // ---------------------------------------------------------------------------
  // What the oracle depends on

  /**
    * `b1` and `b2` have the same squares occupied and the same pieces of colour
    * `a`: they may differ only in which non-`a` piece stands on a square.
    */
  ghost predicate SameForAttacker(b1: Board, b2: Board, a: PieceColor)
  {
    forall s | InBounds(s) ::
      && (At(b1, s).Some? <==> At(b2, s).Some?)
      && (At(b1, s).Some? && At(b1, s).value.color == a ==> At(b2, s) == At(b1, s))
      && (At(b2, s).Some? && At(b2, s).value.color == a ==> At(b1, s) == At(b2, s))
  }

  /** Boards with the same occupied squares stop every ray on the same square. */
  lemma {:induction false} FirstOnRaySameOccupancy(b1: Board, b2: Board, a: PieceColor, s: Square, d: Direction)
    requires SameForAttacker(b1, b2, a)
    decreases RayFuel(s, d)
    ensures FirstOnRay(b1, s, d) == FirstOnRay(b2, s, d)
  {
    if InBounds(s) && At(b1, s).None? {
      FirstOnRaySameOccupancy(b1, b2, a, Shift(s, d), d);
    }
  }

  /** Replacing pieces that are not `a`'s by other such pieces never changes what `a` attacks. */
  lemma AttackDependsOnlyOnAttacker(b1: Board, b2: Board, t: Square, a: PieceColor)
    requires SameForAttacker(b1, b2, a)
    ensures IsSquareAttacked(b1, t, a) == IsSquareAttacked(b2, t, a)
  {
    forall i | 0 <= i < |AttackDirs|
      ensures RayAttack(b1, t, a, AttackDirs[i]) == RayAttack(b2, t, a, AttackDirs[i])
    {
      FirstOnRaySameOccupancy(b1, b2, a, Shift(t, AttackDirs[i]), AttackDirs[i]);
    }
  }
}
