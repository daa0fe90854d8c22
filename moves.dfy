/** Applying a move to the board (perform_move, eat_pieces and
    check_piece_promotion_and_promote) as functions on board values, and what
    they change. */
module Moves {
  import opened Board

  /** The moving piece is copied to `to`, then `from` is emptied unless it is `to`. */
  function Relocate(b: Grid, from: Square, to: Square): (r: Grid)
    requires IsGrid(b) && InBounds(from) && InBounds(to)
    ensures IsGrid(r)
  {
    var moved := SetAt(b, to, At(b, from));
    if from != to then SetAt(moved, from, Empty) else moved
  }

  /** Every square of the capture list emptied, in list order. */
  function ClearAll(b: Grid, caps: seq<Square>): (r: Grid)
    requires IsGrid(b) && AllOnBoard(caps)
    ensures IsGrid(r)
    ensures forall q :: InBounds(q) ==> At(r, q) == if q in caps then Empty else At(b, q)
    decreases |caps|
  {
    if caps == [] then b
    else SetAt(ClearAll(b, caps[..|caps| - 1]), caps[|caps| - 1], Empty)
  }

  /** The row where `p`'s men are crowned: the last row for Green, the first for Orange. */
  predicate FarRow(p: Player, row: int)
  {
    if p == Green then row == Size - 1 else row == 0
  }

  /** Crowning: a move of `p` ending on `p`'s far row leaves `p`'s king there,
      whatever the square held; nothing else changes, so a king stays a king. */
  function Promote(b: Grid, p: Player, sq: Square): (r: Grid)
    requires IsGrid(b) && InBounds(sq)
    ensures IsGrid(r)
    ensures forall q :: InBounds(q) && q != sq ==> At(r, q) == At(b, q)
    ensures At(r, sq) == if FarRow(p, sq.0) then Promoted(p) else At(b, sq)
    ensures IsKing(At(b, sq)) ==> IsKing(At(r, sq))
  {
    if p == Green && sq.0 == Size - 1 then SetAt(b, sq, GreenKing)
    else if p == Orange && sq.0 == 0 then SetAt(b, sq, OrangeKing)
    else b
  }

  /** The board after `p` moves from `from` to `to` capturing `caps`. */
  function AfterMove(b: Grid, p: Player, from: Square, to: Square, caps: seq<Square>): (r: Grid)
    requires IsGrid(b) && InBounds(from) && InBounds(to) && AllOnBoard(caps)
    ensures IsGrid(r)
  {
    Promote(ClearAll(Relocate(b, from, to), caps), p, to)
  }

  /** Exactly which squares a move changes: the end square receives the moving
      piece (crowned on the far row, emptied if it is itself in the capture list),
      the start square and every captured square become empty, and every other
      square keeps its value. */
  lemma AfterMoveCells(b: Grid, p: Player, from: Square, to: Square, caps: seq<Square>, q: Square)
    requires IsGrid(b) && InBounds(from) && InBounds(to) && AllOnBoard(caps) && InBounds(q)
    ensures At(AfterMove(b, p, from, to, caps), q) ==
              if q == to && FarRow(p, to.0) then Promoted(p)
              else if q in caps then Empty
              else if q == to then At(b, from)
              else if q == from then Empty
              else At(b, q)
  {
    var moved := SetAt(b, to, At(b, from));
    assert At(moved, to) == At(b, from);
  }

  /** Emptying a list of distinct squares that all held pieces of `p`'s opponent
      lowers the opponent's count by the length of the list and leaves `p`'s. */
  lemma {:induction false} ClearAllCounts(b: Grid, p: Player, caps: seq<Square>)
    requires IsGrid(b) && AllOnBoard(caps)
    requires forall i :: 0 <= i < |caps| ==> Owner(At(b, caps[i])) == Some(Other(p))
    requires forall i, j :: 0 <= i < j < |caps| ==> caps[i] != caps[j]
    ensures PieceCount(ClearAll(b, caps), p) == PieceCount(b, p)
    ensures PieceCount(ClearAll(b, caps), Other(p)) == PieceCount(b, Other(p)) - |caps|
    decreases |caps|
  {
    if caps != [] {
      var n := |caps| - 1;
      var front := caps[..n];
      ClearAllCounts(b, p, front);
      var last := caps[n];
      assert last !in front;
      var rest := ClearAll(b, front);
      assert At(rest, last) == At(b, last);
      SetAtCount(rest, last, Empty, p);
      SetAtCount(rest, last, Empty, Other(p));
    }
  }

  /** The moving piece is the mover's, the end square is empty, and the
      captures are distinct squares that each hold an opponent's piece. The
      engine checks the first only in the console, before validation, and
      never checks the second for a jump, since the capture search does not
      look at landing squares. The last two hold for every capture list the
      search returns (`Capture.FreshSearch`, `Capture.ChainCaptureAt`). */
  predicate CleanMove(b: Grid, p: Player, from: Square, to: Square, caps: seq<Square>)
    requires IsGrid(b) && InBounds(from) && InBounds(to) && AllOnBoard(caps)
  {
    Owner(At(b, from)) == Some(p) && At(b, to) == Empty
    && (forall i :: 0 <= i < |caps| ==> Owner(At(b, caps[i])) == Some(Other(p)))
    && (forall i, j :: 0 <= i < j < |caps| ==> caps[i] != caps[j])
  }

  /** Piece counts stay equal to the pieces on the board across a clean move:
      the mover keeps all pieces and the opponent loses one per capture. */
  lemma MoveKeepsCounts(b: Grid, p: Player, from: Square, to: Square, caps: seq<Square>)
    requires IsGrid(b) && InBounds(from) && InBounds(to) && AllOnBoard(caps)
    requires CleanMove(b, p, from, to, caps)
    ensures PieceCount(AfterMove(b, p, from, to, caps), p) == PieceCount(b, p)
    ensures PieceCount(AfterMove(b, p, from, to, caps), Other(p)) == PieceCount(b, Other(p)) - |caps|
  {
    var moved := SetAt(b, to, At(b, from));
    SetAtCount(b, to, At(b, from), p);
    SetAtCount(b, to, At(b, from), Other(p));
    var relocated := SetAt(moved, from, Empty);
    assert relocated == Relocate(b, from, to);
    SetAtCount(moved, from, Empty, p);
    SetAtCount(moved, from, Empty, Other(p));
    forall i | 0 <= i < |caps|
      ensures Owner(At(relocated, caps[i])) == Some(Other(p))
    {
      assert caps[i] != from && caps[i] != to;
    }
    ClearAllCounts(relocated, p, caps);
    var cleared := ClearAll(relocated, caps);
    assert to !in caps;
    assert Owner(At(cleared, to)) == Some(p);
    if FarRow(p, to.0) {
      SetAtCount(cleared, to, Promoted(p), p);
      SetAtCount(cleared, to, Promoted(p), Other(p));
    }
  }
}
