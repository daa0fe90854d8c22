/** Cell values, players and the 8x8 board of the checkers rules engine,
    with piece counting and the starting layout. */
module Board {

  datatype Player = Green | Orange

  /** The five values a board cell can hold; a king is the promoted piece. */
  datatype Cell = Empty | GreenMan | GreenKing | OrangeMan | OrangeKing

  datatype Option<T> = None | Some(value: T)

  /** A board square as (row, column). */
  type Square = (int, int)

  /** The board, row by row. */
  type Grid = seq<seq<Cell>>

  const Size: int := 8

  /** The player who is not `p`. */
  function Other(p: Player): (q: Player)
    ensures q != p
  {
    if p == Green then Orange else Green
  }

  /** The side a cell's piece belongs to; None for an empty cell. */
  function Owner(c: Cell): Option<Player>
  {
    match c
    case Empty => None
    case GreenMan | GreenKing => Some(Green)
    case OrangeMan | OrangeKing => Some(Orange)
  }

  predicate IsMan(c: Cell)
  {
    c == GreenMan || c == OrangeMan
  }

  predicate IsKing(c: Cell)
  {
    c == GreenKing || c == OrangeKing
  }

  /** A player's unpromoted piece. */
  function Normal(p: Player): (c: Cell)
    ensures IsMan(c) && Owner(c) == Some(p)
  {
    match p
    case Green => GreenMan
    case Orange => OrangeMan
  }

  /** A player's promoted piece. */
  function Promoted(p: Player): (c: Cell)
    ensures IsKing(c) && Owner(c) == Some(p)
  {
    match p
    case Green => GreenKing
    case Orange => OrangeKing
  }

  /** The pieces that `p` may capture: the other side's man and king. */
  function Opposites(p: Player): (s: set<Cell>)
    ensures forall c :: c in s <==> Owner(c) == Some(Other(p))
  {
    if p == Green then {OrangeMan, OrangeKing} else {GreenMan, GreenKing}
  }

  predicate InBounds(sq: Square)
  {
    0 <= sq.0 < Size && 0 <= sq.1 < Size
  }

  predicate AllOnBoard(s: seq<Square>)
  {
    forall i :: 0 <= i < |s| ==> InBounds(s[i])
  }

  /** An 8x8 grid. */
  predicate IsGrid(b: Grid)
  {
    |b| == Size && forall r :: 0 <= r < Size ==> |b[r]| == Size
  }

  function At(b: Grid, sq: Square): Cell
    requires IsGrid(b) && InBounds(sq)
  {
    b[sq.0][sq.1]
  }

  /** The grid with one cell overwritten. */
  function SetAt(b: Grid, sq: Square, v: Cell): (r: Grid)
    requires IsGrid(b) && InBounds(sq)
    ensures IsGrid(r)
    ensures forall q :: InBounds(q) ==> At(r, q) == if q == sq then v else At(b, q)
  {
    b[sq.0 := b[sq.0][sq.1 := v]]
  }

  // Counting pieces

  function Tally(p: Player, c: Cell): nat
  {
    if Owner(c) == Some(p) then 1 else 0
  }

  /** Number of `p`'s pieces in one row. */
  function RowCount(row: seq<Cell>, p: Player): nat
  {
    if row == [] then 0 else Tally(p, row[0]) + RowCount(row[1..], p)
  }

  /** Number of `p`'s pieces (men and kings) on the grid. */
  function PieceCount(b: Grid, p: Player): nat
  {
    if b == [] then 0 else RowCount(b[0], p) + PieceCount(b[1..], p)
  }

  lemma {:induction false} RowCountUpdate(row: seq<Cell>, i: int, v: Cell, p: Player)
    requires 0 <= i < |row|
    ensures RowCount(row[i := v], p) == RowCount(row, p) - Tally(p, row[i]) + Tally(p, v)
  {
    if i == 0 {
      assert row[i := v][1..] == row[1..];
    } else {
      assert row[i := v][1..] == row[1..][i - 1 := v];
      RowCountUpdate(row[1..], i - 1, v, p);
    }
  }

  lemma {:induction false} PieceCountRowUpdate(b: Grid, r: int, row: seq<Cell>, p: Player)
    requires 0 <= r < |b|
    ensures PieceCount(b[r := row], p) == PieceCount(b, p) - RowCount(b[r], p) + RowCount(row, p)
  {
    if r == 0 {
      assert b[r := row][1..] == b[1..];
    } else {
      assert b[r := row][1..] == b[1..][r - 1 := row];
      PieceCountRowUpdate(b[1..], r - 1, row, p);
    }
  }

  /** Overwriting one cell changes a side's count only by what left and what arrived. */
  lemma SetAtCount(b: Grid, sq: Square, v: Cell, p: Player)
    requires IsGrid(b) && InBounds(sq)
    ensures PieceCount(SetAt(b, sq, v), p) == PieceCount(b, p) - Tally(p, At(b, sq)) + Tally(p, v)
  {
    RowCountUpdate(b[sq.0], sq.1, v, p);
    PieceCountRowUpdate(b, sq.0, b[sq.0][sq.1 := v], p);
  }

  // The starting position

  /** Green men on the dark squares (row + column odd) of rows 0-2, Orange men
      on those of rows 5-7, everything else empty. */
  function StartCell(r: int, c: int): Cell
  {
    if (r + c) % 2 == 1 && r < 3 then GreenMan
    else if (r + c) % 2 == 1 && r > 4 then OrangeMan
    else Empty
  }

  function InitialBoard(): (b: Grid)
    ensures IsGrid(b)
    ensures forall sq :: InBounds(sq) ==> At(b, sq) == StartCell(sq.0, sq.1)
  {
    seq(Size, r => seq(Size, c => StartCell(r, c)))
  }

  /** A grid holding the starting cell on every square is the starting position. */
  lemma IsInitialBoard(b: Grid)
    requires IsGrid(b)
    requires forall r, c :: 0 <= r < Size && 0 <= c < Size ==> b[r][c] == StartCell(r, c)
    ensures b == InitialBoard()
  {
    var ib := InitialBoard();
    forall r | 0 <= r < Size
      ensures b[r] == ib[r]
    {
      forall c | 0 <= c < Size
        ensures b[r][c] == ib[r][c]
      {
        assert At(ib, (r, c)) == StartCell(r, c);
      }
    }
  }

  lemma RowCountOfEight(row: seq<Cell>, p: Player)
    requires |row| == 8
    ensures RowCount(row, p) == Tally(p, row[0]) + Tally(p, row[1]) + Tally(p, row[2]) + Tally(p, row[3])
                                + Tally(p, row[4]) + Tally(p, row[5]) + Tally(p, row[6]) + Tally(p, row[7])
  {
    var t1 := row[1..];
    var t2 := t1[1..];
    var t3 := t2[1..];
    var t4 := t3[1..];
    var t5 := t4[1..];
    var t6 := t5[1..];
    var t7 := t6[1..];
    assert t7[1..] == [];
    assert RowCount(t7, p) == Tally(p, row[7]);
    assert RowCount(t6, p) == Tally(p, row[6]) + RowCount(t7, p);
    assert RowCount(t5, p) == Tally(p, row[5]) + RowCount(t6, p);
    assert RowCount(t4, p) == Tally(p, row[4]) + RowCount(t5, p);
    assert RowCount(t3, p) == Tally(p, row[3]) + RowCount(t4, p);
    assert RowCount(t2, p) == Tally(p, row[2]) + RowCount(t3, p);
    assert RowCount(t1, p) == Tally(p, row[1]) + RowCount(t2, p);
  }

  /** Row `r` of the starting position holds four pieces of the side that starts there. */
  lemma InitialRowCount(r: int, p: Player)
    requires 0 <= r < Size
    ensures RowCount(InitialBoard()[r], p)
            == if (r < 3 && p == Green) || (r > 4 && p == Orange) then 4 else 0
  {
    var row := InitialBoard()[r];
    var k := if (r < 3 && p == Green) || (r > 4 && p == Orange) then 1 else 0;
    forall c | 0 <= c < Size
      ensures Tally(p, row[c]) == if (r + c) % 2 == 1 then k else 0
    {
      assert row[c] == StartCell(r, c);
    }
    RowCountOfEight(row, p);
    if r % 2 == 0 {
      assert (r + 1) % 2 == 1 && (r + 3) % 2 == 1 && (r + 5) % 2 == 1 && (r + 7) % 2 == 1;
      assert r % 2 != 1 && (r + 2) % 2 != 1 && (r + 4) % 2 != 1 && (r + 6) % 2 != 1;
    } else {
      assert (r + 1) % 2 != 1 && (r + 3) % 2 != 1 && (r + 5) % 2 != 1 && (r + 7) % 2 != 1;
      assert r % 2 == 1 && (r + 2) % 2 == 1 && (r + 4) % 2 == 1 && (r + 6) % 2 == 1;
    }
  }

  /** The starting position holds twelve pieces of each side. */
  lemma InitialCounts(b: Grid)
    requires b == InitialBoard()
    ensures PieceCount(b, Green) == 12
    ensures PieceCount(b, Orange) == 12
  {
    forall r, p | 0 <= r < Size
      ensures RowCount(b[r], p) == if (r < 3 && p == Green) || (r > 4 && p == Orange) then 4 else 0
    {
      InitialRowCount(r, p);
    }
    var t1 := b[1..];
    var t2 := t1[1..];
    var t3 := t2[1..];
    var t4 := t3[1..];
    var t5 := t4[1..];
    var t6 := t5[1..];
    var t7 := t6[1..];
    assert t7[1..] == [];
    forall p
      ensures PieceCount(b, p) == RowCount(b[0], p) + RowCount(b[1], p) + RowCount(b[2], p) + RowCount(b[3], p)
                                  + RowCount(b[4], p) + RowCount(b[5], p) + RowCount(b[6], p) + RowCount(b[7], p)
    {
      assert PieceCount(t7, p) == RowCount(b[7], p);
      assert PieceCount(t6, p) == RowCount(b[6], p) + PieceCount(t7, p);
      assert PieceCount(t5, p) == RowCount(b[5], p) + PieceCount(t6, p);
      assert PieceCount(t4, p) == RowCount(b[4], p) + PieceCount(t5, p);
      assert PieceCount(t3, p) == RowCount(b[3], p) + PieceCount(t4, p);
      assert PieceCount(t2, p) == RowCount(b[2], p) + PieceCount(t3, p);
      assert PieceCount(t1, p) == RowCount(b[1], p) + PieceCount(t2, p);
    }
  }
}
