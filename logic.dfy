/** The rules engine (class CheckersLogic): the board and the game state,
    updated in place one move at a time. */
module Logic {
  import opened Board
  import opened Capture
  import opened Moves

  const MustMove := "You have to move the piece"
  const MustGoForward := "You have to move forward"
  const AlreadyOccupied := "You can not move there, there is already a piece"
  const NotAllowed := "That move is not allowed"

  function Abs(x: int): nat
  {
    if x < 0 then -x else x
  }

  /** A man of `p` moving from `fromRow` to `toRow` goes forward: Green toward
      higher rows, Orange toward lower rows. */
  predicate Advances(p: Player, fromRow: int, toRow: int)
  {
    if p == Green then toRow > fromRow else toRow < fromRow
  }

  /** Both coordinates change by exactly one. */
  predicate IsSingleStep(from: Square, to: Square)
  {
    Abs(to.0 - from.0) == 1 && Abs(from.1 - to.1) == 1
  }

  /** A man of `piece`'s side that does not advance from `fromRow` to `toRow`;
      kings and empty squares never move in the wrong direction. */
  predicate WrongDirection(piece: Cell, fromRow: int, toRow: int)
  {
    IsMan(piece) && !Advances(Owner(piece).value, fromRow, toRow)
  }

  /** What validating a move decides: legality, the message shown, and the
      visited set and pending capture list it leaves behind. */
  datatype Verdict = Verdict(valid: bool, message: string, memo: set<Square>, pending: seq<Square>)

  /** The checks of validate_move in their order: the same square, the wrong
      direction for a man, a one-square diagonal step onto an occupied square,
      and for every other shape the capture search from an empty memo and no
      captures. `memo` and `pending` are the state the checks start from. */
  function Validation(b: Grid, p: Player, from: Square, to: Square,
                      memo: set<Square>, pending: seq<Square>): (v: Verdict)
    requires IsGrid(b) && InBounds(from) && InBounds(to) && AllOnBoard(pending)
    ensures AllOnBoard(v.pending)
    ensures v.valid <==> v.message == ""
  {
    if from == to then Verdict(false, MustMove, memo, pending)
    else if WrongDirection(At(b, from), from.0, to.0) then Verdict(false, MustGoForward, memo, pending)
    else if IsSingleStep(from, to) then
      if At(b, to) != Empty then Verdict(false, AlreadyOccupied, memo, pending)
      else Verdict(true, "", memo, pending)
    else
      var r := Search(b, p, At(b, from), from, to, [], {}, pending);
      Verdict(r.found, if r.found then "" else NotAllowed, r.memo, r.pending)
  }

  /** A move passes validation only as a single diagonal step onto an empty
      square, which keeps the pending list, or as a chain of open jumps from
      start to end whose captures become the pending list; a rejected move
      keeps the pending list. */
  lemma ValidationSound(b: Grid, p: Player, from: Square, to: Square,
                        memo: set<Square>, pending: seq<Square>)
    requires IsGrid(b) && InBounds(from) && InBounds(to) && AllOnBoard(pending)
    ensures var v := Validation(b, p, from, to, memo, pending);
            v.valid ==>
              (IsSingleStep(from, to) && At(b, to) == Empty && v.pending == pending)
              || (!IsSingleStep(from, to) && |v.pending| >= 1
                  && JumpChain(b, p, At(b, from), from, to, v.pending))
    ensures var v := Validation(b, p, from, to, memo, pending);
            !v.valid ==> v.pending == pending
  {
    if from != to {
      FreshSearch(b, p, At(b, from), from, to, pending);
    }
  }

  /** A move that is not a single step passes validation exactly when a chain
      of open jumps leads from its start to its end, and then, by ChainParity,
      both coordinates change by an even amount. */
  lemma ValidationOfJumps(b: Grid, p: Player, from: Square, to: Square,
                          memo: set<Square>, pending: seq<Square>)
    requires IsGrid(b) && InBounds(from) && InBounds(to) && AllOnBoard(pending)
    requires from != to && !WrongDirection(At(b, from), from.0, to.0) && !IsSingleStep(from, to)
    ensures Validation(b, p, from, to, memo, pending).valid <==>
            exists caps :: JumpChain(b, p, At(b, from), from, to, caps)
    ensures Validation(b, p, from, to, memo, pending).valid ==>
            (to.0 - from.0) % 2 == 0 && (to.1 - from.1) % 2 == 0
  {
    FreshSearch(b, p, At(b, from), from, to, pending);
    var v := Validation(b, p, from, to, memo, pending);
    if v.valid {
      ChainParity(b, p, At(b, from), from, to, v.pending);
    }
  }

  /** A move accepted for the mover's own piece onto an empty square, starting
      from an empty pending list, is clean: its captures are distinct squares
      holding the opponent's pieces. So the counters `perform_move` keeps stay
      equal to the pieces on the board. */
  lemma AcceptedMoveKeepsCounts(b: Grid, p: Player, from: Square, to: Square, memo: set<Square>)
    requires IsGrid(b) && InBounds(from) && InBounds(to)
    requires Owner(At(b, from)) == Some(p) && At(b, to) == Empty
    ensures var v := Validation(b, p, from, to, memo, []);
            v.valid ==> CleanMove(b, p, from, to, v.pending)
    ensures var v := Validation(b, p, from, to, memo, []);
            v.valid ==> PieceCount(AfterMove(b, p, from, to, v.pending), p) == PieceCount(b, p)
                        && PieceCount(AfterMove(b, p, from, to, v.pending), Other(p))
                           == PieceCount(b, Other(p)) - |v.pending|
  {
    var v := Validation(b, p, from, to, memo, []);
    ValidationSound(b, p, from, to, memo, []);
    if v.valid {
      if !IsSingleStep(from, to) {
        FreshSearch(b, p, At(b, from), from, to, []);
        forall i | 0 <= i < |v.pending|
          ensures Owner(At(b, v.pending[i])) == Some(Other(p))
        {
          ChainCaptureAt(b, p, At(b, from), from, to, v.pending, i);
        }
      }
      MoveKeepsCounts(b, p, from, to, v.pending);
    }
  }

  /** A row with no pieces. */
  const Blank: seq<Cell> := seq(Size, _ => Empty)

  /** The starting position built square by square: on each row that starts
      with pieces, every second column from the row's first dark square. */
  method StartingGrid() returns (grid: Grid)
    ensures grid == InitialBoard()
  {
    grid := seq(Size, _ => Blank);
    for row := 0 to Size
      invariant IsGrid(grid)
      invariant forall r, c :: 0 <= r < row && 0 <= c < Size ==> grid[r][c] == StartCell(r, c)
      invariant forall r :: row <= r < Size ==> grid[r] == Blank
    {
      var colBegin := if row % 2 == 0 then 1 else 0;
      if row < 3 || row > 4 {
        var piece := if row < 3 then GreenMan else OrangeMan;
        ghost var before := grid;
        var col := colBegin;
        while col < Size
          invariant colBegin <= col <= Size + 1 && (col - colBegin) % 2 == 0
          invariant |grid| == Size && |grid[row]| == Size
          invariant forall r :: 0 <= r < Size && r != row ==> grid[r] == before[r]
          invariant forall c :: 0 <= c < Size ==>
                      grid[row][c] == if c < col && (c - colBegin) % 2 == 0 then piece else Empty
        {
          grid := grid[row := grid[row][col := piece]];
          col := col + 2;
        }
        forall c | 0 <= c < Size
          ensures grid[row][c] == StartCell(row, c)
        {
          assert (c - colBegin) % 2 == 0 <==> (row + c) % 2 == 1;
        }
      }
    }
    IsInitialBoard(grid);
  }

  class CheckersLogic {
    var board: Grid
    var greenPieces: int
    var orangePieces: int
    var currentPlayer: Player
    var winner: Option<Player>
    /** The pending capture list a successful capture search leaves for perform_move. */
    var eatenPieces: seq<Square>
    /** The visited-square set of the capture search. */
    var memo: set<Square>

    ghost predicate Valid()
      reads this
    {
      IsGrid(board) && AllOnBoard(eatenPieces)
    }

    /** The two counters equal the pieces of each side on the board. */
    ghost predicate CountsMatch()
      reads this
      requires Valid()
    {
      greenPieces == PieceCount(board, Green) && orangePieces == PieceCount(board, Orange)
    }

    constructor()
      ensures Valid() && CountsMatch()
      ensures board == InitialBoard() && greenPieces == 12 && orangePieces == 12
      ensures eatenPieces == [] && memo == {} && currentPlayer == Green && winner == None
    {
      new;
      InitGame();
    }

    /** Sets up the starting position and resets the game state. */
    method InitGame()
      modifies this
      ensures Valid() && CountsMatch()
      ensures board == InitialBoard() && greenPieces == 12 && orangePieces == 12
      ensures eatenPieces == [] && memo == {} && currentPlayer == Green && winner == None
    {
      var grid := StartingGrid();
      InitialCounts(grid);
      board := grid;
      greenPieces := 12;
      orangePieces := 12;
      eatenPieces := [];
      currentPlayer := Green;
      winner := None;
      memo := {};
    }

    /** Passes the turn to the other side. */
    method ChangePlayer()
      modifies this`currentPlayer
      ensures currentPlayer == Other(old(currentPlayer))
    {
      currentPlayer := if currentPlayer == Orange then Green else Orange;
    }

    function GetPiece(row: int, col: int): Cell
      reads this
      requires Valid() && InBounds((row, col))
    {
      board[row][col]
    }

    /** The square holds a man or a king of the side to move. */
    function CheckValidPiece(initRow: int, initCol: int): (valid: bool)
      reads this
      requires Valid() && InBounds((initRow, initCol))
      ensures valid <==> Owner(board[initRow][initCol]) == Some(currentPlayer)
    {
      var piece := GetPiece(initRow, initCol);
      piece == Normal(currentPlayer) || piece == Promoted(currentPlayer)
    }

    /** Empties every square of the pending capture list and takes that many
        pieces off the opponent's counter. */
    method EatPieces()
      requires Valid()
      modifies this`board, this`greenPieces, this`orangePieces, this`eatenPieces
      ensures Valid()
      ensures board == ClearAll(old(board), old(eatenPieces))
      ensures currentPlayer == Green ==>
                orangePieces == old(orangePieces) - |old(eatenPieces)| && greenPieces == old(greenPieces)
      ensures currentPlayer == Orange ==>
                greenPieces == old(greenPieces) - |old(eatenPieces)| && orangePieces == old(orangePieces)
      ensures eatenPieces == []
    {
      var grid, eaten := board, eatenPieces;
      var counter := 0;
      for i := 0 to |eaten|
        invariant counter == i
        invariant IsGrid(grid) && grid == ClearAll(board, eaten[..i])
      {
        var piece := eaten[i];
        assert eaten[..i + 1][..i] == eaten[..i];
        grid := grid[piece.0 := grid[piece.0][piece.1 := Empty]];
        counter := counter + 1;
      }
      assert eaten[..|eaten|] == eaten;
      board := grid;
      if currentPlayer == Green {
        orangePieces := orangePieces - counter;
      } else {
        greenPieces := greenPieces - counter;
      }
      eatenPieces := [];
    }

    /** Applies a move: relocation, captures, promotion and the end check. The
        board becomes AfterMove of the old board, and the opponent's counter
        drops by the length of the pending capture list, which by
        MoveKeepsCounts keeps the counters equal to the pieces on the board
        whenever the move is clean. */
    method PerformMove(initRow: int, initCol: int, endRow: int, endCol: int) returns (done: bool)
      requires Valid() && InBounds((initRow, initCol)) && InBounds((endRow, endCol))
      modifies this`board, this`greenPieces, this`orangePieces, this`eatenPieces, this`winner
      ensures Valid() && done
      ensures board == AfterMove(old(board), currentPlayer, (initRow, initCol), (endRow, endCol), old(eatenPieces))
      ensures currentPlayer == Green ==>
                orangePieces == old(orangePieces) - |old(eatenPieces)| && greenPieces == old(greenPieces)
      ensures currentPlayer == Orange ==>
                greenPieces == old(greenPieces) - |old(eatenPieces)| && orangePieces == old(orangePieces)
      ensures eatenPieces == []
      ensures winner == if orangePieces == 0 then Some(Green)
                        else if greenPieces == 0 then Some(Orange)
                        else old(winner)
    {
      ghost var from, to, b0, caps := (initRow, initCol), (endRow, endCol), board, eatenPieces;
      board := board[endRow := board[endRow][endCol := board[initRow][initCol]]];
      if initRow != endRow || initCol != endCol {
        board := board[initRow := board[initRow][initCol := Empty]];
      }
      ghost var relocated := board;
      assert relocated == Relocate(b0, from, to);
      if |eatenPieces| > 0 {
        EatPieces();
      } else {
        assert caps == [];
      }
      ghost var cleared := board;
      assert cleared == ClearAll(relocated, caps);
      CheckPiecePromotionAndPromote(endRow, endCol);
      assert board == AfterMove(b0, currentPlayer, from, to, caps);
      CheckEnd();
      done := true;
    }

    /** Crowns a piece of the side to move that ends on its far row. */
    method CheckPiecePromotionAndPromote(endRow: int, endCol: int)
      requires Valid() && InBounds((endRow, endCol))
      modifies this`board
      ensures Valid()
      ensures board == Promote(old(board), currentPlayer, (endRow, endCol))
    {
      if currentPlayer == Green && endRow == |board| - 1 {
        board := board[endRow := board[endRow][endCol := GreenKing]];
      }
      if currentPlayer == Orange && endRow == 0 {
        board := board[endRow := board[endRow][endCol := OrangeKing]];
      }
    }

    /** True when the destination is OCCUPIED: the name promises the opposite,
        and validate_move relies on this meaning. */
    function CheckBasicMove(endRow: int, endCol: int): (occupied: bool)
      reads this
      requires Valid() && InBounds((endRow, endCol))
      ensures occupied <==> Owner(board[endRow][endCol]).Some?
    {
      GetPiece(endRow, endCol) != Empty
    }

    /** `piece` belongs to the opponent of `player`. */
    function CheckOpposite(player: Player, piece: Cell): (opposite: bool)
      ensures opposite <==> Owner(piece) == Some(Other(player))
    {
      piece in Opposites(player)
    }

    /** The capture search: mutates `memo` and, on reaching the target, sets
        `eatenPieces`; it is exactly the function Search of the Capture module. */
    method CheckLongerMove(piece: Cell, initRow: int, initCol: int, endRow: int, endCol: int,
                           eaten: seq<Square>) returns (found: bool)
      requires Valid() && InBounds((initRow, initCol)) && AllOnBoard(eaten)
      modifies this`memo, this`eatenPieces
      ensures Valid()
      ensures Outcome(found, memo, eatenPieces)
              == Search(board, currentPlayer, piece, (initRow, initCol), (endRow, endCol),
                        eaten, old(memo), old(eatenPieces))
      decreases AllSquares() - memo, 0
    {
      if (initRow, initCol) in memo {
        return false;
      }
      memo := memo + {(initRow, initCol)};
      if initRow == endRow && initCol == endCol {
        eatenPieces := eaten;
        return true;
      }
      ghost var b, player, pos, target := board, currentPlayer, (initRow, initCol), (endRow, endCol);
      ghost var start := Outcome(false, memo, eatenPieces);
      var topRight := TryJump(piece, initRow, initCol, endRow, endCol, eaten, 1, -1);
      ghost var tr := Outcome(topRight, memo, eatenPieces);
      var topLeft := TryJump(piece, initRow, initCol, endRow, endCol, eaten, 1, 1);
      ghost var tl := Outcome(topLeft, memo, eatenPieces);
      var bottomRight := TryJump(piece, initRow, initCol, endRow, endCol, eaten, -1, 1);
      ghost var br := Outcome(bottomRight, memo, eatenPieces);
      var bottomLeft := TryJump(piece, initRow, initCol, endRow, endCol, eaten, -1, -1);
      found := topRight || topLeft || bottomRight || bottomLeft;
      ExpandIgnoresFound(b, player, piece, pos, target, eaten, tr, 1, 1);
      ExpandIgnoresFound(b, player, piece, pos, target, eaten, tl, -1, 1);
      ExpandIgnoresFound(b, player, piece, pos, target, eaten, br, -1, -1);
    }

    /** One of the four branches of the capture search: when `piece` may move
        toward row direction `dr`, the jump stays on the board and the square
        jumped holds an opponent's piece, search on from the landing square
        with that square appended to the capture list; otherwise the branch
        fails without visiting anything. */
    method TryJump(piece: Cell, initRow: int, initCol: int, endRow: int, endCol: int,
                   eaten: seq<Square>, dr: int, dc: int) returns (found: bool)
      requires Valid() && InBounds((initRow, initCol)) && AllOnBoard(eaten) && IsDirection(dr, dc)
      modifies this`memo, this`eatenPieces
      ensures Valid()
      ensures Outcome(found, memo, eatenPieces)
              == Expand(board, currentPlayer, piece, (initRow, initCol), (endRow, endCol), eaten,
                        Outcome(false, old(memo), old(eatenPieces)), dr, dc)
      decreases AllSquares() - memo, 1
    {
      ghost var pos := (initRow, initCol);
      ghost var open := JumpOpen(board, currentPlayer, piece, pos, dr, dc);
      found := false;
      if MovesToward(piece, dr)
         && (if dr == 1 then initRow <= |board| - 3 else initRow >= 2)
         && (if dc == 1 then initCol <= |board| - 3 else initCol >= 2)
         && CheckOpposite(currentPlayer, board[initRow + dr][initCol + dc]) {
        assert open && Jumped(pos, dr, dc) == (initRow + dr, initCol + dc);
        found := CheckLongerMove(piece, initRow + 2 * dr, initCol + 2 * dc, endRow, endCol,
                                 eaten + [(initRow + dr, initCol + dc)]);
      } else {
        assert !open;
      }
    }

    /** True exactly for a man moving toward its own side or sideways; kings
        and empty squares are never in the wrong direction. */
    function CheckWrongDirection(initRow: int, initCol: int, endRow: int): (wrong: bool)
      reads this
      requires Valid() && InBounds((initRow, initCol))
      ensures wrong <==> WrongDirection(board[initRow][initCol], initRow, endRow)
    {
      var difference := endRow - initRow;
      var piece := GetPiece(initRow, initCol);
      (piece == GreenMan && difference <= 0) || (piece == OrangeMan && difference >= 0)
    }

    /** The start and end squares are the same square. */
    function CheckSameMove(initRow: int, initCol: int, endRow: int, endCol: int): (same: bool)
      ensures same <==> (initRow, initCol) == (endRow, endCol)
    {
      initRow == endRow && initCol == endCol
    }

    /** Decides whether a move is legal, applying its checks in a fixed order.
        Only the capture search changes state: it resets `memo` and, on success,
        replaces the pending capture list. */
    method ValidateMove(initRow: int, initCol: int, endRow: int, endCol: int)
      returns (valid: bool, message: string)
      requires Valid() && InBounds((initRow, initCol)) && InBounds((endRow, endCol))
      modifies this`memo, this`eatenPieces
      ensures Valid()
      ensures Verdict(valid, message, memo, eatenPieces)
              == Validation(board, currentPlayer, (initRow, initCol), (endRow, endCol), old(memo), old(eatenPieces))
    {
      if CheckSameMove(initRow, initCol, endRow, endCol) {
        return false, MustMove;
      }
      if CheckWrongDirection(initRow, initCol, endRow) {
        return false, MustGoForward;
      }
      if Abs(endRow - initRow) == 1 && Abs(initCol - endCol) == 1 {
        if CheckBasicMove(endRow, endCol) {
          return false, AlreadyOccupied;
        }
      } else {
        memo := {};
        var found := CheckLongerMove(GetPiece(initRow, initCol), initRow, initCol, endRow, endCol, []);
        if !found {
          return false, NotAllowed;
        }
      }
      return true, "";
    }

    /** Declares a winner when a side has no pieces left; with both counters at
        zero, Green wins because its check runs last. */
    method CheckEnd()
      modifies this`winner
      ensures winner == if orangePieces == 0 then Some(Green)
                        else if greenPieces == 0 then Some(Orange)
                        else old(winner)
    {
      if greenPieces == 0 {
        winner := Some(Orange);
      }
      if orangePieces == 0 {
        winner := Some(Green);
      }
    }

    /** One attempt at a turn as the console drives it: validate, and for a
        legal move apply it and pass the turn unless the game was just won. */
    method Move(initRow: int, initCol: int, endRow: int, endCol: int)
      returns (valid: bool, message: string)
      requires Valid() && InBounds((initRow, initCol)) && InBounds((endRow, endCol))
      requires CheckValidPiece(initRow, initCol)
      modifies this
      ensures Valid()
      ensures var v := Validation(old(board), old(currentPlayer), (initRow, initCol), (endRow, endCol),
                                  old(memo), old(eatenPieces));
              valid == v.valid && message == v.message
      ensures !valid ==>
                board == old(board) && greenPieces == old(greenPieces) && orangePieces == old(orangePieces)
                && currentPlayer == old(currentPlayer) && winner == old(winner)
                && eatenPieces == old(eatenPieces)
      ensures valid ==> eatenPieces == []
      ensures valid ==> currentPlayer == if winner == None then Other(old(currentPlayer)) else old(currentPlayer)
      ensures valid ==>
                var caps := Validation(old(board), old(currentPlayer), (initRow, initCol), (endRow, endCol),
                                       old(memo), old(eatenPieces)).pending;
                board == AfterMove(old(board), old(currentPlayer), (initRow, initCol), (endRow, endCol), caps)
                && (old(currentPlayer) == Green ==>
                      orangePieces == old(orangePieces) - |caps| && greenPieces == old(greenPieces))
                && (old(currentPlayer) == Orange ==>
                      greenPieces == old(greenPieces) - |caps| && orangePieces == old(orangePieces))
      ensures valid ==> winner == if orangePieces == 0 then Some(Green)
                                  else if greenPieces == 0 then Some(Orange)
                                  else old(winner)
    {
      ghost var b0, p0 := board, currentPlayer;
      ghost var v := Validation(board, currentPlayer, (initRow, initCol), (endRow, endCol), memo, eatenPieces);
      ValidationSound(board, currentPlayer, (initRow, initCol), (endRow, endCol), memo, eatenPieces);
      valid, message := ValidateMove(initRow, initCol, endRow, endCol);
      if valid {
        assert board == b0 && currentPlayer == p0 && eatenPieces == v.pending;
        var _ := PerformMove(initRow, initCol, endRow, endCol);
        if winner == None {
          ChangePlayer();
        }
      }
    }
  }
}
