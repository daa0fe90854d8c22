/** The multi-capture search (check_longer_move): a depth-first search over
    diagonal jumps that threads one visited-square set (memo) through all of
    its branches and records the captured squares of the branch that reaches
    the target. */
module Capture {
  import opened Board

  /** What one search call leaves behind: whether it reached the target, the
      visited-square set and the pending capture list. */
  datatype Outcome = Outcome(found: bool, memo: set<Square>, pending: seq<Square>)

  /** The 64 squares of the board. */
  function AllSquares(): (s: set<Square>)
    ensures forall sq :: sq in s <==> InBounds(sq)
  {
    set r, c | 0 <= r < Size && 0 <= c < Size :: (r, c)
  }

  /** (dr, dc) is one of the four diagonal unit steps. */
  predicate IsDirection(dr: int, dc: int)
  {
    (dr == 1 || dr == -1) && (dc == 1 || dc == -1)
  }

  /** The pieces the search lets jump toward higher rows (dr = 1) or toward lower
      rows (dr = -1): a Green man only up, an Orange man only down, a king both ways. */
  predicate MovesToward(piece: Cell, dr: int)
  {
    if dr == 1 then piece == GreenMan || piece == GreenKing || piece == OrangeKing
    else piece == OrangeMan || piece == GreenKing || piece == OrangeKing
  }

  function Jumped(pos: Square, dr: int, dc: int): Square
  {
    (pos.0 + dr, pos.1 + dc)
  }

  function Landing(pos: Square, dr: int, dc: int): Square
  {
    (pos.0 + 2 * dr, pos.1 + 2 * dc)
  }

  /** The guard of one jump: the piece may move that way, the row and column
      leave room for two steps, and the square jumped over holds a piece of the
      opponent of `player`. The landing square itself is never inspected. */
  predicate JumpOpen(b: Grid, player: Player, piece: Cell, pos: Square, dr: int, dc: int)
    requires IsGrid(b) && InBounds(pos) && IsDirection(dr, dc)
    ensures JumpOpen(b, player, piece, pos, dr, dc) ==>
              InBounds(Jumped(pos, dr, dc)) && InBounds(Landing(pos, dr, dc))
  {
    MovesToward(piece, dr)
    && (if dr == 1 then pos.0 <= Size - 3 else pos.0 >= 2)
    && (if dc == 1 then pos.1 <= Size - 3 else pos.1 >= 2)
    && At(b, Jumped(pos, dr, dc)) in Opposites(player)
  }

  /** One call of the search from `pos`. A square already in `memo` fails at once;
      otherwise it is recorded in `memo`; reaching `target` replaces the pending
      list by the captures `eaten` of this path; otherwise the four directions are
      tried in the source's order, each seeing the memo and pending list the
      previous one left, and the call succeeds when any of them did. */
  function Search(b: Grid, player: Player, piece: Cell, pos: Square, target: Square,
                  eaten: seq<Square>, memo: set<Square>, pending: seq<Square>): (r: Outcome)
    requires IsGrid(b) && InBounds(pos) && AllOnBoard(eaten) && AllOnBoard(pending)
    ensures memo + {pos} <= r.memo
    ensures AllOnBoard(r.pending)
    ensures r.found ==> target in r.memo
    decreases AllSquares() - memo, 0
  {
    if pos in memo then Outcome(false, memo, pending)
    else if pos == target then Outcome(true, memo + {pos}, eaten)
    else
      var start := Outcome(false, memo + {pos}, pending);
      var tr := Expand(b, player, piece, pos, target, eaten, start, 1, -1);
      var tl := Expand(b, player, piece, pos, target, eaten, tr, 1, 1);
      var br := Expand(b, player, piece, pos, target, eaten, tl, -1, 1);
      var bl := Expand(b, player, piece, pos, target, eaten, br, -1, -1);
      Outcome(tr.found || tl.found || br.found || bl.found, bl.memo, bl.pending)
  }

  /** The branch of direction (dr, dc) from `pos`, started in state `o`: when the
      jump is open, a search from the landing square with the jumped square added
      to the captures; otherwise a failure that leaves the state as it was. */
  function Expand(b: Grid, player: Player, piece: Cell, pos: Square, target: Square,
                  eaten: seq<Square>, o: Outcome, dr: int, dc: int): (r: Outcome)
    requires IsGrid(b) && InBounds(pos) && IsDirection(dr, dc)
    requires AllOnBoard(eaten) && AllOnBoard(o.pending)
    ensures o.memo <= r.memo
    ensures AllOnBoard(r.pending)
    ensures r.found ==> target in r.memo
    decreases AllSquares() - o.memo, 1
  {
    if JumpOpen(b, player, piece, pos, dr, dc) then
      Search(b, player, piece, Landing(pos, dr, dc), target,
             eaten + [Jumped(pos, dr, dc)], o.memo, o.pending)
    else
      Outcome(false, o.memo, o.pending)
  }

  /** A branch depends only on the memo and the pending list it is handed. */
  lemma ExpandIgnoresFound(b: Grid, player: Player, piece: Cell, pos: Square, target: Square,
                           eaten: seq<Square>, o: Outcome, dr: int, dc: int)
    requires IsGrid(b) && InBounds(pos) && IsDirection(dr, dc)
    requires AllOnBoard(eaten) && AllOnBoard(o.pending)
    ensures Expand(b, player, piece, pos, target, eaten, o, dr, dc)
            == Expand(b, player, piece, pos, target, eaten, Outcome(false, o.memo, o.pending), dr, dc)
  {
  }

  /** `caps` are the squares jumped over by a chain of open jumps from `from` to `to`. */
  predicate JumpChain(b: Grid, player: Player, piece: Cell, from: Square, to: Square, caps: seq<Square>)
    requires IsGrid(b) && InBounds(from)
    decreases |caps|
  {
    if caps == [] then from == to
    else
      var dr, dc := caps[0].0 - from.0, caps[0].1 - from.1;
      IsDirection(dr, dc) && JumpOpen(b, player, piece, from, dr, dc)
      && JumpChain(b, player, piece, Landing(from, dr, dc), to, caps[1..])
  }

  /** Every square `v` reached by an open jump from `sq` lies in `m`. */
  predicate SuccessorsIn(b: Grid, player: Player, piece: Cell, sq: Square, m: set<Square>)
    requires IsGrid(b) && InBounds(sq)
  {
    (JumpOpen(b, player, piece, sq, 1, -1) ==> Landing(sq, 1, -1) in m)
    && (JumpOpen(b, player, piece, sq, 1, 1) ==> Landing(sq, 1, 1) in m)
    && (JumpOpen(b, player, piece, sq, -1, 1) ==> Landing(sq, -1, 1) in m)
    && (JumpOpen(b, player, piece, sq, -1, -1) ==> Landing(sq, -1, -1) in m)
  }

  // Once the target is in memo, no later call can succeed or touch the pending list.

  lemma {:induction false} SearchSkipsVisitedTarget(b: Grid, player: Player, piece: Cell, pos: Square,
                                                     target: Square, eaten: seq<Square>,
                                                     memo: set<Square>, pending: seq<Square>)
    requires IsGrid(b) && InBounds(pos) && AllOnBoard(eaten) && AllOnBoard(pending)
    requires target in memo
    ensures !Search(b, player, piece, pos, target, eaten, memo, pending).found
    ensures Search(b, player, piece, pos, target, eaten, memo, pending).pending == pending
    decreases AllSquares() - memo, 0
  {
    if pos !in memo {
      var start := Outcome(false, memo + {pos}, pending);
      var tr := Expand(b, player, piece, pos, target, eaten, start, 1, -1);
      var tl := Expand(b, player, piece, pos, target, eaten, tr, 1, 1);
      var br := Expand(b, player, piece, pos, target, eaten, tl, -1, 1);
      ExpandSkipsVisitedTarget(b, player, piece, pos, target, eaten, start, 1, -1);
      ExpandSkipsVisitedTarget(b, player, piece, pos, target, eaten, tr, 1, 1);
      ExpandSkipsVisitedTarget(b, player, piece, pos, target, eaten, tl, -1, 1);
      ExpandSkipsVisitedTarget(b, player, piece, pos, target, eaten, br, -1, -1);
    }
  }

  lemma {:induction false} ExpandSkipsVisitedTarget(b: Grid, player: Player, piece: Cell, pos: Square,
                                                     target: Square, eaten: seq<Square>,
                                                     o: Outcome, dr: int, dc: int)
    requires IsGrid(b) && InBounds(pos) && IsDirection(dr, dc)
    requires AllOnBoard(eaten) && AllOnBoard(o.pending)
    requires target in o.memo
    ensures !Expand(b, player, piece, pos, target, eaten, o, dr, dc).found
    ensures Expand(b, player, piece, pos, target, eaten, o, dr, dc).pending == o.pending
    decreases AllSquares() - o.memo, 1
  {
    if JumpOpen(b, player, piece, pos, dr, dc) {
      SearchSkipsVisitedTarget(b, player, piece, Landing(pos, dr, dc), target,
                               eaten + [Jumped(pos, dr, dc)], o.memo, o.pending);
    }
  }

  // A failed search leaves the pending capture list as it found it.

  lemma {:induction false} SearchFailureKeepsPending(b: Grid, player: Player, piece: Cell, pos: Square,
                                                      target: Square, eaten: seq<Square>,
                                                      memo: set<Square>, pending: seq<Square>)
    requires IsGrid(b) && InBounds(pos) && AllOnBoard(eaten) && AllOnBoard(pending)
    ensures var r := Search(b, player, piece, pos, target, eaten, memo, pending);
            !r.found ==> r.pending == pending
    decreases AllSquares() - memo, 0
  {
    if pos !in memo && pos != target {
      var start := Outcome(false, memo + {pos}, pending);
      var tr := Expand(b, player, piece, pos, target, eaten, start, 1, -1);
      var tl := Expand(b, player, piece, pos, target, eaten, tr, 1, 1);
      var br := Expand(b, player, piece, pos, target, eaten, tl, -1, 1);
      ExpandFailureKeepsPending(b, player, piece, pos, target, eaten, start, 1, -1);
      ExpandFailureKeepsPending(b, player, piece, pos, target, eaten, tr, 1, 1);
      ExpandFailureKeepsPending(b, player, piece, pos, target, eaten, tl, -1, 1);
      ExpandFailureKeepsPending(b, player, piece, pos, target, eaten, br, -1, -1);
    }
  }

  lemma {:induction false} ExpandFailureKeepsPending(b: Grid, player: Player, piece: Cell, pos: Square,
                                                      target: Square, eaten: seq<Square>,
                                                      o: Outcome, dr: int, dc: int)
    requires IsGrid(b) && InBounds(pos) && IsDirection(dr, dc)
    requires AllOnBoard(eaten) && AllOnBoard(o.pending)
    ensures var r := Expand(b, player, piece, pos, target, eaten, o, dr, dc);
            !r.found ==> r.pending == o.pending
    decreases AllSquares() - o.memo, 1
  {
    if JumpOpen(b, player, piece, pos, dr, dc) {
      SearchFailureKeepsPending(b, player, piece, Landing(pos, dr, dc), target,
                                eaten + [Jumped(pos, dr, dc)], o.memo, o.pending);
    }
  }

  // Putting the target into memo is the same as succeeding.

  lemma {:induction false} SearchReachingTargetSucceeds(b: Grid, player: Player, piece: Cell, pos: Square,
                                                         target: Square, eaten: seq<Square>,
                                                         memo: set<Square>, pending: seq<Square>)
    requires IsGrid(b) && InBounds(pos) && AllOnBoard(eaten) && AllOnBoard(pending)
    requires target !in memo
    ensures var r := Search(b, player, piece, pos, target, eaten, memo, pending);
            r.found <==> target in r.memo
    decreases AllSquares() - memo, 0
  {
    if pos !in memo && pos != target {
      var start := Outcome(false, memo + {pos}, pending);
      var tr := Expand(b, player, piece, pos, target, eaten, start, 1, -1);
      var tl := Expand(b, player, piece, pos, target, eaten, tr, 1, 1);
      var br := Expand(b, player, piece, pos, target, eaten, tl, -1, 1);
      ExpandReachingTargetSucceeds(b, player, piece, pos, target, eaten, start, 1, -1);
      if target !in tr.memo {
        ExpandReachingTargetSucceeds(b, player, piece, pos, target, eaten, tr, 1, 1);
        if target !in tl.memo {
          ExpandReachingTargetSucceeds(b, player, piece, pos, target, eaten, tl, -1, 1);
          if target !in br.memo {
            ExpandReachingTargetSucceeds(b, player, piece, pos, target, eaten, br, -1, -1);
          }
        }
      }
    }
  }

  lemma {:induction false} ExpandReachingTargetSucceeds(b: Grid, player: Player, piece: Cell, pos: Square,
                                                         target: Square, eaten: seq<Square>,
                                                         o: Outcome, dr: int, dc: int)
    requires IsGrid(b) && InBounds(pos) && IsDirection(dr, dc)
    requires AllOnBoard(eaten) && AllOnBoard(o.pending)
    requires target !in o.memo
    ensures var r := Expand(b, player, piece, pos, target, eaten, o, dr, dc);
            r.found <==> target in r.memo
    decreases AllSquares() - o.memo, 1
  {
    if JumpOpen(b, player, piece, pos, dr, dc) {
      SearchReachingTargetSucceeds(b, player, piece, Landing(pos, dr, dc), target,
                                   eaten + [Jumped(pos, dr, dc)], o.memo, o.pending);
    }
  }

  // On success the pending list is the captures of a chain of open jumps to the target.

  lemma {:induction false} SearchFindsChain(b: Grid, player: Player, piece: Cell, pos: Square,
                                             target: Square, eaten: seq<Square>,
                                             memo: set<Square>, pending: seq<Square>)
    requires IsGrid(b) && InBounds(pos) && AllOnBoard(eaten) && AllOnBoard(pending)
    ensures var r := Search(b, player, piece, pos, target, eaten, memo, pending);
            r.found ==> |eaten| <= |r.pending| && r.pending[..|eaten|] == eaten
                        && JumpChain(b, player, piece, pos, target, r.pending[|eaten|..])
                        && Unvisited(Stops(pos, r.pending[|eaten|..]), memo)
    decreases AllSquares() - memo, 0
  {
    var r := Search(b, player, piece, pos, target, eaten, memo, pending);
    if pos !in memo && pos != target && r.found {
      var o, dr, dc := FirstSuccess(b, player, piece, pos, target, eaten, memo, pending);
      ExpandFindsChain(b, player, piece, pos, target, eaten, o, dr, dc);
      var path := Stops(pos, r.pending[|eaten|..]);
      UnvisitedCons(pos, path[1..], memo, o.memo);
      assert path == [pos] + path[1..];
    } else if pos !in memo && pos == target {
      assert r.pending[|eaten|..] == [];
    }
  }

  /** The branch that makes a search call succeed: the first direction whose
      expansion found the target, which also fixes the call's pending list,
      since the later branches no longer touch it. */
  lemma FirstSuccess(b: Grid, player: Player, piece: Cell, pos: Square, target: Square,
                     eaten: seq<Square>, memo: set<Square>, pending: seq<Square>)
    returns (o: Outcome, dr: int, dc: int)
    requires IsGrid(b) && InBounds(pos) && AllOnBoard(eaten) && AllOnBoard(pending)
    requires pos !in memo && pos != target
    requires Search(b, player, piece, pos, target, eaten, memo, pending).found
    ensures IsDirection(dr, dc) && AllOnBoard(o.pending) && memo + {pos} <= o.memo
    ensures var e := Expand(b, player, piece, pos, target, eaten, o, dr, dc);
            e.found && e.pending == Search(b, player, piece, pos, target, eaten, memo, pending).pending
  {
    var start := Outcome(false, memo + {pos}, pending);
    var tr := Expand(b, player, piece, pos, target, eaten, start, 1, -1);
    var tl := Expand(b, player, piece, pos, target, eaten, tr, 1, 1);
    var br := Expand(b, player, piece, pos, target, eaten, tl, -1, 1);
    if tr.found {
      o, dr, dc := start, 1, -1;
      ExpandSkipsVisitedTarget(b, player, piece, pos, target, eaten, tr, 1, 1);
      ExpandSkipsVisitedTarget(b, player, piece, pos, target, eaten, tl, -1, 1);
      ExpandSkipsVisitedTarget(b, player, piece, pos, target, eaten, br, -1, -1);
    } else if tl.found {
      o, dr, dc := tr, 1, 1;
      ExpandSkipsVisitedTarget(b, player, piece, pos, target, eaten, tl, -1, 1);
      ExpandSkipsVisitedTarget(b, player, piece, pos, target, eaten, br, -1, -1);
    } else if br.found {
      o, dr, dc := tl, -1, 1;
      ExpandSkipsVisitedTarget(b, player, piece, pos, target, eaten, br, -1, -1);
    } else {
      o, dr, dc := br, -1, -1;
    }
  }

  lemma {:induction false} ExpandFindsChain(b: Grid, player: Player, piece: Cell, pos: Square,
                                             target: Square, eaten: seq<Square>,
                                             o: Outcome, dr: int, dc: int)
    requires IsGrid(b) && InBounds(pos) && IsDirection(dr, dc)
    requires AllOnBoard(eaten) && AllOnBoard(o.pending)
    ensures var r := Expand(b, player, piece, pos, target, eaten, o, dr, dc);
            r.found ==> |eaten| <= |r.pending| && r.pending[..|eaten|] == eaten
                        && JumpChain(b, player, piece, pos, target, r.pending[|eaten|..])
                        && Unvisited(Stops(pos, r.pending[|eaten|..])[1..], o.memo)
    decreases AllSquares() - o.memo, 1
  {
    if JumpOpen(b, player, piece, pos, dr, dc) {
      var eaten' := eaten + [Jumped(pos, dr, dc)];
      SearchFindsChain(b, player, piece, Landing(pos, dr, dc), target, eaten', o.memo, o.pending);
      var r := Search(b, player, piece, Landing(pos, dr, dc), target, eaten', o.memo, o.pending);
      if r.found {
        PrefixStep(r.pending, eaten, Jumped(pos, dr, dc));
        ChainCons(b, player, piece, pos, dr, dc, target, r.pending[|eaten'|..]);
        StopsCons(pos, dr, dc, r.pending[|eaten'|..]);
      }
    }
  }

  /** An open jump followed by a chain from its landing square is a chain. */
  lemma ChainCons(b: Grid, player: Player, piece: Cell, pos: Square, dr: int, dc: int, to: Square,
                  rest: seq<Square>)
    requires IsGrid(b) && InBounds(pos) && IsDirection(dr, dc) && JumpOpen(b, player, piece, pos, dr, dc)
    requires JumpChain(b, player, piece, Landing(pos, dr, dc), to, rest)
    ensures JumpChain(b, player, piece, pos, to, [Jumped(pos, dr, dc)] + rest)
  {
    assert ([Jumped(pos, dr, dc)] + rest)[1..] == rest;
  }

  /** A list that starts with `e + [j]` starts with `e`, and its part after `e`
      is `j` followed by its part after `e + [j]`. */
  lemma PrefixStep(p: seq<Square>, e: seq<Square>, j: Square)
    requires |e| + 1 <= |p| && p[..|e| + 1] == e + [j]
    ensures p[..|e|] == e
    ensures p[|e|..] == [j] + p[|e| + 1..]
  {
    assert p[..|e|] == p[..|e| + 1][..|e|];
    assert p[|e|..] == [p[|e|]] + p[|e| + 1..];
    assert p[|e|] == p[..|e| + 1][|e|];
  }

  /** The squares a list of jumps from `from` stands on: `from`, then each
      landing square in turn. */
  function Stops(from: Square, caps: seq<Square>): (s: seq<Square>)
    ensures |s| == |caps| + 1 && s[0] == from
    decreases |caps|
  {
    if caps == [] then [from]
    else
      var dr, dc := caps[0].0 - from.0, caps[0].1 - from.1;
      [from] + Stops(Landing(from, dr, dc), caps[1..])
  }

  /** No square of `s` is in `m`, and no square occurs in `s` twice. */
  predicate Unvisited(s: seq<Square>, m: set<Square>)
  {
    (forall i :: 0 <= i < |s| ==> s[i] !in m)
    && (forall i, j :: 0 <= i < j < |s| ==> s[i] != s[j])
  }

  lemma StopsCons(pos: Square, dr: int, dc: int, rest: seq<Square>)
    ensures Stops(pos, [Jumped(pos, dr, dc)] + rest) == [pos] + Stops(Landing(pos, dr, dc), rest)
  {
    assert ([Jumped(pos, dr, dc)] + rest)[1..] == rest;
  }

  /** A square outside `memo` in front of squares outside a larger set that
      holds it keeps the path unvisited. */
  lemma UnvisitedCons(pos: Square, s: seq<Square>, memo: set<Square>, m: set<Square>)
    requires pos !in memo && memo + {pos} <= m && Unvisited(s, m)
    ensures Unvisited([pos] + s, memo)
  {
    var t := [pos] + s;
    forall i, j | 0 <= i < j < |t|
      ensures t[i] != t[j]
    {
      if i == 0 {
        assert t[j] == s[j - 1];
      } else {
        assert t[i] == s[i - 1] && t[j] == s[j - 1];
      }
    }
  }

  /** Where a chain of jumps ends: on the board; a Green man climbs exactly two
      rows per jump and an Orange man descends exactly two rows per jump. */
  lemma {:induction false} ChainEnd(b: Grid, player: Player, piece: Cell, from: Square, to: Square,
                                     caps: seq<Square>)
    requires IsGrid(b) && InBounds(from) && JumpChain(b, player, piece, from, to, caps)
    ensures InBounds(to)
    ensures piece == GreenMan ==> to.0 == from.0 + 2 * |caps|
    ensures piece == OrangeMan ==> to.0 == from.0 - 2 * |caps|
    decreases |caps|
  {
    if caps != [] {
      var dr, dc := caps[0].0 - from.0, caps[0].1 - from.1;
      ChainEnd(b, player, piece, Landing(from, dr, dc), to, caps[1..]);
    }
  }

  /** Half the displacement a list of jumps from `from` makes: the sum of its
      row steps and the sum of its column steps. */
  function HalfShift(from: Square, caps: seq<Square>): Square
    decreases |caps|
  {
    if caps == [] then (0, 0)
    else
      var dr, dc := caps[0].0 - from.0, caps[0].1 - from.1;
      var rest := HalfShift(Landing(from, dr, dc), caps[1..]);
      (dr + rest.0, dc + rest.1)
  }

  lemma {:induction false} ChainShift(b: Grid, player: Player, piece: Cell, from: Square, to: Square,
                                       caps: seq<Square>)
    requires IsGrid(b) && InBounds(from) && JumpChain(b, player, piece, from, to, caps)
    ensures to.0 - from.0 == 2 * HalfShift(from, caps).0
    ensures to.1 - from.1 == 2 * HalfShift(from, caps).1
    decreases |caps|
  {
    if caps != [] {
      var dr, dc := caps[0].0 - from.0, caps[0].1 - from.1;
      ChainShift(b, player, piece, Landing(from, dr, dc), to, caps[1..]);
    }
  }

  /** A chain of jumps ends an even number of rows and of columns away from its start. */
  lemma ChainParity(b: Grid, player: Player, piece: Cell, from: Square, to: Square, caps: seq<Square>)
    requires IsGrid(b) && InBounds(from) && JumpChain(b, player, piece, from, to, caps)
    ensures (to.0 - from.0) % 2 == 0 && (to.1 - from.1) % 2 == 0
  {
    ChainShift(b, player, piece, from, to, caps);
    var half := HalfShift(from, caps);
    assert (2 * half.0) % 2 == 0 && (2 * half.1) % 2 == 0;
  }

  /** What a chain of jumps captures: its i-th captured square is on the board
      and held a piece of the opponent of `player`. */
  lemma {:induction false} ChainCaptureAt(b: Grid, player: Player, piece: Cell, from: Square, to: Square,
                                           caps: seq<Square>, i: int)
    requires IsGrid(b) && InBounds(from) && JumpChain(b, player, piece, from, to, caps)
    requires 0 <= i < |caps|
    ensures InBounds(caps[i]) && Owner(At(b, caps[i])) == Some(Other(player))
    decreases i
  {
    var dr, dc := caps[0].0 - from.0, caps[0].1 - from.1;
    if i == 0 {
      assert caps[0] == Jumped(from, dr, dc);
    } else {
      ChainCaptureAt(b, player, piece, Landing(from, dr, dc), to, caps[1..], i - 1);
    }
  }

  /** The k-th jump of a chain goes from its k-th stop, over its k-th capture,
      to its (k+1)-th stop. */
  lemma {:induction false} ChainStep(b: Grid, player: Player, piece: Cell, from: Square, to: Square,
                                      caps: seq<Square>, k: int)
    requires IsGrid(b) && InBounds(from) && JumpChain(b, player, piece, from, to, caps)
    requires 0 <= k < |caps|
    ensures var s := Stops(from, caps);
            IsDirection(caps[k].0 - s[k].0, caps[k].1 - s[k].1)
            && s[k + 1] == Landing(s[k], caps[k].0 - s[k].0, caps[k].1 - s[k].1)
    decreases k
  {
    var dr, dc := caps[0].0 - from.0, caps[0].1 - from.1;
    if k > 0 {
      var rest := Stops(Landing(from, dr, dc), caps[1..]);
      ChainStep(b, player, piece, Landing(from, dr, dc), to, caps[1..], k - 1);
      assert Stops(from, caps)[k] == rest[k - 1] && Stops(from, caps)[k + 1] == rest[k];
    }
  }

  /** Every stop of a chain has row + column equal to the start's up to a
      multiple of four, since each jump changes it by -4, 0 or 4. */
  lemma {:induction false} StopsSum(b: Grid, player: Player, piece: Cell, from: Square, to: Square,
                                     caps: seq<Square>, k: int) returns (q: int)
    requires IsGrid(b) && InBounds(from) && JumpChain(b, player, piece, from, to, caps)
    requires 0 <= k <= |caps|
    ensures Stops(from, caps)[k].0 + Stops(from, caps)[k].1 == from.0 + from.1 + 4 * q
    decreases k
  {
    if k == 0 {
      q := 0;
    } else {
      var dr, dc := caps[0].0 - from.0, caps[0].1 - from.1;
      var q' := StopsSum(b, player, piece, Landing(from, dr, dc), to, caps[1..], k - 1);
      q := q' + if dr == dc then dr else 0;
    }
  }

  /** A chain that never stands on a square twice never jumps a square twice:
      jumping the same square again would need both ends of one diagonal
      through it (a repeated stop) or stops on both of its diagonals, whose
      row + column sums differ by two. */
  lemma ChainCapturesDistinct(b: Grid, player: Player, piece: Cell, from: Square, to: Square,
                              caps: seq<Square>)
    requires IsGrid(b) && InBounds(from) && JumpChain(b, player, piece, from, to, caps)
    requires Unvisited(Stops(from, caps), {})
    ensures forall i, j :: 0 <= i < j < |caps| ==> caps[i] != caps[j]
  {
    var s := Stops(from, caps);
    forall i, j | 0 <= i < j < |caps|
      ensures caps[i] != caps[j]
    {
      ChainStep(b, player, piece, from, to, caps, i);
      ChainStep(b, player, piece, from, to, caps, j);
      var qi := StopsSum(b, player, piece, from, to, caps, i);
      var qj := StopsSum(b, player, piece, from, to, caps, j);
      assert s[i] != s[j] && s[i] != s[j + 1];
    }
  }

  // Completeness: the shared memo never hides a reachable target, because
  // whether a jump is open does not depend on the path that led to its square.

  /** Every square of `hi` outside `lo` is on the board and has all its jump
      successors in `hi`. */
  predicate ClosedBetween(b: Grid, player: Player, piece: Cell, lo: set<Square>, hi: set<Square>)
    requires IsGrid(b)
  {
    forall v :: v in hi && v !in lo ==> InBounds(v) && SuccessorsIn(b, player, piece, v, hi)
  }

  /** Every square a call newly visits has, when a search fails, all of its jump
      successors visited too. */
  lemma {:induction false} SearchFailureIsClosed(b: Grid, player: Player, piece: Cell, pos: Square,
                                                  target: Square, eaten: seq<Square>,
                                                  memo: set<Square>, pending: seq<Square>)
    requires IsGrid(b) && InBounds(pos) && AllOnBoard(eaten) && AllOnBoard(pending)
    ensures var r := Search(b, player, piece, pos, target, eaten, memo, pending);
            !r.found ==> ClosedBetween(b, player, piece, memo, r.memo)
    decreases AllSquares() - memo, 0
  {
    if pos !in memo {
      var start := Outcome(false, memo + {pos}, pending);
      var tr := Expand(b, player, piece, pos, target, eaten, start, 1, -1);
      var tl := Expand(b, player, piece, pos, target, eaten, tr, 1, 1);
      var br := Expand(b, player, piece, pos, target, eaten, tl, -1, 1);
      var bl := Expand(b, player, piece, pos, target, eaten, br, -1, -1);
      if pos != target && !(tr.found || tl.found || br.found || bl.found) {
        ExpandFailureIsClosed(b, player, piece, pos, target, eaten, start, 1, -1);
        ExpandFailureIsClosed(b, player, piece, pos, target, eaten, tr, 1, 1);
        ExpandFailureIsClosed(b, player, piece, pos, target, eaten, tl, -1, 1);
        ExpandFailureIsClosed(b, player, piece, pos, target, eaten, br, -1, -1);
        ClosedGrows(b, player, piece, start.memo, tr.memo, tl.memo);
        ClosedGrows(b, player, piece, start.memo, tl.memo, br.memo);
        ClosedGrows(b, player, piece, start.memo, br.memo, bl.memo);
        SearchClosesStart(b, player, piece, pos, target, eaten, memo, pending);
        ClosedAddsStart(b, player, piece, memo, pos, bl.memo);
      }
    }
  }

  lemma {:induction false} ExpandFailureIsClosed(b: Grid, player: Player, piece: Cell, pos: Square,
                                                  target: Square, eaten: seq<Square>,
                                                  o: Outcome, dr: int, dc: int)
    requires IsGrid(b) && InBounds(pos) && IsDirection(dr, dc)
    requires AllOnBoard(eaten) && AllOnBoard(o.pending)
    ensures var r := Expand(b, player, piece, pos, target, eaten, o, dr, dc);
            !r.found ==> ClosedBetween(b, player, piece, o.memo, r.memo)
    decreases AllSquares() - o.memo, 1
  {
    if JumpOpen(b, player, piece, pos, dr, dc) {
      SearchFailureIsClosed(b, player, piece, Landing(pos, dr, dc), target,
                            eaten + [Jumped(pos, dr, dc)], o.memo, o.pending);
    }
  }

  /** Two closed stretches of growing visited sets make one. */
  lemma ClosedGrows(b: Grid, player: Player, piece: Cell, lo: set<Square>, mid: set<Square>, hi: set<Square>)
    requires IsGrid(b) && lo <= mid <= hi
    requires ClosedBetween(b, player, piece, lo, mid) && ClosedBetween(b, player, piece, mid, hi)
    ensures ClosedBetween(b, player, piece, lo, hi)
  {
    forall v | v in hi && v !in lo
      ensures InBounds(v) && SuccessorsIn(b, player, piece, v, hi)
    {
      if v in mid {
        SuccessorsGrow(b, player, piece, v, mid, hi);
      }
    }
  }

  /** The expanded square itself joins the closed stretch once its successors are in. */
  lemma ClosedAddsStart(b: Grid, player: Player, piece: Cell, memo: set<Square>, pos: Square, hi: set<Square>)
    requires IsGrid(b) && InBounds(pos)
    requires ClosedBetween(b, player, piece, memo + {pos}, hi)
    requires SuccessorsIn(b, player, piece, pos, hi)
    ensures ClosedBetween(b, player, piece, memo, hi)
  {
  }

  /** An open branch always visits its landing square. */
  lemma ExpandVisitsLanding(b: Grid, player: Player, piece: Cell, pos: Square, target: Square,
                            eaten: seq<Square>, o: Outcome, dr: int, dc: int)
    requires IsGrid(b) && InBounds(pos) && IsDirection(dr, dc)
    requires AllOnBoard(eaten) && AllOnBoard(o.pending)
    requires JumpOpen(b, player, piece, pos, dr, dc)
    ensures Landing(pos, dr, dc) in Expand(b, player, piece, pos, target, eaten, o, dr, dc).memo
  {
    var r := Search(b, player, piece, Landing(pos, dr, dc), target,
                    eaten + [Jumped(pos, dr, dc)], o.memo, o.pending);
    assert o.memo + {Landing(pos, dr, dc)} <= r.memo;
  }

  /** A call that expands `pos` without reaching the target visits every
      landing square of an open jump from `pos`. */
  lemma SearchClosesStart(b: Grid, player: Player, piece: Cell, pos: Square, target: Square,
                          eaten: seq<Square>, memo: set<Square>, pending: seq<Square>)
    requires IsGrid(b) && InBounds(pos) && AllOnBoard(eaten) && AllOnBoard(pending)
    requires pos !in memo && pos != target
    ensures SuccessorsIn(b, player, piece, pos, Search(b, player, piece, pos, target, eaten, memo, pending).memo)
  {
    var start := Outcome(false, memo + {pos}, pending);
    var tr := Expand(b, player, piece, pos, target, eaten, start, 1, -1);
    var tl := Expand(b, player, piece, pos, target, eaten, tr, 1, 1);
    var br := Expand(b, player, piece, pos, target, eaten, tl, -1, 1);
    var bl := Expand(b, player, piece, pos, target, eaten, br, -1, -1);
    assert tr.memo <= tl.memo <= br.memo <= bl.memo;
    if JumpOpen(b, player, piece, pos, 1, -1) {
      ExpandVisitsLanding(b, player, piece, pos, target, eaten, start, 1, -1);
    }
    if JumpOpen(b, player, piece, pos, 1, 1) {
      ExpandVisitsLanding(b, player, piece, pos, target, eaten, tr, 1, 1);
    }
    if JumpOpen(b, player, piece, pos, -1, 1) {
      ExpandVisitsLanding(b, player, piece, pos, target, eaten, tl, -1, 1);
    }
    if JumpOpen(b, player, piece, pos, -1, -1) {
      ExpandVisitsLanding(b, player, piece, pos, target, eaten, br, -1, -1);
    }
  }

  lemma SuccessorsGrow(b: Grid, player: Player, piece: Cell, sq: Square, m: set<Square>, m': set<Square>)
    requires IsGrid(b) && InBounds(sq) && m <= m'
    requires SuccessorsIn(b, player, piece, sq, m)
    ensures SuccessorsIn(b, player, piece, sq, m')
  {
  }

  /** A set of squares closed under open jumps contains the end of every chain
      that starts inside it. */
  lemma {:induction false} ClosedSetHoldsChainEnd(b: Grid, player: Player, piece: Cell, from: Square,
                                                   to: Square, caps: seq<Square>, m: set<Square>)
    requires IsGrid(b) && InBounds(from) && JumpChain(b, player, piece, from, to, caps)
    requires from in m
    requires ClosedBetween(b, player, piece, {}, m)
    ensures to in m
    decreases |caps|
  {
    if caps != [] {
      var dr, dc := caps[0].0 - from.0, caps[0].1 - from.1;
      assert SuccessorsIn(b, player, piece, from, m);
      ClosedSetHoldsChainEnd(b, player, piece, Landing(from, dr, dc), to, caps[1..], m);
    }
  }

  // At most 64 calls of one search expand a square.

  /** The squares (r, 0) .. (r, n - 1). */
  function RowSquares(r: int, n: nat): (s: set<Square>)
    ensures |s| == n
    ensures forall sq :: sq in s <==> sq.0 == r && 0 <= sq.1 < n
  {
    if n == 0 then {}
    else
      var s := RowSquares(r, n - 1);
      assert (r, n - 1) !in s;
      s + {(r, n - 1)}
  }

  /** The squares of rows 0 .. n - 1. */
  function RowsSquares(n: nat): (s: set<Square>)
    ensures |s| == 8 * n
    ensures forall sq :: sq in s <==> 0 <= sq.0 < n && 0 <= sq.1 < Size
  {
    if n == 0 then {}
    else
      var s := RowsSquares(n - 1);
      var row := RowSquares(n - 1, Size);
      assert s * row == {};
      s + row
  }

  /** No set of board squares has more than 64 elements. */
  lemma BoardSquaresAtMost64(visited: set<Square>)
    requires visited <= AllSquares()
    ensures |visited| <= 64
  {
    SquaresInRows(visited, Size);
  }

  lemma SquaresInRows(visited: set<Square>, n: nat)
    requires forall sq :: sq in visited ==> 0 <= sq.0 < n && 0 <= sq.1 < Size
    ensures |visited| <= 8 * n
  {
    var rows := RowsSquares(n);
    assert visited <= rows;
    assert rows == visited + (rows - visited);
  }

  /** Every square a search call newly visits lies on the board. */
  lemma {:induction false} SearchStaysOnBoard(b: Grid, player: Player, piece: Cell, pos: Square,
                                               target: Square, eaten: seq<Square>,
                                               memo: set<Square>, pending: seq<Square>)
    requires IsGrid(b) && InBounds(pos) && AllOnBoard(eaten) && AllOnBoard(pending)
    ensures Search(b, player, piece, pos, target, eaten, memo, pending).memo - memo <= AllSquares()
    decreases AllSquares() - memo, 0
  {
    if pos !in memo && pos != target {
      var start := Outcome(false, memo + {pos}, pending);
      var tr := Expand(b, player, piece, pos, target, eaten, start, 1, -1);
      var tl := Expand(b, player, piece, pos, target, eaten, tr, 1, 1);
      var br := Expand(b, player, piece, pos, target, eaten, tl, -1, 1);
      ExpandStaysOnBoard(b, player, piece, pos, target, eaten, start, 1, -1);
      ExpandStaysOnBoard(b, player, piece, pos, target, eaten, tr, 1, 1);
      ExpandStaysOnBoard(b, player, piece, pos, target, eaten, tl, -1, 1);
      ExpandStaysOnBoard(b, player, piece, pos, target, eaten, br, -1, -1);
    }
  }

  lemma {:induction false} ExpandStaysOnBoard(b: Grid, player: Player, piece: Cell, pos: Square,
                                               target: Square, eaten: seq<Square>,
                                               o: Outcome, dr: int, dc: int)
    requires IsGrid(b) && InBounds(pos) && IsDirection(dr, dc)
    requires AllOnBoard(eaten) && AllOnBoard(o.pending)
    ensures Expand(b, player, piece, pos, target, eaten, o, dr, dc).memo - o.memo <= AllSquares()
    decreases AllSquares() - o.memo, 1
  {
    if JumpOpen(b, player, piece, pos, dr, dc) {
      SearchStaysOnBoard(b, player, piece, Landing(pos, dr, dc), target,
                         eaten + [Jumped(pos, dr, dc)], o.memo, o.pending);
    }
  }

  /** Every square one search visits lies on the board, so a search from an
      empty memo expands at most 64 squares, each at most once. */
  lemma SearchExpandsAtMost64(b: Grid, player: Player, piece: Cell, pos: Square,
                              target: Square, eaten: seq<Square>,
                              memo: set<Square>, pending: seq<Square>)
    requires IsGrid(b) && InBounds(pos) && AllOnBoard(eaten) && AllOnBoard(pending)
    ensures |Search(b, player, piece, pos, target, eaten, memo, pending).memo - memo| <= 64
  {
    SearchStaysOnBoard(b, player, piece, pos, target, eaten, memo, pending);
    BoardSquaresAtMost64(Search(b, player, piece, pos, target, eaten, memo, pending).memo - memo);
  }

  /** The search as validate_move starts it (empty memo, no captures yet, start
      different from target): it succeeds exactly when some chain of open jumps
      leads to the target; on success the pending list is the captures of such
      a chain, and on failure the pending list is untouched. */
  lemma FreshSearch(b: Grid, player: Player, piece: Cell, start: Square, target: Square,
                    pending: seq<Square>)
    requires IsGrid(b) && InBounds(start) && InBounds(target) && start != target
    requires AllOnBoard(pending)
    ensures var r := Search(b, player, piece, start, target, [], {}, pending);
            r.found ==> |r.pending| >= 1 && JumpChain(b, player, piece, start, target, r.pending)
    ensures var r := Search(b, player, piece, start, target, [], {}, pending);
            !r.found ==> r.pending == pending
    ensures var r := Search(b, player, piece, start, target, [], {}, pending);
            r.found <==> target in r.memo
    ensures Search(b, player, piece, start, target, [], {}, pending).found <==>
            exists caps :: JumpChain(b, player, piece, start, target, caps)
    ensures var r := Search(b, player, piece, start, target, [], {}, pending);
            r.found ==> forall i, j :: 0 <= i < j < |r.pending| ==> r.pending[i] != r.pending[j]
  {
    var r := Search(b, player, piece, start, target, [], {}, pending);
    SearchFindsChain(b, player, piece, start, target, [], {}, pending);
    SearchFailureKeepsPending(b, player, piece, start, target, [], {}, pending);
    SearchReachingTargetSucceeds(b, player, piece, start, target, [], {}, pending);
    if r.found {
      assert r.pending[0..] == r.pending;
      assert JumpChain(b, player, piece, start, target, r.pending);
      ChainCapturesDistinct(b, player, piece, start, target, r.pending);
      assert r.pending != [];
      assert exists caps :: JumpChain(b, player, piece, start, target, caps);
    } else {
      forall caps | JumpChain(b, player, piece, start, target, caps)
        ensures false
      {
        SearchFailureIsClosed(b, player, piece, start, target, [], {}, pending);
        ClosedSetHoldsChainEnd(b, player, piece, start, target, caps, r.memo);
      }
    }
  }

  /** A single open jump onto the target is always found, whatever the other
      branches did before it. */
  lemma OneJumpIsFound(b: Grid, player: Player, piece: Cell, start: Square, dr: int, dc: int,
                       pending: seq<Square>)
    requires IsGrid(b) && InBounds(start) && IsDirection(dr, dc) && AllOnBoard(pending)
    requires JumpOpen(b, player, piece, start, dr, dc)
    ensures Search(b, player, piece, start, Landing(start, dr, dc), [], {}, pending).found
  {
    var target := Landing(start, dr, dc);
    var chain := [Jumped(start, dr, dc)];
    assert JumpChain(b, player, piece, target, target, chain[1..]);
    assert JumpChain(b, player, piece, start, target, chain);
    FreshSearch(b, player, piece, start, target, pending);
  }
}
