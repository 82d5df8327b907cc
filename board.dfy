/** The board both engines share: players, moves, the nine slots, and the
    occupancy, position and draw queries that GameViewModel.swift and
    ContentView.swift define with the same expressions. */
module Board {

  datatype Option<+T> = None | Some(value: T)

  datatype Player = Human | Computer

  /** A move remembers the square it was made on. */
  datatype Move = Move(player: Player, boardIndex: int)

  /** The end-of-game alert; its title and message text are not modelled. */
  datatype AlertItem = HumanWin | ComputerWin | Draw

  /** The board: nine slots, numbered row-major, each empty or holding a move. */
  type Moves = seq<Option<Move>>

  /** A fresh board: nine empty slots. */
  function EmptyBoard(): (b: Moves)
    ensures |b| == 9
    ensures forall k :: 0 <= k < 9 ==> b[k] == None
  {
    seq(9, _ => None)
  }

  /** The slot invariant the engines keep: nine slots, and every move sits in
      the slot its boardIndex names. */
  predicate WellIndexed(moves: Moves) {
    |moves| == 9 &&
    forall k :: 0 <= k < 9 ==> moves[k].None? || moves[k].value.boardIndex == k
  }

  /** Every slot holds a move. */
  predicate IsFull(moves: Moves) {
    forall k :: 0 <= k < |moves| ==> moves[k].Some?
  }

  /** The source's occupancy test: some slot holds a move whose boardIndex is
      `index`. It never looks at slot `index` itself. */
  predicate IsSquareOccupied(moves: Moves, index: int) {
    exists k :: 0 <= k < |moves| && moves[k].Some? && moves[k].value.boardIndex == index
  }

  /** The squares `player` holds: the boardIndex of each of their moves. */
  function Positions(moves: Moves, player: Player): set<int> {
    set k | 0 <= k < |moves| && moves[k].Some? && moves[k].value.player == player
      :: moves[k].value.boardIndex
  }

  /** The number of non-empty slots. */
  function FilledCount(moves: Moves): (n: nat)
    ensures n <= |moves|
  {
    if moves == [] then 0
    else (if moves[0].Some? then 1 else 0) + FilledCount(moves[1..])
  }

  /** The draw test: nine moves are on the board. It does not look at wins;
      callers test for a win first. */
  predicate CheckForDrawCondition(moves: Moves) {
    FilledCount(moves) == 9
  }

  /** `player` holds every square of some pattern of `patterns`. */
  predicate WinsBy(patterns: set<set<int>>, player: Player, moves: Moves) {
    exists pattern :: pattern in patterns && pattern <= Positions(moves, player)
  }

  /** `s` has at most one element. */
  predicate AtMostOne(s: set<int>) {
    forall a, b :: a in s && b in s ==> a == b
  }

  /** Every square a pattern names is on the board. */
  predicate OnBoard(patterns: set<set<int>>) {
    forall pattern, x :: pattern in patterns && x in pattern ==> 0 <= x < 9
  }

  // Three in a row, defined on the grid's geometry rather than by listing.

  function Row(r: int): set<int> {
    set x | 0 <= x < 9 && x / 3 == r
  }

  function Column(c: int): set<int> {
    set x | 0 <= x < 9 && x % 3 == c
  }

  function MainDiagonal(): set<int> {
    set x | 0 <= x < 9 && x / 3 == x % 3
  }

  function AntiDiagonal(): set<int> {
    set x | 0 <= x < 9 && x / 3 + x % 3 == 2
  }

  predicate IsLine(squares: set<int>) {
    (exists r :: 0 <= r < 3 && squares == Row(r)) ||
    (exists c :: 0 <= c < 3 && squares == Column(c)) ||
    squares == MainDiagonal() || squares == AntiDiagonal()
  }

  /** The lines, as the sets of squares they cover. */
  lemma LinesAsSquares()
    ensures Row(0) == {0, 1, 2} && Row(1) == {3, 4, 5} && Row(2) == {6, 7, 8}
    ensures Column(0) == {0, 3, 6} && Column(1) == {1, 4, 7} && Column(2) == {2, 5, 8}
    ensures MainDiagonal() == {0, 4, 8} && AntiDiagonal() == {2, 4, 6}
    ensures forall s :: IsLine(s) <==>
      s in {{0, 1, 2}, {3, 4, 5}, {6, 7, 8}, {0, 3, 6}, {1, 4, 7}, {2, 5, 8}, {0, 4, 8}, {2, 4, 6}}
  {
    assert Row(0) == {0, 1, 2};
    assert Row(1) == {3, 4, 5};
    assert Row(2) == {6, 7, 8};
    assert Column(0) == {0, 3, 6};
    assert Column(1) == {1, 4, 7};
    assert Column(2) == {2, 5, 8};
    assert MainDiagonal() == {0, 4, 8};
    assert AntiDiagonal() == {2, 4, 6};
  }

  // Lemmas about the queries.

  /** Under the slot invariant the source's occupancy test, which looks for a
      matching boardIndex, is the same as asking whether the slot is filled. */
  lemma OccupiedIffFilled(moves: Moves, index: int)
    requires WellIndexed(moves)
    ensures IsSquareOccupied(moves, index) <==> 0 <= index < 9 && moves[index].Some?
  {
    if 0 <= index < 9 && moves[index].Some? {
      assert moves[index].value.boardIndex == index;
    }
  }

  /** Under the slot invariant, `player` holds `x` iff slot `x` holds their move. */
  lemma PositionsOfWellIndexed(moves: Moves, player: Player, x: int)
    requires WellIndexed(moves)
    ensures x in Positions(moves, player) <==> 0 <= x < 9 && moves[x] == Some(Move(player, x))
  {
    if 0 <= x < 9 && moves[x] == Some(Move(player, x)) {
      assert moves[x].value.boardIndex == x;
    }
  }

  lemma {:induction false} FilledCountIsLength(moves: Moves)
    ensures FilledCount(moves) == |moves| <==> IsFull(moves)
  {
    if moves != [] {
      FilledCountIsLength(moves[1..]);
      if IsFull(moves) {
        assert IsFull(moves[1..]) by {
          forall k | 0 <= k < |moves[1..]| ensures moves[1..][k].Some? {
            assert moves[1..][k] == moves[k + 1];
          }
        }
      } else if moves[0].Some? {
        var k :| 0 <= k < |moves| && moves[k].None?;
        assert moves[1..][k - 1] == moves[k];
      }
    }
  }

  /** The draw test holds exactly when all nine slots are filled. */
  lemma DrawIffFull(moves: Moves)
    requires |moves| == 9
    ensures CheckForDrawCondition(moves) <==> IsFull(moves)
  {
    FilledCountIsLength(moves);
  }

  /** A fresh board has no moves, no winner under any table, and is not a draw. */
  lemma EmptyBoardIsFresh(patterns: set<set<int>>, player: Player)
    requires forall pattern :: pattern in patterns ==> pattern != {}
    ensures WellIndexed(EmptyBoard()) && !IsFull(EmptyBoard())
    ensures !CheckForDrawCondition(EmptyBoard())
    ensures Positions(EmptyBoard(), player) == {}
    ensures !WinsBy(patterns, player, EmptyBoard())
  {
    var b := EmptyBoard();
    assert b[0] == None;
    DrawIffFull(b);
  }

  /** Placing `player`'s move into an empty slot keeps the slot invariant, adds
      that square to `player`'s positions and leaves the other player's alone. */
  lemma PlaceIntoEmpty(moves: Moves, k: int, player: Player, other: Player)
    requires WellIndexed(moves) && 0 <= k < 9 && moves[k].None?
    requires other != player
    ensures WellIndexed(moves[k := Some(Move(player, k))])
    ensures Positions(moves[k := Some(Move(player, k))], player) == Positions(moves, player) + {k}
    ensures Positions(moves[k := Some(Move(player, k))], other) == Positions(moves, other)
  {
    var after := moves[k := Some(Move(player, k))];
    assert WellIndexed(after);
    forall x ensures x in Positions(after, player) <==> x in Positions(moves, player) + {k} {
      PositionsOfWellIndexed(moves, player, x);
      PositionsOfWellIndexed(after, player, x);
    }
    forall x ensures x in Positions(after, other) <==> x in Positions(moves, other) {
      PositionsOfWellIndexed(moves, other, x);
      PositionsOfWellIndexed(after, other, x);
    }
  }

  /** A win under any table survives every further move. */
  lemma WinIsStable(patterns: set<set<int>>, player: Player, moves: Moves, k: int, m: Move)
    requires WellIndexed(moves) && 0 <= k < 9 && moves[k].None?
    requires WinsBy(patterns, player, moves)
    ensures WinsBy(patterns, player, moves[k := Some(m)])
  {
    var pattern :| pattern in patterns && pattern <= Positions(moves, player);
    var after := moves[k := Some(m)];
    forall x | x in pattern ensures x in Positions(after, player) {
      var j :| 0 <= j < |moves| && moves[j].Some? && moves[j].value.player == player
            && moves[j].value.boardIndex == x;
      assert after[j] == moves[j];
    }
  }
}
