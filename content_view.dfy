/** The earlier engine that ContentView.swift keeps in the view itself: a win
    table with {3, 5, 8} in place of the third column, a computer that picks
    any free square, and the view's state that the tap handler updates. */
module ContentViewEngine {
  import opened Board

  /** The view's win table: {3, 5, 8} stands where {2, 5, 8} belongs. */
  const WinPatterns: set<set<int>> :=
    {{0, 1, 2}, {3, 4, 5}, {6, 7, 8}, {0, 3, 6}, {1, 4, 7}, {3, 5, 8}, {0, 4, 8}, {2, 4, 6}}

  predicate CheckWinCondition(player: Player, moves: Moves) {
    WinsBy(WinPatterns, player, moves)
  }

  /** The computer's choice: the source draws random squares until one is
      free; here that is a choice of any free square, which needs one to exist.
      There is no win, centre or block preference. */
  method DetermineComputerMovePosition(moves: Moves) returns (r: int)
    requires exists k :: 0 <= k < 9 && !IsSquareOccupied(moves, k)
    ensures 0 <= r < 9 && !IsSquareOccupied(moves, r)
  {
    r :| 0 <= r < 9 && !IsSquareOccupied(moves, r);
  }

  /** The table's win test is the line test with the third column replaced by
      {3, 5, 8}. */
  lemma CheckWinConditionMeaning(player: Player, moves: Moves)
    ensures CheckWinCondition(player, moves) <==>
      (exists line :: IsLine(line) && line != Column(2) && line <= Positions(moves, player)) ||
      {3, 5, 8} <= Positions(moves, player)
  {
    LinesAsSquares();
    var held := Positions(moves, player);
    if CheckWinCondition(player, moves) {
      var pattern :| pattern in WinPatterns && pattern <= held;
      if pattern != {3, 5, 8} {
        assert IsLine(pattern) && pattern != Column(2);
      }
    }
    if exists line :: IsLine(line) && line != Column(2) && line <= held {
      var line :| IsLine(line) && line != Column(2) && line <= held;
      assert line in WinPatterns;
    }
    if {3, 5, 8} <= held {
      assert {3, 5, 8} in WinPatterns;
    }
  }

  /** Holding exactly the third column is no win for the view, though it is
      a line. */
  lemma ThirdColumnIsNoWin(player: Player, moves: Moves)
    requires Positions(moves, player) == {2, 5, 8}
    ensures IsLine(Positions(moves, player))
    ensures !CheckWinCondition(player, moves)
  {
    LinesAsSquares();
  }

  /** Holding {3, 5, 8}, which is no line, is a win for the view. */
  lemma PhantomPatternWins(player: Player, moves: Moves)
    requires {3, 5, 8} <= Positions(moves, player)
    ensures !IsLine({3, 5, 8})
    ensures CheckWinCondition(player, moves)
  {
    LinesAsSquares();
    assert {3, 5, 8} in WinPatterns;
  }

  /** A game the view can reach: the human taps 2, 5 and 8 while the random
      computer takes 0 and 1. The human holds the third column and the view
      plays on. */
  function ThirdColumnBoard(): Moves {
    [Some(Move(Computer, 0)), Some(Move(Computer, 1)), Some(Move(Human, 2)),
     None, None, Some(Move(Human, 5)),
     None, None, Some(Move(Human, 8))]
  }

  lemma ThirdColumnGameGoesOn()
    ensures WellIndexed(ThirdColumnBoard())
    ensures Positions(ThirdColumnBoard(), Human) == Column(2)
    ensures !CheckWinCondition(Human, ThirdColumnBoard())
    ensures !CheckForDrawCondition(ThirdColumnBoard())
  {
    var b := ThirdColumnBoard();
    assert WellIndexed(b);
    forall x ensures x in Positions(b, Human) <==> x in {2, 5, 8} {
      PositionsOfWellIndexed(b, Human, x);
    }
    LinesAsSquares();
    ThirdColumnIsNoWin(Human, b);
    DrawIffFull(b);
    assert b[3].None?;
  }

  /** The view's state. */
  class ContentView {
    var moves: Moves
    var isGameboardDisabled: bool
    var alertItem: Option<AlertItem>

    /** The slot invariant, and a locked board has room for the pending
        computer move. */
    ghost predicate Valid()
      reads this
    {
      WellIndexed(moves) && (isGameboardDisabled ==> !IsFull(moves))
    }

    constructor ()
      ensures Valid()
      ensures moves == EmptyBoard() && !isGameboardDisabled && alertItem == None
    {
      moves := EmptyBoard();
      isGameboardDisabled := false;
      alertItem := None;
      EmptyBoardIsFresh(WinPatterns, Human);
    }

    /** The tap on square `i`, up to the point where the computer's move is
        scheduled. The view is disabled while it is locked, so a tap never
        arrives then. An occupied square places nothing, and the checks and
        the lock still follow. */
    method TapSquare(i: int)
      requires Valid() && !isGameboardDisabled
      requires 0 <= i < 9
      modifies this
      ensures Valid()
      ensures old(moves)[i].None? ==> moves == old(moves)[i := Some(Move(Human, i))]
      ensures old(moves)[i].Some? ==> moves == old(moves)
      ensures CheckWinCondition(Human, moves) ==>
        alertItem == Some(HumanWin) && !isGameboardDisabled
      ensures !CheckWinCondition(Human, moves) && IsFull(moves) ==>
        alertItem == Some(Draw) && !isGameboardDisabled
      ensures !CheckWinCondition(Human, moves) && !IsFull(moves) ==>
        alertItem == old(alertItem) && isGameboardDisabled
    {
      OccupiedIffFilled(moves, i);
      if !IsSquareOccupied(moves, i) {
        PlaceIntoEmpty(moves, i, Human, Computer);
        moves := moves[i := Some(Move(Human, i))];
      }
      if CheckWinCondition(Human, moves) {
        alertItem := Some(HumanWin);
        return;
      }
      DrawIffFull(moves);
      if CheckForDrawCondition(moves) {
        alertItem := Some(Draw);
        return;
      }
      isGameboardDisabled := true;
    }

    /** The delayed step the tap schedules: the computer moves into some free
        square, the board unlocks, and the computer-win check runs before the
        draw check. */
    method ComputerStep()
      requires Valid() && isGameboardDisabled
      modifies this
      ensures Valid() && !isGameboardDisabled
      ensures exists p ::
                0 <= p < 9 && old(moves)[p].None? &&
                moves == old(moves)[p := Some(Move(Computer, p))]
      ensures CheckWinCondition(Computer, moves) ==> alertItem == Some(ComputerWin)
      ensures !CheckWinCondition(Computer, moves) && IsFull(moves) ==> alertItem == Some(Draw)
      ensures !CheckWinCondition(Computer, moves) && !IsFull(moves) ==> alertItem == old(alertItem)
    {
      ghost var k :| 0 <= k < 9 && moves[k].None?;
      OccupiedIffFilled(moves, k);
      var computerPosition := DetermineComputerMovePosition(moves);
      OccupiedIffFilled(moves, computerPosition);
      PlaceIntoEmpty(moves, computerPosition, Computer, Human);
      moves := moves[computerPosition := Some(Move(Computer, computerPosition))];
      isGameboardDisabled := false;
      if CheckWinCondition(Computer, moves) {
        alertItem := Some(ComputerWin);
        return;
      }
      DrawIffFull(moves);
      if CheckForDrawCondition(moves) {
        alertItem := Some(Draw);
        return;
      }
    }

    /** A new game: nine empty slots; the lock and the alert are left as they
        are. */
    method ResetGame()
      modifies this`moves
      ensures Valid() && moves == EmptyBoard()
    {
      moves := EmptyBoard();
      EmptyBoardIsFresh(WinPatterns, Human);
    }
  }
}
