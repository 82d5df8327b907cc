/** The game engine of GameViewModel.swift: its two pattern tables, its win
    check, the computer's move heuristic and the view model whose state the
    turn protocol updates. */
module ViewModel {
  import opened Board

  /** The eight lines of the view model's own win check. */
  const WinPatterns: set<set<int>> :=
    {{0, 1, 2}, {3, 4, 5}, {6, 7, 8}, {0, 3, 6}, {1, 4, 7}, {2, 5, 8}, {0, 4, 8}, {2, 4, 6}}

  /** The table the move heuristic uses: {3, 5, 8} stands where the third
      column {2, 5, 8} belongs. */
  const HeuristicPatterns: set<set<int>> :=
    {{0, 1, 2}, {3, 4, 5}, {6, 7, 8}, {0, 3, 6}, {1, 4, 7}, {3, 5, 8}, {0, 4, 8}, {2, 4, 6}}

  predicate CheckWinCondition(player: Player, moves: Moves) {
    WinsBy(WinPatterns, player, moves)
  }

  // What the heuristic looks for.

  /** Holding `held`, `pattern` lacks exactly the square `x`, and no move
      names `x`. */
  predicate Completes(pattern: set<int>, held: set<int>, moves: Moves, x: int) {
    pattern - held == {x} && !IsSquareOccupied(moves, x)
  }

  ghost predicate PatternOffers(pattern: set<int>, held: set<int>, moves: Moves) {
    exists x :: Completes(pattern, held, moves, x)
  }

  /** Playing `x` completes some pattern of `patterns` for whoever holds `held`. */
  ghost predicate OneAway(patterns: set<set<int>>, held: set<int>, moves: Moves, x: int) {
    exists pattern :: pattern in patterns && Completes(pattern, held, moves, x)
  }

  /** Some pattern of `patterns` can be completed by whoever holds `held`. */
  ghost predicate CanComplete(patterns: set<set<int>>, held: set<int>, moves: Moves) {
    exists pattern :: pattern in patterns && PatternOffers(pattern, held, moves)
  }

  /** The squares determineComputerMovePosition may return, rule by rule:
      a free square; one that completes a computer pattern if any does;
      otherwise the centre if it is free; otherwise one that blocks a human
      pattern if any does; otherwise any free square. Several patterns may
      qualify and the table is a set, so the rules say "some", not "first". */
  ghost predicate MoveAllowed(patterns: set<set<int>>, moves: Moves, r: int) {
    var mine, theirs := Positions(moves, Computer), Positions(moves, Human);
    0 <= r < 9 && !IsSquareOccupied(moves, r) &&
    (CanComplete(patterns, mine, moves) ==> OneAway(patterns, mine, moves, r)) &&
    (!CanComplete(patterns, mine, moves) && !IsSquareOccupied(moves, 4) ==> r == 4) &&
    ((!CanComplete(patterns, mine, moves) && IsSquareOccupied(moves, 4) &&
      CanComplete(patterns, theirs, moves)) ==> OneAway(patterns, theirs, moves, r))
  }

  lemma SingletonOf(s: set<int>) returns (w: int)
    requires |s| == 1
    ensures s == {w}
  {
    if forall v :: v !in s {
      assert false;
    }
    w :| w in s;
    assert |s - {w}| == 0;
  }

  /** One pass over the table in whatever order the set yields it: the square
      some pattern lacks when `held` has the rest of it and that square is free. */
  method FindCompletingSquare(patterns: set<set<int>>, held: set<int>, moves: Moves)
    returns (found: bool, x: int)
    requires OnBoard(patterns)
    ensures found ==> 0 <= x < 9 && OneAway(patterns, held, moves, x)
    ensures !found ==> !CanComplete(patterns, held, moves)
  {
    var remaining := patterns;
    while remaining != {}
      invariant remaining <= patterns
      invariant forall pattern :: pattern in patterns - remaining ==> !PatternOffers(pattern, held, moves)
      decreases remaining
    {
      var pattern :| pattern in remaining;
      var winPositions := pattern - held;
      if |winPositions| == 1 {
        ghost var only := SingletonOf(winPositions);
        var w :| w in winPositions;
        if !IsSquareOccupied(moves, w) {
          return true, w;
        }
      }
      remaining := remaining - {pattern};
    }
    return false, 0;
  }

  /** The computer's choice: complete its own pattern, else take the centre,
      else block a human pattern, else any free square. The source draws
      random squares until one is free; here that is a choice of any free
      square, which needs one to exist. */
  method DetermineComputerMovePosition(patterns: set<set<int>>, moves: Moves) returns (r: int)
    requires OnBoard(patterns)
    requires exists k :: 0 <= k < 9 && !IsSquareOccupied(moves, k)
    ensures MoveAllowed(patterns, moves, r)
  {
    var found, w := FindCompletingSquare(patterns, Positions(moves, Computer), moves);
    if found {
      return w;
    }
    if !IsSquareOccupied(moves, 4) {
      return 4;
    }
    found, w := FindCompletingSquare(patterns, Positions(moves, Human), moves);
    if found {
      return w;
    }
    r :| 0 <= r < 9 && !IsSquareOccupied(moves, r);
  }

  // Properties of the tables and the win check.

  lemma TablesOnBoard()
    ensures OnBoard(WinPatterns) && OnBoard(HeuristicPatterns)
  {
  }

  /** The win table lists exactly the rows, columns and diagonals. */
  lemma WinPatternsAreLines()
    ensures forall s :: s in WinPatterns <==> IsLine(s)
  {
    LinesAsSquares();
  }

  /** The win check holds iff the player holds all three squares of a line. */
  lemma CheckWinConditionIffLine(player: Player, moves: Moves)
    ensures CheckWinCondition(player, moves) <==>
      exists line :: IsLine(line) && line <= Positions(moves, player)
  {
    WinPatternsAreLines();
  }

  /** The heuristic's table drops the third column and adds {3, 5, 8}, which
      is not a line. */
  lemma HeuristicTableDiffers()
    ensures IsLine({2, 5, 8}) && {2, 5, 8} !in HeuristicPatterns
    ensures {3, 5, 8} in HeuristicPatterns && !IsLine({3, 5, 8})
    ensures HeuristicPatterns - {{3, 5, 8}} == WinPatterns - {{2, 5, 8}}
  {
    LinesAsSquares();
  }

  // The heuristic's rules, with the corrected table and with the table as written.

  /** With the correct table the win-now rule never misses a win: if some free
      square would give the computer three in a row, every square the
      heuristic may pick does. */
  lemma CorrectedHeuristicTakesWin(moves: Moves, s: int, r: int)
    requires WellIndexed(moves)
    requires 0 <= s < 9 && moves[s].None?
    requires CheckWinCondition(Computer, moves[s := Some(Move(Computer, s))])
    requires MoveAllowed(WinPatterns, moves, r)
    ensures 0 <= r < 9 && moves[r].None?
    ensures CheckWinCondition(Computer, moves[r := Some(Move(Computer, r))])
  {
    var mine := Positions(moves, Computer);
    OccupiedIffFilled(moves, r);
    OccupiedIffFilled(moves, s);
    if CheckWinCondition(Computer, moves) {
      WinIsStable(WinPatterns, Computer, moves, r, Move(Computer, r));
    } else {
      PlaceIntoEmpty(moves, s, Computer, Human);
      var pattern :| pattern in WinPatterns && pattern <= mine + {s};
      assert !(pattern <= mine);
      assert pattern - mine == {s};
      assert PatternOffers(pattern, mine, moves) by {
        assert Completes(pattern, mine, moves, s);
      }
      var other :| other in WinPatterns && Completes(other, mine, moves, r);
      PlaceIntoEmpty(moves, r, Computer, Human);
      assert other <= mine + {r};
    }
  }

  /** The board after human 4, computer 2 (a random pick), human 3, computer 5
      (the forced block) and human 6: the computer holds 2 and 5, and square 8
      would win. */
  function MissedWinBoard(): Moves {
    [None, None, Some(Move(Computer, 2)),
     Some(Move(Human, 3)), Some(Move(Human, 4)), Some(Move(Computer, 5)),
     Some(Move(Human, 6)), None, None]
  }

  lemma NoSingleton(s: set<int>, a: int, b: int)
    requires a in s && b in s && a != b
    ensures forall x :: !(s <= {x})
  {
  }

  /** On that board the only human pattern one free square short is {0, 3, 6}. */
  lemma OnlyBlockAtZero(pattern: set<int>, r: int)
    requires pattern in HeuristicPatterns
    requires Completes(pattern, {3, 4, 6}, MissedWinBoard(), r)
    ensures r == 0
  {
    var b := MissedWinBoard();
    assert WellIndexed(b);
    OccupiedIffFilled(b, r);
    if pattern != {0, 3, 6} && pattern != {3, 4, 5} && pattern != {2, 4, 6} {
      var rest := pattern - {3, 4, 6};
      if pattern == {0, 1, 2} {
        NoSingleton(rest, 0, 1);
      } else if pattern == {6, 7, 8} {
        NoSingleton(rest, 7, 8);
      } else if pattern == {1, 4, 7} {
        NoSingleton(rest, 1, 7);
      } else if pattern == {3, 5, 8} {
        NoSingleton(rest, 5, 8);
      } else {
        NoSingleton(rest, 0, 8);
      }
      assert false;
    }
  }

  /** With the table as written the computer does not see the win at 8 on a
      board the view model reaches: no pattern of its table is one square
      short, the centre is taken, and the only human pattern one free square
      short is the column {0, 3, 6}. So it must block at 0, which wins
      nothing, while taking 8 would have won. */
  lemma HeuristicMissesColumnWin(r: int)
    requires MoveAllowed(HeuristicPatterns, MissedWinBoard(), r)
    ensures TurnInvariant(MissedWinBoard(), true)
    ensures r == 0
    ensures !CheckWinCondition(Computer, MissedWinBoard()[0 := Some(Move(Computer, 0))])
    ensures CheckWinCondition(Computer, MissedWinBoard()[8 := Some(Move(Computer, 8))])
  {
    var b := MissedWinBoard();
    assert WellIndexed(b);
    var mine, theirs := Positions(b, Computer), Positions(b, Human);
    forall x ensures x in mine <==> x == 2 || x == 5 {
      PositionsOfWellIndexed(b, Computer, x);
    }
    forall x ensures x in theirs <==> x == 3 || x == 4 || x == 6 {
      PositionsOfWellIndexed(b, Human, x);
    }
    assert mine == {2, 5} && theirs == {3, 4, 6};
    assert b[0].None?;
    assert TurnInvariant(b, true);
    forall pattern | pattern in HeuristicPatterns ensures !PatternOffers(pattern, mine, b) {
      if pattern == {3, 5, 8} {
        NoSingleton(pattern - mine, 3, 8);
      } else if pattern == {2, 4, 6} {
        NoSingleton(pattern - mine, 4, 6);
      } else if pattern == {0, 1, 2} {
        NoSingleton(pattern - mine, 0, 1);
      } else if pattern == {3, 4, 5} {
        NoSingleton(pattern - mine, 3, 4);
      } else if pattern == {6, 7, 8} {
        NoSingleton(pattern - mine, 6, 7);
      } else if pattern == {0, 3, 6} {
        NoSingleton(pattern - mine, 0, 3);
      } else if pattern == {1, 4, 7} {
        NoSingleton(pattern - mine, 1, 4);
      } else {
        NoSingleton(pattern - mine, 0, 4);
      }
    }
    OccupiedIffFilled(b, 0);
    OccupiedIffFilled(b, 2);
    OccupiedIffFilled(b, 4);
    OccupiedIffFilled(b, 5);
    assert PatternOffers({0, 3, 6}, theirs, b) by {
      assert {0, 3, 6} - theirs == {0};
      assert Completes({0, 3, 6}, theirs, b, 0);
    }
    var pattern :| pattern in HeuristicPatterns && Completes(pattern, theirs, b, r);
    OnlyBlockAtZero(pattern, r);
    var at0 := b[0 := Some(Move(Computer, 0))];
    var at8 := b[8 := Some(Move(Computer, 8))];
    PlaceIntoEmpty(b, 0, Computer, Human);
    PlaceIntoEmpty(b, 8, Computer, Human);
    assert Positions(at0, Computer) == {0, 2, 5};
    assert {2, 5, 8} <= Positions(at8, Computer);
    CheckWinConditionIffLine(Computer, at0);
    LinesAsSquares();
  }

  /** No pattern of either table fits in a single square. */
  lemma PatternHasTwoSquares(pattern: set<int>)
    requires pattern in WinPatterns || pattern in HeuristicPatterns
    ensures forall x :: !(pattern <= {x})
  {
    if pattern == {0, 1, 2} {
      NoSingleton(pattern, 0, 1);
    } else if pattern == {3, 4, 5} {
      NoSingleton(pattern, 3, 4);
    } else if pattern == {6, 7, 8} {
      NoSingleton(pattern, 6, 7);
    } else if pattern == {0, 3, 6} {
      NoSingleton(pattern, 0, 3);
    } else if pattern == {1, 4, 7} {
      NoSingleton(pattern, 1, 4);
    } else if pattern == {2, 5, 8} {
      NoSingleton(pattern, 2, 5);
    } else if pattern == {3, 5, 8} {
      NoSingleton(pattern, 3, 5);
    } else if pattern == {0, 4, 8} {
      NoSingleton(pattern, 0, 4);
    } else {
      NoSingleton(pattern, 2, 4);
    }
  }

  /** While the computer holds nothing its table offers it nothing, so its
      first reply is the centre whenever the centre is free. */
  lemma FirstReplyIsCentre(moves: Moves, r: int)
    requires WellIndexed(moves) && moves[4].None?
    requires Positions(moves, Computer) == {}
    requires MoveAllowed(HeuristicPatterns, moves, r)
    ensures r == 4
  {
    OccupiedIffFilled(moves, 4);
    forall pattern | pattern in HeuristicPatterns
      ensures !PatternOffers(pattern, {}, moves)
    {
      assert pattern - {} == pattern;
      PatternHasTwoSquares(pattern);
    }
  }

  /** Removing at most one square from {a, b, c} leaves at least two. */
  lemma TwoLeft(a: int, b: int, c: int, held: set<int>)
    requires a != b && b != c && a != c
    requires AtMostOne(held)
    ensures forall x :: !({a, b, c} - held <= {x})
  {
    if a in held {
      NoSingleton({a, b, c} - held, b, c);
    } else if b in held {
      NoSingleton({a, b, c} - held, a, c);
    } else {
      NoSingleton({a, b, c} - held, a, b);
    }
  }

  /** A human with at most one square has no pattern to block. */
  lemma NothingToBlock(held: set<int>, moves: Moves)
    requires AtMostOne(held)
    ensures !CanComplete(HeuristicPatterns, held, moves)
  {
    TwoLeft(0, 1, 2, held);
    TwoLeft(3, 4, 5, held);
    TwoLeft(6, 7, 8, held);
    TwoLeft(0, 3, 6, held);
    TwoLeft(1, 4, 7, held);
    TwoLeft(3, 5, 8, held);
    TwoLeft(0, 4, 8, held);
    TwoLeft(2, 4, 6, held);
  }

  /** A board where the human holds 0 and 1 and the computer holds the centre. */
  function BlockBoard(): Moves {
    [Some(Move(Human, 0)), Some(Move(Human, 1)), None,
     None, Some(Move(Computer, 4)), None,
     None, None, None]
  }

  /** With the centre taken and nothing to win, the computer blocks the
      human's row at 2, the only square that completes a human pattern. */
  lemma BlocksOnlyThreat(r: int)
    requires MoveAllowed(HeuristicPatterns, BlockBoard(), r)
    ensures r == 2
  {
    var b := BlockBoard();
    assert WellIndexed(b);
    var mine, theirs := Positions(b, Computer), Positions(b, Human);
    forall x ensures x in mine <==> x == 4 {
      PositionsOfWellIndexed(b, Computer, x);
    }
    forall x ensures x in theirs <==> x == 0 || x == 1 {
      PositionsOfWellIndexed(b, Human, x);
    }
    assert mine == {4} && theirs == {0, 1};
    NothingToBlock(mine, b);
    OccupiedIffFilled(b, 4);
    OccupiedIffFilled(b, 2);
    assert PatternOffers({0, 1, 2}, theirs, b) by {
      assert {0, 1, 2} - theirs == {2};
      assert Completes({0, 1, 2}, theirs, b, 2);
    }
    var pattern :| pattern in HeuristicPatterns && Completes(pattern, theirs, b, r);
    if pattern != {0, 1, 2} {
      if pattern == {3, 4, 5} || pattern == {6, 7, 8} || pattern == {3, 5, 8} || pattern == {2, 4, 6} {
        assert pattern - theirs == pattern;
        PatternHasTwoSquares(pattern);
      } else if pattern == {0, 3, 6} {
        NoSingleton(pattern - theirs, 3, 6);
      } else if pattern == {1, 4, 7} {
        NoSingleton(pattern - theirs, 4, 7);
      } else {
        NoSingleton(pattern - theirs, 4, 8);
      }
      assert false;
    }
  }

  // The turn protocol.

  /** What holds in every state the view model reaches: the slot invariant;
      a locked board has room for the pending computer move; the centre is
      free only while the computer has not moved; and before the computer's
      first move the human holds at most one square, none when the board is
      unlocked. */
  ghost predicate TurnInvariant(moves: Moves, locked: bool) {
    WellIndexed(moves) &&
    (locked ==> !IsFull(moves)) &&
    (moves[4].None? ==> Positions(moves, Computer) == {}) &&
    (Positions(moves, Computer) == {} ==>
       AtMostOne(Positions(moves, Human)) && (!locked ==> Positions(moves, Human) == {}))
  }

  /** The order the comment above determineComputerMovePosition states: win,
      then block, then centre, then any free square. */
  ghost predicate CommentOrderAllowed(patterns: set<set<int>>, moves: Moves, r: int) {
    var mine, theirs := Positions(moves, Computer), Positions(moves, Human);
    0 <= r < 9 && !IsSquareOccupied(moves, r) &&
    (CanComplete(patterns, mine, moves) ==> OneAway(patterns, mine, moves, r)) &&
    ((!CanComplete(patterns, mine, moves) && CanComplete(patterns, theirs, moves)) ==>
      OneAway(patterns, theirs, moves, r)) &&
    ((!CanComplete(patterns, mine, moves) && !CanComplete(patterns, theirs, moves) &&
      !IsSquareOccupied(moves, 4)) ==> r == 4)
  }

  /** The code takes the centre before blocking, the comment blocks first; in
      every state the view model reaches the two orders pick the same squares,
      because the centre is free only before the computer's first move, when
      the human holds a single square and has nothing to block. */
  lemma CommentOrderAgrees(moves: Moves, locked: bool, r: int)
    requires TurnInvariant(moves, locked)
    ensures MoveAllowed(HeuristicPatterns, moves, r) <==> CommentOrderAllowed(HeuristicPatterns, moves, r)
  {
    OccupiedIffFilled(moves, 4);
    if moves[4].None? {
      forall pattern | pattern in HeuristicPatterns
        ensures !PatternOffers(pattern, Positions(moves, Computer), moves)
      {
        assert pattern - {} == pattern;
        PatternHasTwoSquares(pattern);
      }
      NothingToBlock(Positions(moves, Human), moves);
    }
  }

  /** The human's first move neither wins nor fills the board. */
  lemma FirstHumanMoveContinues(moves: Moves, position: int)
    requires WellIndexed(moves) && 0 <= position < 9
    requires Positions(moves, Computer) == {}
    requires Positions(moves, Human) <= {position}
    ensures !CheckWinCondition(Human, moves) && !IsFull(moves)
  {
    if CheckWinCondition(Human, moves) {
      var pattern :| pattern in WinPatterns && pattern <= Positions(moves, Human);
      PatternHasTwoSquares(pattern);
      assert false;
    }
    var k := if position == 0 then 1 else 0;
    PositionsOfWellIndexed(moves, Human, k);
    PositionsOfWellIndexed(moves, Computer, k);
    assert moves[k].None?;
  }

  /** The view model's published state. `moves` is a Swift array, a value that
      the methods replace slot by slot. */
  class GameViewModel {
    var moves: Moves
    var isGameboardDisabled: bool
    var alertItem: Option<AlertItem>

    ghost predicate Valid()
      reads this
    {
      TurnInvariant(moves, isGameboardDisabled)
    }

    constructor ()
      ensures Valid()
      ensures moves == EmptyBoard() && !isGameboardDisabled && alertItem == None
    {
      moves := EmptyBoard();
      isGameboardDisabled := false;
      alertItem := None;
      EmptyBoardIsFresh(WinPatterns, Computer);
      EmptyBoardIsFresh(WinPatterns, Human);
    }

    /** The human's tap, up to the point where the computer's move is
        scheduled. The view disables the board while it is locked, so a tap
        never arrives then. An occupied square places nothing, and the win
        and draw checks and the lock still follow. */
    method ProcessPlayerMove(position: int)
      requires Valid() && !isGameboardDisabled
      requires 0 <= position < 9
      modifies this
      ensures Valid()
      ensures old(moves)[position].None? ==>
        moves == old(moves)[position := Some(Move(Human, position))]
      ensures old(moves)[position].Some? ==> moves == old(moves)
      ensures CheckWinCondition(Human, moves) ==>
        alertItem == Some(HumanWin) && !isGameboardDisabled
      ensures !CheckWinCondition(Human, moves) && IsFull(moves) ==>
        alertItem == Some(Draw) && !isGameboardDisabled
      ensures !CheckWinCondition(Human, moves) && !IsFull(moves) ==>
        alertItem == old(alertItem) && isGameboardDisabled
    {
      OccupiedIffFilled(moves, position);
      if !IsSquareOccupied(moves, position) {
        PlaceIntoEmpty(moves, position, Human, Computer);
        moves := moves[position := Some(Move(Human, position))];
      }
      if Positions(moves, Computer) == {} {
        FirstHumanMoveContinues(moves, position);
      }
      if CheckWinCondition(Human, moves) {
        alertItem := Some(HumanWin);
        return;
      }
      DrawIffFull(moves);
      if CheckForDrawCondition(moves) {
        alertItem := Some(Draw);
        return;
      }
      isGameboardDisabled := true;
    }

    /** The delayed step the human's move schedules: the computer moves into
        a free square the heuristic allows, the board unlocks, and the
        computer-win check runs before the draw check. */
    method ComputerStep()
      requires Valid() && isGameboardDisabled
      modifies this
      ensures Valid() && !isGameboardDisabled
      ensures exists p ::
                0 <= p < 9 && old(moves)[p].None? &&
                MoveAllowed(HeuristicPatterns, old(moves), p) &&
                moves == old(moves)[p := Some(Move(Computer, p))]
      ensures CheckWinCondition(Computer, moves) ==> alertItem == Some(ComputerWin)
      ensures !CheckWinCondition(Computer, moves) && IsFull(moves) ==> alertItem == Some(Draw)
      ensures !CheckWinCondition(Computer, moves) && !IsFull(moves) ==> alertItem == old(alertItem)
    {
      ghost var k :| 0 <= k < 9 && moves[k].None?;
      OccupiedIffFilled(moves, k);
      TablesOnBoard();
      var computerPosition := DetermineComputerMovePosition(HeuristicPatterns, moves);
      OccupiedIffFilled(moves, computerPosition);
      if moves[4].None? {
        FirstReplyIsCentre(moves, computerPosition);
      }
      PlaceIntoEmpty(moves, computerPosition, Computer, Human);
      moves := moves[computerPosition := Some(Move(Computer, computerPosition))];
      isGameboardDisabled := false;
      if CheckWinCondition(Computer, moves) {
        alertItem := Some(ComputerWin);
        return;
      }
      DrawIffFull(moves);
      if CheckForDrawCondition(moves) {
        alertItem := Some(Draw);
        return;
      }
    }

    /** A new game: nine empty slots. The lock and the alert are left as they
        are (the view clears the alert when it is dismissed). */
    method ResetGame()
      modifies this`moves
      ensures Valid() && moves == EmptyBoard()
    {
      moves := EmptyBoard();
      EmptyBoardIsFresh(WinPatterns, Computer);
      EmptyBoardIsFresh(WinPatterns, Human);
    }
  }
}
