/** Concrete boards and games that the contracts of the engine decide on their own. */
module Scenarios {
  import opened Wrappers
  import opened Board
  import opened Heuristic
  import opened TicTacToe

  /** Two O's at the start of the top row: the heuristic for O offers cell 2. */
  lemma TieBreakExample()
    ensures FindBestMove([Some(O), Some(O), None, None, None, None, None, None, None], O) == 2
  {
    var b: Board := [Some(O), Some(O), None, None, None, None, None, None, None];
    assert Threat(b, O, Lines[0]);
    BestMoveIsFirstGap(b, O, 0, 2);
  }

  /** X,O,X / X,O,O / O,X,X: every cell taken, no triple complete, so a draw. */
  lemma DrawExample()
    ensures var b: Board := [Some(X), Some(O), Some(X), Some(X), Some(O), Some(O), Some(O), Some(X), Some(X)];
      !CheckWinner(b) && IsFull(b)
  {
  }

  /** The boards of a game between friends after X takes 0, O 4, X 1 and O 5. */
  const Friend1: Board := [Some(X), None, None, None, None, None, None, None, None]
  const Friend2: Board := [Some(X), None, None, None, Some(O), None, None, None, None]
  const Friend3: Board := [Some(X), Some(X), None, None, Some(O), None, None, None, None]
  const Friend4: Board := [Some(X), Some(X), None, None, Some(O), Some(O), None, None, None]

  /** Nobody has won any of these boards and cells are left on each. */
  lemma FriendBoardsOpen()
    ensures !CheckWinner(Friend1) && !IsFull(Friend1)
    ensures !CheckWinner(Friend2) && !IsFull(Friend2)
    ensures !CheckWinner(Friend3) && !IsFull(Friend3)
    ensures !CheckWinner(Friend4) && !IsFull(Friend4)
  {
    assert Friend4[8] == None;
  }

  /** X completes the top row with cell 2. */
  lemma FriendBoardWon()
    ensures CheckWinner(Place(Friend4, 2, X))
  {
    assert Holds(Place(Friend4, 2, X), Lines[0], X);
  }

  /** A new game between friends: an empty board with X to move. */
  method FriendStart() returns (app: App)
    ensures app.Valid() && app.gameMode == Friend
    ensures app.board == EmptyBoard && app.currentPlayer == X && app.isPlayerTurn
  {
    app := new App(None, None);
    app.HandleModeSelection(Friend);
  }

  /** The opening of that game: X takes 0, O 4, X 1; nobody has won and O is to move. */
  method FriendOpening(app: App)
    requires app.Valid() && app.gameMode == Friend
    requires app.board == EmptyBoard && app.currentPlayer == X && app.isPlayerTurn
    modifies app
    ensures app.Valid() && app.gameMode == Friend
    ensures app.board == Friend3 && app.currentPlayer == O && app.isPlayerTurn
  {
    FriendBoardsOpen();
    var outcome := app.HandleClick(0);
    assert app.board == Friend1;
    outcome := app.HandleClick(4);
    assert app.board == Friend2;
    outcome := app.HandleClick(1);
    assert app.board == Friend3;
  }

  /** The rest of that game: O takes 5, and X wins on the top row with 2. */
  method FriendEnding(app: App) returns (outcome: Outcome)
    requires app.Valid() && app.gameMode == Friend
    requires app.board == Friend3 && app.currentPlayer == O && app.isPlayerTurn
    modifies app
    ensures outcome == PlayerWins(X)
    ensures app.board == Place(Friend4, 2, X)
  {
    FriendBoardsOpen();
    FriendBoardWon();
    outcome := app.HandleClick(5);
    assert app.board == Friend4;
    assert outcome == Continue && app.currentPlayer == X;
    outcome := app.HandleClick(2);
  }

  /** X threatens the top row and O the bottom row. */
  const TwoThreats: Board := [Some(X), Some(X), None, None, None, None, Some(O), Some(O), None]

  /** On `TwoThreats` the heuristic offers O cell 8 to win and cell 2 to block, and cell 8 wins. */
  lemma TwoThreatsMoves()
    ensures FindBestMove(TwoThreats, O) == 8 && FindBestMove(TwoThreats, X) == 2
    ensures CheckWinner(Place(TwoThreats, 8, O))
  {
    assert Holds(Place(TwoThreats, 8, O), Lines[2], O);
  }

  /** `TwoThreats` after X takes cell 5: O is to move, with threats on both sides. */
  const AfterClick: Board := [Some(X), Some(X), None, None, None, Some(X), Some(O), Some(O), None]

  /** X's click on 5 turns `TwoThreats` into `AfterClick`, which nobody has won and which has cells left. */
  lemma AfterClickOpen()
    ensures Place(TwoThreats, 5, X) == AfterClick
    ensures !CheckWinner(AfterClick) && !IsFull(AfterClick)
  {
    assert AfterClick[2] == None;
  }

  /** On `AfterClick` the heuristic offers O cell 8, and cell 8 wins. */
  lemma AfterClickMoves()
    ensures FindBestMove(AfterClick, O) == 8
    ensures CheckWinner(Place(AfterClick, 8, O))
  {
    assert Threat(AfterClick, O, Lines[2]);
    BestMoveIsFirstGap(AfterClick, O, 2, 8);
    assert Holds(Place(AfterClick, 8, O), Lines[2], O);
  }

  /**
    Against the computer, from `TwoThreats` with X to move: X takes 5, the turn passes
    to the computer, and it completes its own row rather than blocking X's.
   */
  method ComputerPrefersWinToBlock(r: real) returns (app: App, outcome: Outcome)
    requires 0.0 <= r < 1.0
    ensures app.board == Place(AfterClick, 8, O)
    ensures outcome == ComputerWins
  {
    app := new App(Some(TwoThreats), Some(Computer));
    AfterClickOpen();
    AfterClickMoves();
    outcome := app.HandleClick(5);
    assert outcome == Continue && !app.isPlayerTurn;
    outcome := app.HandleComputerMove(r);
  }
}
