/**
  The state machine of the `App` component: the board, the mark to move, whether
  the human may move, and the game mode, with the transitions driven by a click
  on a cell, by the computer's move, by a restart and by a mode selection.
 */
module TicTacToe {
  import opened Wrappers
  import opened Board
  import opened Heuristic

  /** The stored mode strings "", "computer" and "friend". */
  datatype Mode = Unselected | Computer | Friend

  /**
    What a transition leads the user interface to do: nothing, let play go on, or
    announce the end of the game (after which the interface restarts it).
   */
  datatype Outcome = Ignored | Continue | PlayerWins(mark: Mark) | ComputerWins | Draw

  /** The empty cells among the first `n`, in ascending order. */
  function EmptyPrefix(b: Board, n: nat): seq<Index>
    requires n <= 9
  {
    if n == 0 then []
    else EmptyPrefix(b, n - 1) + (if b[n - 1] == None then [n - 1 as Index] else [])
  }

  /** The indices of the empty cells of the board, in ascending order. */
  function EmptyCells(b: Board): seq<Index>
  {
    EmptyPrefix(b, 9)
  }

  /** `EmptyPrefix` lists each empty cell below `n` once, and nothing else, in ascending order. */
  lemma {:induction false} EmptyPrefixSpec(b: Board, n: nat)
    requires n <= 9
    ensures forall e :: e in EmptyPrefix(b, n) <==> 0 <= e < n && b[e] == None
    ensures forall i, j :: 0 <= i < j < |EmptyPrefix(b, n)| ==> EmptyPrefix(b, n)[i] < EmptyPrefix(b, n)[j]
  {
    if n > 0 {
      var s := EmptyPrefix(b, n - 1);
      EmptyPrefixSpec(b, n - 1);
      forall i | 0 <= i < |s|
        ensures s[i] < n - 1
      {
        assert s[i] in s;
      }
    }
  }

  /** A board has an empty cell exactly when its list of empty cells is not empty. */
  lemma EmptyCellsIffNotFull(b: Board)
    ensures |EmptyCells(b)| > 0 <==> !IsFull(b)
  {
    EmptyPrefixSpec(b, 9);
    if !IsFull(b) {
      var e :| 0 <= e < 9 && b[e] == None;
      assert e in EmptyCells(b);
    }
    if |EmptyCells(b)| > 0 {
      assert EmptyCells(b)[0] in EmptyCells(b);
    }
  }

  /** The accumulating loop that builds `emptyIndices` from the board. */
  method EmptyIndices(b: Board) returns (acc: seq<Index>)
    ensures acc == EmptyCells(b)
    ensures forall e :: e in acc <==> 0 <= e < 9 && b[e] == None
  {
    acc := [];
    var index := 0;
    while index < 9
      invariant 0 <= index <= 9
      invariant acc == EmptyPrefix(b, index)
    {
      if b[index] == None {
        acc := acc + [index];
      }
      index := index + 1;
    }
    EmptyPrefixSpec(b, 9);
  }

  /**
    `Math.floor(r * n)` for a value `r` drawn from [0, 1), as `Math.random()` gives:
    a valid position in a list of `n` elements.
   */
  function RandomIndex(r: real, n: nat): (k: nat)
    requires 0.0 <= r < 1.0 && n > 0
    ensures k < n
  {
    assert 0.0 <= r * n as real < n as real by {
      assert (1.0 - r) * n as real > 0.0;
    }
    (r * n as real).Floor
  }

  /** The draw `k / n` selects position `k` of `n`: each position is reachable. */
  function DrawFor(k: nat, n: nat): (r: real)
    requires k < n
    ensures 0.0 <= r < 1.0 && RandomIndex(r, n) == k
  {
    var r := k as real / n as real;
    assert r * n as real == k as real;
    r
  }

  /**
    The cell the computer plays on `b`: the move that wins for O, else the move that
    blocks X, else the empty cell the draw `r` selects; -1 when no cell is empty.
   */
  function ComputerChoice(b: Board, r: real): (move: int)
    requires 0.0 <= r < 1.0
    ensures move == -1 || (0 <= move < 9 && b[move] == None)
  {
    var winningMove := FindBestMove(b, O);
    var blockingMove := FindBestMove(b, X);
    var empty := EmptyCells(b);
    if winningMove != -1 then winningMove
    else if blockingMove != -1 then blockingMove
    else if |empty| > 0 then
      var k := RandomIndex(r, |empty|);
      assert empty[k] in empty by { EmptyPrefixSpec(b, 9); }
      EmptyPrefixSpec(b, 9);
      empty[k]
    else -1
  }

  /** The computer has a cell to play exactly when the board is not full. */
  lemma ComputerMovesUnlessFull(b: Board, r: real)
    requires 0.0 <= r < 1.0
    ensures ComputerChoice(b, r) == -1 <==> IsFull(b)
  {
    EmptyCellsIffNotFull(b);
    if FindBestMove(b, O) == -1 && FindBestMove(b, X) == -1 && !IsFull(b) {
      assert ComputerChoice(b, r) == EmptyCells(b)[RandomIndex(r, |EmptyCells(b)|)];
    }
  }

  /**
    Writing O into the chosen cell adds one occupied cell, and a win it creates on a
    board nobody had won is O's.
   */
  lemma ComputerMoveEffects(b: Board, r: real)
    requires 0.0 <= r < 1.0
    requires !IsFull(b)
    ensures ComputerChoice(b, r) != -1
    ensures Filled(Place(b, ComputerChoice(b, r), O)) == Filled(b) + 1
    ensures !CheckWinner(b) && CheckWinner(Place(b, ComputerChoice(b, r), O)) ==> WonBy(Place(b, ComputerChoice(b, r), O), O)
  {
    ComputerMovesUnlessFull(b, r);
    PlaceFacts(b, ComputerChoice(b, r), O);
  }

  /** When O can win at once, the computer's move wins, whatever the draw. */
  lemma ComputerTakesWin(b: Board, r: real)
    requires 0.0 <= r < 1.0
    requires !CheckWinner(b)
    requires CanWinAtOnce(b, O)
    ensures ComputerChoice(b, r) != -1 && WonBy(Place(b, ComputerChoice(b, r), O), O)
  {
    BestMoveIffImmediateWin(b, O);
    BestMoveCompletesLine(b, O);
  }

  /**
    When O cannot win at once but X could, the computer takes a cell in which X
    would have won: it blocks.
   */
  lemma ComputerBlocks(b: Board, r: real)
    requires 0.0 <= r < 1.0
    requires !CheckWinner(b)
    requires !CanWinAtOnce(b, O) && CanWinAtOnce(b, X)
    ensures ComputerChoice(b, r) != -1 && CheckWinner(Place(b, ComputerChoice(b, r), X))
  {
    BestMoveIffImmediateWin(b, O);
    BestMoveIffImmediateWin(b, X);
    BestMoveCompletesLine(b, X);
  }

  /**
    When neither side can win at once, the move is left to the draw, and every
    empty cell is the move for some draw.
   */
  lemma ComputerMayPlayAnyEmptyCell(b: Board, e: Index)
    requires !CheckWinner(b)
    requires !CanWinAtOnce(b, O) && !CanWinAtOnce(b, X)
    requires b[e] == None
    ensures exists r: real :: 0.0 <= r < 1.0 && ComputerChoice(b, r) == e
  {
    BestMoveIffImmediateWin(b, O);
    BestMoveIffImmediateWin(b, X);
    var empty := EmptyCells(b);
    EmptyPrefixSpec(b, 9);
    assert e in empty;
    var k :| 0 <= k < |empty| && empty[k] == e;
    var r := DrawFor(k, |empty|);
    assert ComputerChoice(b, r) == e;
  }

  /** The component's state. The board is always nine cells (a stored board of another shape is not modelled). */
  class App {
    var board: Board
    var currentPlayer: Mark
    var isPlayerTurn: bool
    var gameMode: Mode

    /**
      The turn is consistent with the mode: against the computer the human plays X and
      the computer O; between friends the turn is never handed away from the board.
     */
    ghost predicate Valid()
      reads this
    {
      && (gameMode == Computer ==> (isPlayerTurn <==> currentPlayer == X))
      && (gameMode != Computer ==> isPlayerTurn)
    }

    /** A click on cell `id` is accepted: the cell exists, is empty, and the human may move. */
    predicate Accepts(id: int): (accepted: bool)
      reads this
      ensures accepted ==> !IsFull(board)
    {
      0 <= id < 9 && board[id] == None && isPlayerTurn
    }

    /**
      The initial state: the stored board or an empty one, the stored mode or
      `Unselected`, X to move, the human's turn.
     */
    constructor (storedBoard: Option<Board>, storedMode: Option<Mode>)
      ensures Valid()
      ensures board == (if storedBoard.Some? then storedBoard.value else EmptyBoard)
      ensures gameMode == (if storedMode.Some? then storedMode.value else Unselected)
      ensures currentPlayer == X && isPlayerTurn
    {
      board := if storedBoard.Some? then storedBoard.value else EmptyBoard;
      gameMode := if storedMode.Some? then storedMode.value else Unselected;
      currentPlayer := X;
      isPlayerTurn := true;
    }

    /** `resetGame`: an empty board, X to move, the human's turn; the mode is kept. */
    method ResetGame()
      modifies this
      ensures Valid()
      ensures board == EmptyBoard && currentPlayer == X && isPlayerTurn
      ensures gameMode == old(gameMode)
    {
      board := EmptyBoard;
      currentPlayer := X;
      isPlayerTurn := true;
    }

    /** `handleModeSelection`: switch to `mode` and start a fresh game. */
    method HandleModeSelection(mode: Mode)
      modifies this
      ensures Valid()
      ensures gameMode == mode
      ensures board == EmptyBoard && currentPlayer == X && isPlayerTurn
    {
      gameMode := mode;
      ResetGame();
    }

    /**
      `handleClick(id)`: the human's move. A click on a missing or occupied cell, or
      out of turn, changes nothing. Otherwise the current mark is written into cell
      `id` alone; a win or a full board is announced with the turn left as it was,
      and otherwise the turn passes to the computer or to the friend.
     */
    method HandleClick(id: int) returns (outcome: Outcome)
      requires Valid()
      modifies this
      ensures Valid()
      ensures gameMode == old(gameMode)
      ensures !old(Accepts(id)) ==>
        && outcome == Ignored
        && board == old(board) && currentPlayer == old(currentPlayer) && isPlayerTurn == old(isPlayerTurn)
      ensures old(Accepts(id)) ==>
        && board == Place(old(board), id, old(currentPlayer))
        && Filled(board) == Filled(old(board)) + 1
        && (old(gameMode) == Computer ==> board[id] == Some(X))
      ensures old(Accepts(id)) && CheckWinner(board) ==>
        && outcome == PlayerWins(old(currentPlayer))
        && currentPlayer == old(currentPlayer) && isPlayerTurn == old(isPlayerTurn)
      ensures old(Accepts(id)) && !CheckWinner(board) && IsFull(board) ==>
        && outcome == Draw
        && currentPlayer == old(currentPlayer) && isPlayerTurn == old(isPlayerTurn)
      ensures old(Accepts(id)) && !CheckWinner(board) && !IsFull(board) ==>
        && outcome == Continue
        && if old(gameMode) == Computer then !isPlayerTurn && currentPlayer == O
           else isPlayerTurn && currentPlayer == Other(old(currentPlayer))
      ensures outcome.PlayerWins? && !CheckWinner(old(board)) ==> WonBy(board, outcome.mark)
    {
      if !Accepts(id) {
        return Ignored;
      }
      var newBoard := Place(board, id, currentPlayer);
      PlaceFacts(board, id, currentPlayer);
      board := newBoard;
      if CheckWinner(newBoard) {
        outcome := PlayerWins(currentPlayer);
      } else if IsFull(newBoard) {
        outcome := Draw;
      } else {
        outcome := Continue;
        if gameMode == Computer {
          isPlayerTurn := false;
          currentPlayer := O;
        } else {
          currentPlayer := Other(currentPlayer);
        }
      }
    }

    /**
      `handleComputerMove`: the computer plays O into the cell `ComputerChoice` picks,
      or changes nothing when the board is full; a win or a full board is announced
      with the turn left as it was, and otherwise the turn goes back to the human as X.
     */
    method HandleComputerMove(r: real) returns (outcome: Outcome)
      requires Valid()
      requires 0.0 <= r < 1.0
      modifies this
      ensures Valid()
      ensures gameMode == old(gameMode)
      ensures ComputerChoice(old(board), r) == -1 ==> board == old(board)
      ensures ComputerChoice(old(board), r) != -1 ==> board == Place(old(board), ComputerChoice(old(board), r), O)
      ensures outcome == (if CheckWinner(board) then ComputerWins else if IsFull(board) then Draw else Continue)
      ensures outcome == Continue ==> isPlayerTurn && currentPlayer == X
      ensures outcome != Continue ==> currentPlayer == old(currentPlayer) && isPlayerTurn == old(isPlayerTurn)
    {
      var emptyIndices := EmptyIndices(board);
      var winningMove := FindBestMove(board, O);
      var blockingMove := FindBestMove(board, X);
      var move: int :=
        if winningMove != -1 then winningMove
        else if blockingMove != -1 then blockingMove
        else if |emptyIndices| > 0 then emptyIndices[RandomIndex(r, |emptyIndices|)]
        else -1;
      assert move == ComputerChoice(board, r);
      if move != -1 {
        board := Place(board, move, O);
      }
      if CheckWinner(board) {
        outcome := ComputerWins;
      } else if IsFull(board) {
        outcome := Draw;
      } else {
        outcome := Continue;
        isPlayerTurn := true;
        currentPlayer := X;
      }
    }
  }
}
