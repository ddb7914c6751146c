/**
  The 3x3 board: nine cells in row-major order, each empty or holding a mark,
  the fixed table of the eight winning triples, and the win check that scans it.

      0 1 2
      3 4 5
      6 7 8
 */
module Board {
  import opened Wrappers

  datatype Mark = X | O

  /** The mark that moves next in a game between two humans. */
  function Other(m: Mark): Mark
  {
    if m == X then O else X
  }

  /** An empty cell (the source's `null`) or a mark. */
  type Cell = Option<Mark>

  /** A cell position on the board. */
  type Index = i: nat | i < 9

  /** The board is always exactly nine cells. */
  type Board = s: seq<Cell> | |s| == 9
    witness [None, None, None, None, None, None, None, None, None]

  /** The board a new game starts from: nine empty cells. */
  const EmptyBoard: Board := [None, None, None, None, None, None, None, None, None]

  /** Three cells that win when they hold the same mark. */
  datatype Triple = Triple(a: Index, b: Index, c: Index)

  /** The winning triples in the order the source scans them: rows, columns, diagonals. */
  const Lines: seq<Triple> := [
    Triple(0, 1, 2), Triple(3, 4, 5), Triple(6, 7, 8),
    Triple(0, 3, 6), Triple(1, 4, 7), Triple(2, 5, 8),
    Triple(0, 4, 8), Triple(2, 4, 6)
  ]

  /** Cell `e` is one of the three cells of `t`. */
  predicate OnLine(e: int, t: Triple)
  {
    e == t.a || e == t.b || e == t.c
  }

  /** Every cell of `t` holds `m`. */
  predicate Holds(b: Board, t: Triple, m: Mark)
  {
    b[t.a] == Some(m) && b[t.b] == Some(m) && b[t.c] == Some(m)
  }

  /** Some winning triple is entirely `m`. */
  predicate WonBy(b: Board, m: Mark)
  {
    exists i :: 0 <= i < |Lines| && Holds(b, Lines[i], m)
  }

  /** The three cells of every winning triple are distinct. */
  lemma LinesDistinct(i: nat)
    requires i < |Lines|
    ensures Lines[i].a != Lines[i].b && Lines[i].b != Lines[i].c && Lines[i].a != Lines[i].c
  {
  }

  /** The scan of `checkWinner` from triple `k` on: true as soon as a triple holds three equal non-empty cells. */
  function WinnerFrom(b: Board, k: nat): (won: bool)
    requires k <= |Lines|
    ensures won <==> exists i, m :: k <= i < |Lines| && Holds(b, Lines[i], m)
    decreases |Lines| - k
  {
    if k == |Lines| then false
    else
      var t := Lines[k];
      if b[t.a] != None && b[t.a] == b[t.b] && b[t.a] == b[t.c] then
        assert Holds(b, t, b[t.a].value);
        true
      else
        WinnerFrom(b, k + 1)
  }

  /** `checkWinner`: whether some mark has completed a winning triple. It does not say which mark. */
  function CheckWinner(b: Board): (won: bool)
    ensures won <==> WonBy(b, X) || WonBy(b, O)
  {
    var won := WinnerFrom(b, 0);
    assert won ==> WonBy(b, X) || WonBy(b, O) by {
      if won {
        var i, m :| 0 <= i < |Lines| && Holds(b, Lines[i], m);
        if m == X { assert WonBy(b, X); } else { assert WonBy(b, O); }
      }
    }
    won
  }

  /** The board after writing `m` into cell `e`: the source's `newBoard[id] = mark` on a copy. */
  function Place(b: Board, e: Index, m: Mark): (r: Board)
    ensures r[e] == Some(m)
    ensures forall i :: 0 <= i < 9 && i != e ==> r[i] == b[i]
  {
    b[e := Some(m)]
  }

  /** Every cell is occupied: `board.every(cell => cell !== null)`; that is, all nine are counted. */
  predicate IsFull(b: Board): (full: bool)
    ensures full <==> Filled(b) == 9
  {
    FilledAll(b);
    forall i :: 0 <= i < 9 ==> b[i] != None
  }

  /** The number of occupied cells. */
  function Filled(s: seq<Cell>): (n: nat)
  {
    if s == [] then 0
    else Filled(s[..|s| - 1]) + (if s[|s| - 1] != None then 1 else 0)
  }

  /** Writing a mark into an empty cell adds exactly one occupied cell. */
  lemma {:induction false} FilledPlace(s: seq<Cell>, e: nat, m: Mark)
    requires e < |s| && s[e] == None
    ensures Filled(s[e := Some(m)]) == Filled(s) + 1
  {
    var n := |s| - 1;
    if e < n {
      assert s[e := Some(m)][..n] == s[..n][e := Some(m)];
      FilledPlace(s[..n], e, m);
    } else {
      assert s[e := Some(m)][..n] == s[..n];
    }
  }

  /** A board is full exactly when all of its cells are counted as occupied. */
  lemma {:induction false} FilledAll(s: seq<Cell>)
    ensures Filled(s) <= |s|
    ensures Filled(s) == |s| <==> forall i :: 0 <= i < |s| ==> s[i] != None
  {
    if s != [] {
      var n := |s| - 1;
      FilledAll(s[..n]);
      assert forall i :: 0 <= i < n ==> s[..n][i] == s[i];
    }
  }

  /**
    A move that wins was the winning move: if nobody had won before mark `m` was
    written into the empty cell `e`, every triple won afterwards runs through `e`
    and is `m`'s. This is why the source may announce the mover as the winner.
   */
  lemma NewWinIsMover(b: Board, e: Index, m: Mark)
    requires !CheckWinner(b) && b[e] == None
    ensures forall i, m' :: 0 <= i < |Lines| && Holds(Place(b, e, m), Lines[i], m') ==> m' == m && OnLine(e, Lines[i])
    ensures CheckWinner(Place(b, e, m)) ==> WonBy(Place(b, e, m), m) && !WonBy(Place(b, e, m), Other(m))
  {
  }

  /**
    What the two move paths need about writing `m` into the empty cell `e`: one more
    occupied cell, and a win it creates on an unwon board is `m`'s.
   */
  lemma PlaceFacts(b: Board, e: Index, m: Mark)
    requires b[e] == None
    ensures Filled(Place(b, e, m)) == Filled(b) + 1
    ensures !CheckWinner(b) && CheckWinner(Place(b, e, m)) ==> WonBy(Place(b, e, m), m)
  {
    FilledPlace(b, e, m);
    if !CheckWinner(b) {
      NewWinIsMover(b, e, m);
    }
  }
}
