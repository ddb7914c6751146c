/**
  `findBestMove`: the one-ply heuristic of the computer opponent. It looks for a
  winning triple in which `p` already holds two cells and the third is empty, and
  returns that empty cell, or -1 when there is none.
 */
module Heuristic {
  import opened Wrappers
  import opened Board

  /** How many cells of `t` hold exactly `v`. */
  function Count(b: Board, t: Triple, v: Cell): nat
  {
    (if b[t.a] == v then 1 else 0) + (if b[t.b] == v then 1 else 0) + (if b[t.c] == v then 1 else 0)
  }

  /** `p` holds two cells of `t` and the third is empty: one more move by `p` completes it. */
  predicate Threat(b: Board, p: Mark, t: Triple)
  {
    Count(b, t, Some(p)) == 2 && Count(b, t, None) == 1
  }

  /** Triple `i` is the first threatened triple for `p` among the triples from `k` on. */
  predicate FirstThreat(b: Board, p: Mark, k: nat, i: nat)
  {
    k <= i < |Lines| && Threat(b, p, Lines[i]) && forall j :: k <= j < i ==> !Threat(b, p, Lines[j])
  }

  /**
    The scan of `findBestMove` from triple `k` on. Within a triple it tests for the
    empty cell at c, then b, then a; as the three tests exclude each other, the cell
    returned is simply the empty cell of the first threatened triple.
   */
  function BestMoveFrom(b: Board, p: Mark, k: nat): (r: int)
    requires k <= |Lines|
    ensures r == -1 <==> forall i :: k <= i < |Lines| ==> !Threat(b, p, Lines[i])
    ensures r != -1 ==> 0 <= r < 9 && b[r] == None
    ensures r != -1 ==> exists i: nat :: FirstThreat(b, p, k, i) && OnLine(r, Lines[i])
    decreases |Lines| - k
  {
    if k == |Lines| then -1
    else
      var t := Lines[k];
      if b[t.a] == Some(p) && b[t.b] == Some(p) && b[t.c] == None then
        assert FirstThreat(b, p, k, k);
        t.c
      else if b[t.a] == Some(p) && b[t.b] == None && b[t.c] == Some(p) then
        assert FirstThreat(b, p, k, k);
        t.b
      else if b[t.a] == None && b[t.b] == Some(p) && b[t.c] == Some(p) then
        assert FirstThreat(b, p, k, k);
        t.a
      else
        var r := BestMoveFrom(b, p, k + 1);
        assert r != -1 ==> exists i: nat :: FirstThreat(b, p, k, i) && OnLine(r, Lines[i]) by {
          if r != -1 {
            var i: nat :| FirstThreat(b, p, k + 1, i) && OnLine(r, Lines[i]);
            assert FirstThreat(b, p, k, i);
          }
        }
        r
  }

  /**
    `findBestMove(board, player)`: -1 when no triple is threatened by `p`; otherwise
    the empty cell of the first threatened triple in table order.
   */
  function FindBestMove(b: Board, p: Mark): (r: int)
    ensures r == -1 <==> forall i :: 0 <= i < |Lines| ==> !Threat(b, p, Lines[i])
    ensures r != -1 ==> 0 <= r < 9 && b[r] == None
    ensures r != -1 ==> exists i: nat :: FirstThreat(b, p, 0, i) && OnLine(r, Lines[i])
  {
    BestMoveFrom(b, p, 0)
  }

  /**
    The contract above determines the move completely: the empty cell of the first
    threatened triple is the one returned.
   */
  lemma BestMoveIsFirstGap(b: Board, p: Mark, i: nat, e: Index)
    requires FirstThreat(b, p, 0, i) && OnLine(e, Lines[i]) && b[e] == None
    ensures FindBestMove(b, p) == e
  {
    var r := FindBestMove(b, p);
    var i': nat :| FirstThreat(b, p, 0, i') && OnLine(r, Lines[i']);
    LinesDistinct(i);
  }

  /** The move offered completes a triple for `p`: played by `p` it wins. */
  lemma BestMoveCompletesLine(b: Board, p: Mark)
    ensures FindBestMove(b, p) != -1 ==> WonBy(Place(b, FindBestMove(b, p), p), p)
  {
    var r := FindBestMove(b, p);
    if r != -1 {
      var i: nat :| FirstThreat(b, p, 0, i) && OnLine(r, Lines[i]);
      assert Holds(Place(b, r, p), Lines[i], p);
    }
  }

  /** Played into an empty cell, a mark that completes a triple makes that triple a threat beforehand. */
  lemma WinningMoveWasThreat(b: Board, e: Index, p: Mark)
    requires !CheckWinner(b) && b[e] == None
    ensures CheckWinner(Place(b, e, p)) ==> exists i :: 0 <= i < |Lines| && Threat(b, p, Lines[i])
  {
    if CheckWinner(Place(b, e, p)) {
      NewWinIsMover(b, e, p);
      var i :| 0 <= i < |Lines| && Holds(Place(b, e, p), Lines[i], p);
      var t := Lines[i];
      LinesDistinct(i);
      assert b[t.a] == (if t.a == e then None else Some(p));
      assert b[t.b] == (if t.b == e then None else Some(p));
      assert b[t.c] == (if t.c == e then None else Some(p));
      assert Threat(b, p, t);
    }
  }

  /** `p` has an empty cell to play that wins at once. */
  predicate CanWinAtOnce(b: Board, p: Mark)
  {
    exists e: Index :: b[e] == None && CheckWinner(Place(b, e, p))
  }

  /**
    On a board nobody has won yet, `findBestMove` finds a move exactly when `p` has
    a move that wins at once.
   */
  lemma BestMoveIffImmediateWin(b: Board, p: Mark)
    requires !CheckWinner(b)
    ensures FindBestMove(b, p) != -1 <==> CanWinAtOnce(b, p)
  {
    var r := FindBestMove(b, p);
    if r != -1 {
      BestMoveCompletesLine(b, p);
      assert CheckWinner(Place(b, r, p));
    } else {
      forall e: Index | b[e] == None
        ensures !CheckWinner(Place(b, e, p))
      {
        WinningMoveWasThreat(b, e, p);
      }
    }
  }
}
