/**
 * The game state machine: an N x N board, a move history used as an undo
 * stack, a cyclic index of the player to move next, the game state and the
 * winner, and the list of win-detection strategies asked after each move.
 */
module Games {
  import opened Wrappers
  import opened Models
  import opened Strategies

  /**
   * The proposed cell can be looked up without a fault: the row and column
   * checks come first, so a negative index only faults when both pass.
   */
  predicate Indexable(size: int, row: int, col: int)
  {
    row >= size || col >= size || (0 <= row && 0 <= col)
  }

  /** A proposed cell is accepted iff it lies on the board and is EMPTY. */
  function ValidateMove(g: Grid, size: int, row: int, col: int): (ok: bool)
    requires IsGrid(g, size) && Indexable(size, row, col)
    ensures ok <==> 0 <= row < size && 0 <= col < size && g[row][col] == Empty
  {
    if row >= size then false
    else if col >= size then false
    else g[row][col].Empty?
  }

  /** Turning the player index forward and then back gives the same index. */
  lemma {:induction false} TurnBackAfterTurn(i: int, n: int)
    requires 0 <= i < n
    ensures ((i + 1) % n - 1 + n) % n == i
  {
    if i + 1 < n {
      assert (i + 1) % n == i + 1;
      assert (i + n) % n == i;
    } else {
      assert (i + 1) % n == 0;
      assert (n - 1) % n == i;
    }
  }

  /** `r` is the remainder of `a` divided by `n` when `a` is `q` times `n` plus `r`. */
  lemma ModOf(a: int, n: int, q: int, r: int)
    requires n > 0 && a == q * n + r && 0 <= r < n
    ensures a % n == r
  {
    var d := a / n - q;
    assert d * n == r - a % n;
  }

  /** Turning the index forward keeps it equal to the move count modulo the players. */
  lemma IndexStep(i: int, k: int, n: int)
    requires n > 0 && k >= 0 && i == k % n
    ensures (i + 1) % n == (k + 1) % n
  {
    var q, t := k / n, (i + 1) / n;
    assert k == q * n + i;
    assert i + 1 == t * n + (i + 1) % n;
    assert k + 1 == (q + t) * n + (i + 1) % n;
    ModOf(k + 1, n, q + t, (i + 1) % n);
  }

  /** Turning the index back after the last move is popped keeps it equal to the move count modulo the players. */
  lemma IndexBack(i: int, k: int, n: int)
    requires n > 0 && k > 0 && i == k % n
    ensures (i - 1 + n) % n == (k - 1) % n
  {
    var q, t := k / n, (i - 1 + n) / n;
    assert k == q * n + i;
    assert i - 1 + n == t * n + (i - 1 + n) % n;
    assert k - 1 == (q - 1 + t) * n + (i - 1 + n) % n;
    ModOf(k - 1, n, q - 1 + t, (i - 1 + n) % n);
  }

  /**
   * The moves are on distinct cells of the size x size grid, each cell FILLED
   * by its move's player (one of `players`), and exactly as many cells are
   * FILLED as there are moves.
   */
  ghost predicate Recorded(g: Grid, size: int, moves: seq<Move>, players: seq<Player>)
  {
    IsGrid(g, size) && OnBoard(moves, size) && DistinctCells(moves) &&
    (forall i :: 0 <= i < |moves| ==>
       g[moves[i].row][moves[i].col] == Filled(moves[i].player) && moves[i].player in players) &&
    FilledCount(g) == |moves|
  }

  /** Filling an EMPTY board cell and pushing its move keeps the record. */
  lemma RecordedPush(g: Grid, size: int, moves: seq<Move>, players: seq<Player>, m: Move)
    requires Recorded(g, size, moves, players)
    requires 0 <= m.row < size && 0 <= m.col < size && g[m.row][m.col] == Empty && m.player in players
    ensures Recorded(SetCell(g, m.row, m.col, Filled(m.player)), size, moves + [m], players)
  {
    var g' := SetCell(g, m.row, m.col, Filled(m.player));
    var ms := moves + [m];
    FilledCountUpdate(g, m.row, m.col, Filled(m.player));
    forall i | 0 <= i < |moves| ensures moves[i].row != m.row || moves[i].col != m.col {
      assert g[moves[i].row][moves[i].col] == Filled(moves[i].player);
    }
    forall i | 0 <= i < |ms|
      ensures g'[ms[i].row][ms[i].col] == Filled(ms[i].player) && ms[i].player in players
    {
      if i < |moves| { assert ms[i] == moves[i]; }
    }
  }

  /** Popping the last move and emptying its cell keeps the record. */
  lemma RecordedPop(g: Grid, size: int, moves: seq<Move>, players: seq<Player>)
    requires Recorded(g, size, moves, players) && moves != []
    ensures var m := moves[|moves| - 1];
            Recorded(SetCell(g, m.row, m.col, Empty), size, moves[..|moves| - 1], players)
  {
    var m := moves[|moves| - 1];
    var g' := SetCell(g, m.row, m.col, Empty);
    var ms := moves[..|moves| - 1];
    FilledCountUpdate(g, m.row, m.col, Empty);
    forall i | 0 <= i < |ms|
      ensures g'[ms[i].row][ms[i].col] == Filled(ms[i].player) && ms[i].player in players
    {
      assert ms[i] == moves[i];
    }
    forall i, j | 0 <= i < j < |ms| ensures ms[i].row != ms[j].row || ms[i].col != ms[j].col {
      assert ms[i] == moves[i] && ms[j] == moves[j];
    }
  }

  class Game {
    const players: seq<Player>
    const size: int
    const winningStrategies: seq<StrategyRef>
    var board: Grid
    var moves: seq<Move>
    var winner: Option<Player>
    var gameState: GameState
    var nextMovePlayerIndex: int

    /**
     * The board is size x size; the index is the number of moves modulo the
     * number of players; the moves are on distinct board cells, each FILLED by
     * the move's player; exactly as many cells are FILLED as there are moves;
     * a WIN has a winner.
     */
    ghost predicate Valid()
      reads this
    {
      IsGrid(board, size) &&
      0 <= nextMovePlayerIndex &&
      (|players| == 0 ==> nextMovePlayerIndex == 0 && moves == []) &&
      (|players| > 0 ==> nextMovePlayerIndex == |moves| % |players|) &&
      Recorded(board, size, moves, players) &&
      (gameState == WIN ==> winner.Some?) &&
      (winner.Some? ==> winner.value in players)
    }

    /** The state of each strategy of the list, in order. */
    ghost function StrategyStates(): seq<StrategyState>
      reads Objects(winningStrategies)
    {
      States(winningStrategies)
    }

    /** A new game: an all-EMPTY board, no moves, IN_PROGRESS, no winner, player 0 to move. */
    constructor (players: seq<Player>, dimensions: nat, winningStrategies: seq<StrategyRef>)
      ensures Valid()
      ensures this.players == players && size == dimensions && this.winningStrategies == winningStrategies
      ensures board == EmptyGrid(dimensions) && moves == []
      ensures gameState == IN_PROGRESS && winner == None && nextMovePlayerIndex == 0
    {
      this.players := players;
      this.winningStrategies := winningStrategies;
      this.size := dimensions;
      board := EmptyGrid(dimensions);
      moves := [];
      gameState := IN_PROGRESS;
      winner := None;
      nextMovePlayerIndex := 0;
      new;
      EmptyGridNoneFilled(dimensions);
    }

    /** Asks the strategies in order whether `move` wins, stopping at the first that says so. */
    method CheckWinner(move: Move) returns (won: bool)
      requires Distinct(winningStrategies)
      modifies Objects(winningStrategies)
      ensures (StrategyStates(), won) == Consult(old(StrategyStates()), size, move)
    {
      var ws := winningStrategies;
      ghost var before := States(ws);
      ghost var done: seq<StrategyState> := [];
      var i := 0;
      assert before[0..] == before;
      assert done + Consult(before, size, move).0 == Consult(before, size, move).0;
      while i < |ws|
        invariant 0 <= i <= |ws| && |done| == i
        invariant States(ws) == done + before[i..]
        invariant Consult(before, size, move) ==
                  (done + Consult(before[i..], size, move).0, Consult(before[i..], size, move).1)
      {
        ConsultStep(before, size, move, i, done);
        won := AskOne(ws, i, size, move);
        UpdateAfterPrefix(done, before[i..], Step(before[i], size, move).0);
        assert before[i..][1..] == before[i + 1..];
        done := done + [Step(before[i], size, move).0];
        assert States(ws) == done + before[i + 1..];
        if won {
          return;
        }
        i := i + 1;
      }
      assert before[i..] == [];
      won := false;
    }

    /**
     * The current player's proposed cell (row, col). A rejected cell changes
     * nothing. An accepted one is FILLED by the player, the move is pushed,
     * the turn passes on and the strategies are asked; a win makes the mover
     * the winner, otherwise a full move count makes the game a DRAW.
     */
    method MakeMove(row: int, col: int)
      requires Valid() && |players| > 0 && Indexable(size, row, col)
      requires Distinct(winningStrategies)
      modifies this, Objects(winningStrategies)
      ensures Valid()
      ensures !ValidateMove(old(board), size, row, col) ==>
                board == old(board) && moves == old(moves) &&
                nextMovePlayerIndex == old(nextMovePlayerIndex) &&
                gameState == old(gameState) && winner == old(winner) &&
                StrategyStates() == old(StrategyStates())
      ensures ValidateMove(old(board), size, row, col) ==>
                var m := Move(row, col, players[old(nextMovePlayerIndex)]);
                board == SetCell(old(board), row, col, Filled(m.player)) &&
                moves == old(moves) + [m] &&
                nextMovePlayerIndex == (old(nextMovePlayerIndex) + 1) % |players| &&
                StrategyStates() == Consult(old(StrategyStates()), size, m).0
      ensures ValidateMove(old(board), size, row, col) ==>
                var m := Move(row, col, players[old(nextMovePlayerIndex)]);
                if Consult(old(StrategyStates()), size, m).1 then gameState == WIN && winner == Some(m.player)
                else winner == old(winner) && gameState == if |moves| == size * size then DRAW else old(gameState)
    {
      var currentMovePlayer := players[nextMovePlayerIndex];
      var move := Move(row, col, currentMovePlayer);
      if !ValidateMove(board, size, row, col) {
        return;
      }
      Record(move);
      assert this !in Objects(winningStrategies);
      var won := CheckWinner(move);
      Decide(won, currentMovePlayer);
    }

    /** The accepted move: its cell is FILLED by the mover, the move is pushed and the turn passes on. */
    method Record(move: Move)
      requires Valid() && |players| > 0 && move.player == players[nextMovePlayerIndex]
      requires 0 <= move.row < size && 0 <= move.col < size && board[move.row][move.col] == Empty
      modifies this
      ensures Valid()
      ensures board == SetCell(old(board), move.row, move.col, Filled(move.player))
      ensures moves == old(moves) + [move]
      ensures nextMovePlayerIndex == (old(nextMovePlayerIndex) + 1) % |players|
      ensures gameState == old(gameState) && winner == old(winner)
      ensures StrategyStates() == old(StrategyStates())
    {
      assert this !in Objects(winningStrategies);
      RecordedPush(board, size, moves, players, move);
      IndexStep(nextMovePlayerIndex, |moves|, |players|);
      board := SetCell(board, move.row, move.col, Filled(move.player));
      moves := moves + [move];
      nextMovePlayerIndex := (nextMovePlayerIndex + 1) % |players|;
    }

    /** After the strategies answer: a win makes the mover the winner, otherwise a full board is a DRAW. */
    method Decide(won: bool, mover: Player)
      requires Valid() && mover in players
      modifies this
      ensures Valid()
      ensures board == old(board) && moves == old(moves) && nextMovePlayerIndex == old(nextMovePlayerIndex)
      ensures if won then gameState == WIN && winner == Some(mover)
              else winner == old(winner) && gameState == if |moves| == size * size then DRAW else old(gameState)
      ensures StrategyStates() == old(StrategyStates())
    {
      assert this !in Objects(winningStrategies);
      if won {
        gameState := WIN;
        winner := Some(mover);
      } else if |moves| == size * size {
        gameState := DRAW;
      }
    }

    /**
     * Pops the last move, empties its cell and turns the player index back;
     * with no moves it changes nothing. The game state, the winner and the
     * strategies' counts are left as they are.
     */
    method Undo()
      requires Valid()
      modifies this
      ensures Valid()
      ensures gameState == old(gameState) && winner == old(winner)
      ensures StrategyStates() == old(StrategyStates())
      ensures old(moves) == [] ==>
                board == old(board) && moves == old(moves) && nextMovePlayerIndex == old(nextMovePlayerIndex)
      ensures old(moves) != [] ==>
                var last := old(moves)[|old(moves)| - 1];
                moves == old(moves)[..|old(moves)| - 1] &&
                board == SetCell(old(board), last.row, last.col, Empty) &&
                nextMovePlayerIndex == (old(nextMovePlayerIndex) - 1 + |players|) % |players|
    {
      assert this !in Objects(winningStrategies);
      if |moves| == 0 {
        return;
      }
      var lastMove := moves[|moves| - 1];
      RecordedPop(board, size, moves, players);
      IndexBack(nextMovePlayerIndex, |moves|, |players|);
      moves := moves[..|moves| - 1];
      board := SetCell(board, lastMove.row, lastMove.col, Empty);
      nextMovePlayerIndex := nextMovePlayerIndex - 1;
      nextMovePlayerIndex := (nextMovePlayerIndex + |players|) % |players|;
    }
  }

  /**
   * A game with no moves has an all-EMPTY board and player 0 to move, so
   * undoing every move gives back the starting board and index.
   */
  lemma NoMovesEmptyBoard(g: Game)
    requires g.Valid() && g.moves == []
    ensures g.board == EmptyGrid(g.size)
    ensures g.nextMovePlayerIndex == 0
  {
    NoneFilledIsEmpty(g.board, g.size);
  }

  /**
   * An accepted move followed by an undo gives back the board, the moves and
   * the player index (the strategies keep the move's count).
   */
  method MakeMoveThenUndo(g: Game, row: int, col: int)
    requires g.Valid() && |g.players| > 0 && Indexable(g.size, row, col)
    requires Distinct(g.winningStrategies)
    requires ValidateMove(g.board, g.size, row, col)
    modifies g, Objects(g.winningStrategies)
    ensures g.board == old(g.board) && g.moves == old(g.moves)
    ensures g.nextMovePlayerIndex == old(g.nextMovePlayerIndex)
  {
    ghost var b, i := g.board, g.nextMovePlayerIndex;
    g.MakeMove(row, col);
    g.Undo();
    ClearAfterFill(b, row, col, g.players[i]);
    TurnBackAfterTurn(i, |g.players|);
  }
}
