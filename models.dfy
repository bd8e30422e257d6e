/**
 * The plain data of the game: symbols, players, cells, moves, the game
 * state enumeration and the N x N board grid.
 */
module Models {
  /** A player's mark; two symbols are the same when their characters are. */
  datatype Symbol = Symbol(aChar: char)

  datatype PlayerType = HUMAN | BOT

  /** A player record: identity, owned symbol and type (a bot is a player of type BOT). */
  datatype Player = Player(id: int, name: string, symbol: Symbol, playerType: PlayerType)

  /** A board cell: EMPTY, or FILLED and owned by a player. */
  datatype Cell = Empty | Filled(player: Player)

  /** One move: the target cell's coordinates and the player who made it. */
  datatype Move = Move(row: int, col: int, player: Player)

  datatype GameState = IN_PROGRESS | WIN | DRAW

  /** The board's grid: row-major, each row a sequence of cells. */
  type Grid = seq<seq<Cell>>

  /** No two moves target the same cell. */
  predicate DistinctCells(ms: seq<Move>)
  {
    forall i, j :: 0 <= i < j < |ms| ==> ms[i].row != ms[j].row || ms[i].col != ms[j].col
  }

  /** Every move targets a cell of the size x size board. */
  predicate OnBoard(ms: seq<Move>, size: int)
  {
    forall i :: 0 <= i < |ms| ==> 0 <= ms[i].row < size && 0 <= ms[i].col < size
  }

  /** `g` is an n x n grid. */
  ghost predicate IsGrid(g: Grid, n: int)
  {
    |g| == n && forall i :: 0 <= i < |g| ==> |g[i]| == n
  }

  /** The all-EMPTY n x n grid a new board is created with. */
  function EmptyGrid(n: nat): (g: Grid)
    ensures IsGrid(g, n)
    ensures forall i, j :: 0 <= i < n && 0 <= j < n ==> g[i][j] == Empty
  {
    seq(n, _ => seq(n, _ => Empty))
  }

  /** `g` with cell (row, col) replaced by `c`; no other cell changes. */
  function SetCell(g: Grid, row: int, col: int, c: Cell): (r: Grid)
    requires 0 <= row < |g| && 0 <= col < |g[row]|
    ensures |r| == |g| && forall i :: 0 <= i < |g| ==> |r[i]| == |g[i]|
    ensures r[row][col] == c
    ensures forall i, j :: 0 <= i < |g| && 0 <= j < |g[i]| && (i != row || j != col) ==> r[i][j] == g[i][j]
  {
    g[row := g[row][col := c]]
  }

  /** Filling an EMPTY cell and then emptying it again gives back the grid. */
  lemma ClearAfterFill(g: Grid, row: int, col: int, p: Player)
    requires 0 <= row < |g| && 0 <= col < |g[row]| && g[row][col] == Empty
    ensures SetCell(SetCell(g, row, col, Filled(p)), row, col, Empty) == g
  {
    var r := SetCell(SetCell(g, row, col, Filled(p)), row, col, Empty);
    forall i | 0 <= i < |g| ensures r[i] == g[i] {
      assert |r[i]| == |g[i]|;
    }
  }

  /** Number of FILLED cells in one row. */
  function FilledInRow(cells: seq<Cell>): nat
  {
    if cells == [] then 0
    else FilledInRow(cells[..|cells| - 1]) + (if cells[|cells| - 1].Filled? then 1 else 0)
  }

  /** Number of FILLED cells on the whole grid. */
  function FilledCount(g: Grid): nat
  {
    if g == [] then 0 else FilledCount(g[..|g| - 1]) + FilledInRow(g[|g| - 1])
  }

  /** Replacing one cell of a row changes its filled count by the difference of the two cells. */
  lemma {:induction false} FilledInRowUpdate(cells: seq<Cell>, k: int, c: Cell)
    requires 0 <= k < |cells|
    ensures FilledInRow(cells[k := c]) + (if cells[k].Filled? then 1 else 0)
         == FilledInRow(cells) + (if c.Filled? then 1 else 0)
  {
    var n := |cells|;
    var u := cells[k := c];
    if k == n - 1 {
      assert u[..n - 1] == cells[..n - 1];
    } else {
      assert u[..n - 1] == cells[..n - 1][k := c];
      FilledInRowUpdate(cells[..n - 1], k, c);
    }
  }

  /** Replacing one cell of the grid changes the filled count by the difference of the two cells. */
  lemma {:induction false} FilledCountUpdate(g: Grid, row: int, col: int, c: Cell)
    requires 0 <= row < |g| && 0 <= col < |g[row]|
    ensures FilledCount(SetCell(g, row, col, c)) + (if g[row][col].Filled? then 1 else 0)
         == FilledCount(g) + (if c.Filled? then 1 else 0)
  {
    var n := |g|;
    var u := SetCell(g, row, col, c);
    if row == n - 1 {
      assert u[..n - 1] == g[..n - 1];
      FilledInRowUpdate(g[row], col, c);
    } else {
      assert u[..n - 1] == SetCell(g[..n - 1], row, col, c);
      FilledCountUpdate(g[..n - 1], row, col, c);
    }
  }

  /** A row with no FILLED cell is all EMPTY. */
  lemma {:induction false} NoneFilledInRow(cells: seq<Cell>)
    requires FilledInRow(cells) == 0
    ensures forall j :: 0 <= j < |cells| ==> cells[j] == Empty
  {
    if cells != [] {
      NoneFilledInRow(cells[..|cells| - 1]);
      forall j | 0 <= j < |cells| ensures cells[j] == Empty {
        if j < |cells| - 1 {
          assert cells[j] == cells[..|cells| - 1][j];
        }
      }
    }
  }

  /** A grid with no FILLED cell is the empty grid. */
  lemma {:induction false} NoneFilledIsEmpty(g: Grid, n: nat)
    requires IsGrid(g, n) && FilledCount(g) == 0
    ensures g == EmptyGrid(n)
  {
    NoneFilled(g);
    var e := EmptyGrid(n);
    forall i | 0 <= i < n ensures g[i] == e[i] {
      assert |g[i]| == |e[i]|;
      forall j | 0 <= j < n ensures g[i][j] == e[i][j] {
        assert g[i][j] == Empty;
      }
    }
  }

  lemma {:induction false} NoneFilled(g: Grid)
    requires FilledCount(g) == 0
    ensures forall i, j :: 0 <= i < |g| && 0 <= j < |g[i]| ==> g[i][j] == Empty
  {
    if g != [] {
      var n := |g|;
      NoneFilled(g[..n - 1]);
      NoneFilledInRow(g[n - 1]);
      forall i, j | 0 <= i < n && 0 <= j < |g[i]| ensures g[i][j] == Empty {
        if i < n - 1 {
          assert g[i] == g[..n - 1][i];
        }
      }
    }
  }

  /** The empty grid has no FILLED cell. */
  lemma {:induction false} EmptyGridNoneFilled(n: nat)
    ensures FilledCount(EmptyGrid(n)) == 0
  {
    var g := EmptyGrid(n);
    forall i | 0 <= i < n ensures FilledInRow(g[i]) == 0 {
      AllEmptyRow(g[i]);
    }
    AllEmptyRowsNoneFilled(g);
  }

  lemma {:induction false} AllEmptyRow(cells: seq<Cell>)
    requires forall j :: 0 <= j < |cells| ==> cells[j] == Empty
    ensures FilledInRow(cells) == 0
  {
    if cells != [] {
      AllEmptyRow(cells[..|cells| - 1]);
    }
  }

  lemma {:induction false} AllEmptyRowsNoneFilled(g: Grid)
    requires forall i :: 0 <= i < |g| ==> FilledInRow(g[i]) == 0
    ensures FilledCount(g) == 0
  {
    if g != [] {
      AllEmptyRowsNoneFilled(g[..|g| - 1]);
    }
  }
}
