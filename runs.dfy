/**
 * What a strategy answers over a whole sequence of moves: the column (and
 * fixed row) counters equal the number of moves made on each line, so with
 * distinct in-board cells a win is reported exactly when the mover's symbol
 * fills the line; the row strategy as written keeps no counts at all.
 */
module StrategyRuns {
  import opened Models
  import opened Strategies

  /** A strategy after one `CheckWinner` call per move, in order, with each call's answer. */
  function Run(s: StrategyState, size: int, ms: seq<Move>): (r: (StrategyState, seq<bool>))
    ensures |r.1| == |ms| && r.0.kind == s.kind
  {
    if ms == [] then (s, [])
    else
      var prev := Run(s, size, ms[..|ms| - 1]);
      var (s', won) := Step(prev.0, size, ms[|ms| - 1]);
      (s', prev.1 + [won])
  }

  /** Moves on `line` (for this kind of strategy) by a player with symbol `sym`. */
  function Occurrences(ms: seq<Move>, kind: Kind, line: int, sym: Symbol): nat
  {
    if ms == [] then 0
    else
      var m := ms[|ms| - 1];
      Occurrences(ms[..|ms| - 1], kind, line, sym) + (if Line(kind, m) == line && m.player.symbol == sym then 1 else 0)
  }

  /** The positions along `line` that moves by `sym` have taken. */
  function Positions(ms: seq<Move>, kind: Kind, line: int, sym: Symbol): set<int>
  {
    set i | 0 <= i < |ms| && Line(kind, ms[i]) == line && ms[i].player.symbol == sym :: Across(kind, ms[i])
  }

  /** The answers of a prefix of the moves are the prefix of the answers. */
  lemma {:induction false} RunPrefix(s: StrategyState, size: int, ms: seq<Move>, j: nat)
    requires j <= |ms|
    ensures Run(s, size, ms[..j]).1 == Run(s, size, ms).1[..j]
    decreases |ms|
  {
    if j < |ms| {
      assert ms[..|ms| - 1][..j] == ms[..j];
      RunPrefix(s, size, ms[..|ms| - 1], j);
    } else {
      assert ms[..j] == ms;
    }
  }

  /** A column (or fixed row) strategy's counter is its start value plus the moves made on that line. */
  lemma {:induction false} RunCounts(s: StrategyState, size: int, ms: seq<Move>, line: int, sym: Symbol)
    requires s.kind != RowKind
    ensures Count(Run(s, size, ms).0.counts, line, sym) == Count(s.counts, line, sym) + Occurrences(ms, s.kind, line, sym)
  {
    if ms != [] {
      RunCounts(s, size, ms[..|ms| - 1], line, sym);
    }
  }

  /**
   * From fresh counts, the k-th answer of a column (or fixed row) strategy is
   * true iff the first k+1 moves hold `size` moves by the k-th mover's symbol
   * on the k-th move's line.
   */
  lemma LineAnswer(kind: Kind, size: int, ms: seq<Move>, k: nat)
    requires kind != RowKind && k < |ms|
    ensures Run(StrategyState(kind, map[]), size, ms).1[k] <==>
            Occurrences(ms[..k + 1], kind, Line(kind, ms[k]), ms[k].player.symbol) == size
  {
    var s := StrategyState(kind, map[]);
    RunPrefix(s, size, ms, k + 1);
    assert ms[..k + 1][k] == ms[k];
    LastAnswer(s, size, ms[..k + 1]);
  }

  /**
   * The last answer of a column (or fixed row) strategy is true iff its start
   * count plus the moves on the last move's line by the mover's symbol is `size`.
   */
  lemma LastAnswer(s: StrategyState, size: int, ms: seq<Move>)
    requires s.kind != RowKind && ms != []
    ensures var m := ms[|ms| - 1];
            Run(s, size, ms).1[|ms| - 1] <==>
            Count(s.counts, Line(s.kind, m), m.player.symbol) + Occurrences(ms, s.kind, Line(s.kind, m), m.player.symbol) == size
  {
    var n := |ms|;
    var m := ms[n - 1];
    var line, sym := Line(s.kind, m), m.player.symbol;
    var prev := Run(s, size, ms[..n - 1]);
    assert Run(s, size, ms).1[n - 1] == Step(prev.0, size, m).1;
    RunCounts(s, size, ms[..n - 1], line, sym);
  }

  /**
   * The row strategy as written, started empty, stays empty, and every answer
   * is true iff the board size is 1, whatever the moves.
   */
  lemma {:induction false} RowRunFromEmpty(size: int, ms: seq<Move>)
    ensures Run(StrategyState(RowKind, map[]), size, ms).0.counts == map[]
    ensures forall k :: 0 <= k < |ms| ==> (Run(StrategyState(RowKind, map[]), size, ms).1[k] <==> size == 1)
  {
    if ms != [] {
      RowRunFromEmpty(size, ms[..|ms| - 1]);
    }
  }

  /** From empty counts, `HandleUndo` of the row strategy as written can never have its entry. */
  lemma RowUndoNeverEnabled(size: int, ms: seq<Move>, m: Move)
    ensures m.row !in Run(StrategyState(RowKind, map[]), size, ms).0.counts
  {
    RowRunFromEmpty(size, ms);
  }

  // ---------------------------------------------------------------------
  // Counting positions on a line

  /** The integers 0 .. n-1. */
  function Range(n: int): (r: set<int>)
    ensures forall a :: a in r <==> 0 <= a < n
    ensures n >= 0 ==> |r| == n
  {
    if n <= 0 then {} else Range(n - 1) + {n - 1}
  }

  lemma SubsetSize(a: set<int>, b: set<int>)
    requires a <= b
    ensures |a| <= |b|
    ensures |a| == |b| ==> a == b
  {
    assert b == a + (b - a);
    assert a * (b - a) == {};
    if |a| == |b| {
      assert |b - a| == 0;
    }
  }

  /** The positions of a sequence of moves are those of all but the last, plus the last's if it is on the line. */
  lemma PositionsSnoc(ms: seq<Move>, kind: Kind, line: int, sym: Symbol)
    requires ms != []
    ensures var m := ms[|ms| - 1];
            Positions(ms, kind, line, sym) ==
            Positions(ms[..|ms| - 1], kind, line, sym) +
              (if Line(kind, m) == line && m.player.symbol == sym then {Across(kind, m)} else {})
  {
    var n := |ms|;
    var p := ms[..n - 1];
    var m := ms[n - 1];
    var hit := Line(kind, m) == line && m.player.symbol == sym;
    forall a | a in Positions(ms, kind, line, sym)
      ensures a in Positions(p, kind, line, sym) + (if hit then {Across(kind, m)} else {})
    {
      var i :| 0 <= i < n && Line(kind, ms[i]) == line && ms[i].player.symbol == sym && Across(kind, ms[i]) == a;
      if i < n - 1 { assert p[i] == ms[i]; }
    }
    forall a | a in Positions(p, kind, line, sym) ensures a in Positions(ms, kind, line, sym) {
      var i :| 0 <= i < n - 1 && Line(kind, p[i]) == line && p[i].player.symbol == sym && Across(kind, p[i]) == a;
      assert ms[i] == p[i];
    }
  }

  lemma DistinctPrefix(ms: seq<Move>, j: nat)
    requires DistinctCells(ms) && j <= |ms|
    ensures DistinctCells(ms[..j])
  {
    forall i, k | 0 <= i < k < j ensures ms[..j][i].row != ms[..j][k].row || ms[..j][i].col != ms[..j][k].col {
      assert ms[..j][i] == ms[i] && ms[..j][k] == ms[k];
    }
  }

  /** With distinct cells, each move on the line takes a different position. */
  lemma {:induction false} PositionsCount(ms: seq<Move>, kind: Kind, line: int, sym: Symbol)
    requires DistinctCells(ms)
    ensures |Positions(ms, kind, line, sym)| == Occurrences(ms, kind, line, sym)
  {
    if ms != [] {
      DistinctPrefix(ms, |ms| - 1);
      PositionsCount(ms[..|ms| - 1], kind, line, sym);
      PositionsGrow(ms, kind, line, sym);
    }
  }

  /** With distinct cells, the last move adds one position iff it is on the line with that symbol. */
  lemma PositionsGrow(ms: seq<Move>, kind: Kind, line: int, sym: Symbol)
    requires DistinctCells(ms) && ms != []
    ensures var m := ms[|ms| - 1];
            |Positions(ms, kind, line, sym)| ==
            |Positions(ms[..|ms| - 1], kind, line, sym)| + (if Line(kind, m) == line && m.player.symbol == sym then 1 else 0)
  {
    var m := ms[|ms| - 1];
    PositionsSnoc(ms, kind, line, sym);
    if Line(kind, m) == line && m.player.symbol == sym {
      NewPosition(ms, kind, line, sym);
    }
  }

  /** With distinct cells, the last move on the line takes a position no earlier move by that symbol took. */
  lemma NewPosition(ms: seq<Move>, kind: Kind, line: int, sym: Symbol)
    requires DistinctCells(ms) && ms != []
    requires Line(kind, ms[|ms| - 1]) == line
    ensures Across(kind, ms[|ms| - 1]) !in Positions(ms[..|ms| - 1], kind, line, sym)
  {
    var n := |ms|;
    var p := ms[..n - 1];
    forall i | 0 <= i < n - 1 && Line(kind, p[i]) == line
      ensures Across(kind, p[i]) != Across(kind, ms[n - 1])
    {
      assert ms[i] == p[i];
    }
  }

  /** With distinct cells on the board, no line holds more than `size` moves of one symbol. */
  lemma OccurrencesAtMostSize(ms: seq<Move>, size: nat, kind: Kind, line: int, sym: Symbol)
    requires DistinctCells(ms) && OnBoard(ms, size)
    ensures Occurrences(ms, kind, line, sym) <= size
  {
    PositionsCount(ms, kind, line, sym);
    SubsetSize(Positions(ms, kind, line, sym), Range(size));
  }

  /** From fresh counts, with one call per distinct on-board cell, no column (or fixed row) counter exceeds `size`. */
  lemma CountAtMostSize(kind: Kind, size: nat, ms: seq<Move>, line: int, sym: Symbol)
    requires kind != RowKind
    requires DistinctCells(ms) && OnBoard(ms, size)
    ensures Count(Run(StrategyState(kind, map[]), size, ms).0.counts, line, sym) <= size
  {
    RunCounts(StrategyState(kind, map[]), size, ms, line, sym);
    OccurrencesAtMostSize(ms, size, kind, line, sym);
  }

  /** With distinct cells on the board, `size` moves of one symbol on a line are exactly a full line. */
  lemma LineFullIff(ms: seq<Move>, size: nat, kind: Kind, line: int, sym: Symbol)
    requires DistinctCells(ms) && OnBoard(ms, size)
    ensures Occurrences(ms, kind, line, sym) == size <==> Positions(ms, kind, line, sym) == Range(size)
  {
    PositionsCount(ms, kind, line, sym);
    SubsetSize(Positions(ms, kind, line, sym), Range(size));
  }

  /**
   * From fresh counts and with distinct cells on the board, the column (or
   * fixed row) strategy's answer for the k-th move is true iff, after that
   * move, the mover's symbol occupies every cell of the move's line.
   */
  lemma LineWinIffFull(kind: Kind, size: nat, ms: seq<Move>, k: nat)
    requires kind != RowKind && k < |ms|
    requires DistinctCells(ms) && OnBoard(ms, size)
    ensures Run(StrategyState(kind, map[]), size, ms).1[k] <==>
            Positions(ms[..k + 1], kind, Line(kind, ms[k]), ms[k].player.symbol) == Range(size)
  {
    DistinctPrefix(ms, k + 1);
    LineAnswer(kind, size, ms, k);
    LineFullIff(ms[..k + 1], size, kind, Line(kind, ms[k]), ms[k].player.symbol);
  }

  /**
   * On a 3 x 3 board, X's third move completing row 0 is not reported by the
   * row strategy as written; the fixed row strategy reports it.
   */
  lemma CompletedRowExample(x: Player)
    ensures var ms := [Move(0, 0, x), Move(0, 1, x), Move(0, 2, x)];
            Run(StrategyState(RowKind, map[]), 3, ms).1 == [false, false, false] &&
            Run(StrategyState(FixedRowKind, map[]), 3, ms).1 == [false, false, true]
  {
    var ms := [Move(0, 0, x), Move(0, 1, x), Move(0, 2, x)];
    var sym := x.symbol;
    RowRunFromEmpty(3, ms);
    assert ms[..3] == ms;
    assert ms[..2][..1] == ms[..1];
    assert ms[..1][..0] == [];
    assert Occurrences(ms[..1], FixedRowKind, 0, sym) == 1;
    assert Occurrences(ms[..2], FixedRowKind, 0, sym) == 2;
    LineAnswer(FixedRowKind, 3, ms, 0);
    LineAnswer(FixedRowKind, 3, ms, 1);
    LineAnswer(FixedRowKind, 3, ms, 2);
  }
}
