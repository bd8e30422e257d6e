/**
 * Incremental win detection. Each strategy keeps, per line (a column or a
 * row), a count of how many cells of that line each symbol has filled, and
 * reports a win when a count reaches the board size.
 */
module Strategies {
  import opened Models

  /** Line index -> symbol -> number of cells of that line the symbol holds. */
  type Counts = map<int, map<Symbol, int>>

  /** The counter for (line, sym); an absent line or symbol reads as 0. */
  function Count(counts: Counts, line: int, sym: Symbol): int
  {
    if line in counts && sym in counts[line] then counts[line][sym] else 0
  }

  /**
   * The counter for (line, sym) raised by one; the inner map of a line is
   * created the first time the line is seen, and no entry is ever removed.
   */
  function Incremented(counts: Counts, line: int, sym: Symbol): (r: Counts)
    ensures r.Keys == counts.Keys + {line}
    ensures forall l :: l in counts ==> counts[l].Keys <= r[l].Keys
    ensures sym in r[line]
    ensures forall l, s :: Count(r, l, s) == Count(counts, l, s) + (if l == line && s == sym then 1 else 0)
  {
    var inner := if line in counts then counts[line] else map[];
    counts[line := inner[sym := Count(counts, line, sym) + 1]]
  }

  /** The counter for (line, sym), which must exist, lowered by one; nothing else changes. */
  function Decremented(counts: Counts, line: int, sym: Symbol): (r: Counts)
    requires line in counts && sym in counts[line]
    ensures r.Keys == counts.Keys
    ensures forall l :: l in counts ==> r[l].Keys == counts[l].Keys
    ensures forall l, s :: Count(r, l, s) == Count(counts, l, s) - (if l == line && s == sym then 1 else 0)
  {
    counts[line := counts[line][sym := counts[line][sym] - 1]]
  }

  /** Raising a counter and then lowering it gives every counter back its old value. */
  lemma IncrementThenDecrement(counts: Counts, line: int, sym: Symbol)
    ensures var up := Incremented(counts, line, sym);
            line in up && sym in up[line] &&
            forall l, s :: Count(Decremented(up, line, sym), l, s) == Count(counts, l, s)
  {
  }

  /** The column strategy; it is correct. */
  class ColWinningStrategy {
    var counts: Counts

    constructor ()
      ensures counts == map[]
    {
      counts := map[];
    }

    /** Counts the move in its column; a win when the mover's symbol now fills `size` cells of it. */
    method CheckWinner(size: int, move: Move) returns (won: bool)
      modifies this
      ensures counts == Incremented(old(counts), move.col, move.player.symbol)
      ensures won <==> Count(counts, move.col, move.player.symbol) == size
    {
      var col := move.col;
      var symbol := move.player.symbol;
      if col !in counts {
        counts := counts[col := map[]];
      }
      var colMap := counts[col];
      colMap := colMap[symbol := (if symbol in colMap then colMap[symbol] else 0) + 1];
      counts := counts[col := colMap];
      won := colMap[symbol] == size;
    }

    /** Takes the move back out of its column's count; the entry must exist. */
    method HandleUndo(move: Move)
      requires move.col in counts && move.player.symbol in counts[move.col]
      modifies this
      ensures counts == Decremented(old(counts), move.col, move.player.symbol)
    {
      var col := move.col;
      var symbol := move.player.symbol;
      var colMap := counts[col];
      colMap := colMap[symbol := colMap[symbol] - 1];
      counts := counts[col := colMap];
    }
  }

  /**
   * The row strategy as written. Its lookup returns a fresh inner map for a
   * row not yet in `counts`, and that map is never stored: the count made on
   * it is lost. Only a row already present would be updated (the stored map
   * is shared), and no operation of this class ever adds a row.
   */
  class RowWinningStrategy {
    var counts: Counts

    constructor ()
      ensures counts == map[]
    {
      counts := map[];
    }

    method CheckWinner(size: int, move: Move) returns (won: bool)
      modifies this
      ensures counts.Keys == old(counts).Keys
      ensures counts == if move.row in old(counts)
                        then Incremented(old(counts), move.row, move.player.symbol)
                        else old(counts)
      ensures won <==> Count(old(counts), move.row, move.player.symbol) + 1 == size
    {
      var row := move.row;
      var symbol := move.player.symbol;
      var stored := row in counts;
      var rowMap := if stored then counts[row] else map[];
      rowMap := rowMap[symbol := (if symbol in rowMap then rowMap[symbol] else 0) + 1];
      if stored {
        // the map updated is the one held by `counts`
        counts := counts[row := rowMap];
      }
      won := rowMap[symbol] == size;
    }

    /** Takes the move back out of its row's count; the entry must exist. */
    method HandleUndo(move: Move)
      requires move.row in counts && move.player.symbol in counts[move.row]
      modifies this
      ensures counts == Decremented(old(counts), move.row, move.player.symbol)
    {
      var row := move.row;
      var symbol := move.player.symbol;
      var rowMap := counts[row];
      rowMap := rowMap[symbol := rowMap[symbol] - 1];
      counts := counts[row := rowMap];
    }
  }

  /** The row strategy with its counts kept per row, as the column strategy keeps them per column. */
  class FixedRowWinningStrategy {
    var counts: Counts

    constructor ()
      ensures counts == map[]
    {
      counts := map[];
    }

    method CheckWinner(size: int, move: Move) returns (won: bool)
      modifies this
      ensures counts == Incremented(old(counts), move.row, move.player.symbol)
      ensures won <==> Count(counts, move.row, move.player.symbol) == size
    {
      var row := move.row;
      var symbol := move.player.symbol;
      if row !in counts {
        counts := counts[row := map[]];
      }
      var rowMap := counts[row];
      rowMap := rowMap[symbol := (if symbol in rowMap then rowMap[symbol] else 0) + 1];
      counts := counts[row := rowMap];
      won := rowMap[symbol] == size;
    }

    method HandleUndo(move: Move)
      requires move.row in counts && move.player.symbol in counts[move.row]
      modifies this
      ensures counts == Decremented(old(counts), move.row, move.player.symbol)
    {
      var row := move.row;
      var symbol := move.player.symbol;
      var rowMap := counts[row];
      rowMap := rowMap[symbol := rowMap[symbol] - 1];
      counts := counts[row := rowMap];
    }
  }

  // ---------------------------------------------------------------------
  // The strategies as values, for specifying a game's list of strategies

  datatype Kind = RowKind | ColKind | FixedRowKind

  /** A strategy's variant and its counts. */
  datatype StrategyState = StrategyState(kind: Kind, counts: Counts)

  /** The line a strategy of this kind counts the move in. */
  function Line(kind: Kind, m: Move): int
  {
    if kind == ColKind then m.col else m.row
  }

  /** The position of the move along its line. */
  function Across(kind: Kind, m: Move): int
  {
    if kind == ColKind then m.row else m.col
  }

  /** What one `CheckWinner` call does to a strategy of each kind: new state and answer. */
  function Step(s: StrategyState, size: int, m: Move): (StrategyState, bool)
  {
    var line, sym := Line(s.kind, m), m.player.symbol;
    var counts' := if s.kind == RowKind && line !in s.counts then s.counts
                   else Incremented(s.counts, line, sym);
    (StrategyState(s.kind, counts'), Count(s.counts, line, sym) + 1 == size)
  }

  /** A reference to one strategy object of a game's list. */
  datatype StrategyRef =
    | Row(row: RowWinningStrategy)
    | Col(col: ColWinningStrategy)
    | FixedRow(fixedRow: FixedRowWinningStrategy)
  {
    function Obj(): object
    {
      match this
      case Row(s) => s
      case Col(s) => s
      case FixedRow(s) => s
    }

    ghost function State(): StrategyState
      reads Obj()
    {
      match this
      case Row(s) => StrategyState(RowKind, s.counts)
      case Col(s) => StrategyState(ColKind, s.counts)
      case FixedRow(s) => StrategyState(FixedRowKind, s.counts)
    }

    /** Calls the referenced strategy's `CheckWinner`; no other object changes. */
    method CheckWinner(size: int, move: Move) returns (won: bool)
      modifies Obj()
      ensures (State(), won) == Step(old(State()), size, move)
    {
      match this
      case Row(s) => won := s.CheckWinner(size, move);
      case Col(s) => won := s.CheckWinner(size, move);
      case FixedRow(s) => won := s.CheckWinner(size, move);
    }
  }

  /** The current states of a list of strategies. */
  ghost function States(refs: seq<StrategyRef>): (r: seq<StrategyState>)
    reads set i | 0 <= i < |refs| :: refs[i].Obj()
    ensures |r| == |refs| && forall i :: 0 <= i < |refs| ==> r[i] == refs[i].State()
  {
    if refs == [] then [] else [refs[0].State()] + States(refs[1..])
  }

  lemma UpdateAfterPrefix<T>(done: seq<T>, rest: seq<T>, x: T)
    requires rest != []
    ensures (done + rest)[|done| := x] == done + [x] + rest[1..]
  {
  }

  /** Asks strategy i of the list about the move; only its state changes. */
  method AskOne(refs: seq<StrategyRef>, i: nat, size: int, move: Move) returns (won: bool)
    requires Distinct(refs) && i < |refs|
    modifies refs[i].Obj()
    ensures States(refs) == old(States(refs))[i := Step(old(States(refs))[i], size, move).0]
    ensures won == Step(old(States(refs))[i], size, move).1
  {
    ghost var now := States(refs);
    won := refs[i].CheckWinner(size, move);
    forall j | 0 <= j < |refs| && j != i ensures refs[j].State() == now[j] {
      assert refs[j].Obj() != refs[i].Obj();
      assert unchanged(refs[j].Obj());
    }
  }

  /** The objects of a list of strategies. */
  function Objects(refs: seq<StrategyRef>): set<object>
  {
    set i | 0 <= i < |refs| :: refs[i].Obj()
  }

  /** No strategy object appears twice in the list. */
  predicate Distinct(refs: seq<StrategyRef>)
  {
    forall i, j :: 0 <= i < j < |refs| ==> refs[i].Obj() != refs[j].Obj()
  }

  /**
   * Asking the strategies in order whether the move wins, stopping at the
   * first one that answers true: the new states and the answer.
   */
  function Consult(ss: seq<StrategyState>, size: int, m: Move): (r: (seq<StrategyState>, bool))
    ensures |r.0| == |ss|
  {
    if ss == [] then ([], false)
    else
      var (s', won) := Step(ss[0], size, m);
      if won then ([s'] + ss[1..], true)
      else
        var rest := Consult(ss[1..], size, m);
        ([s'] + rest.0, rest.1)
  }

  /**
   * One step of consulting the strategies in order: if the answers of those
   * before position i were all no (their new states being `done`), strategy
   * i is asked next, and the consultation ends there iff it says yes.
   */
  lemma ConsultStep(ss: seq<StrategyState>, size: int, m: Move, i: nat, done: seq<StrategyState>)
    requires i < |ss|
    requires Consult(ss, size, m) == (done + Consult(ss[i..], size, m).0, Consult(ss[i..], size, m).1)
    ensures var (s', won) := Step(ss[i], size, m);
            if won then Consult(ss, size, m) == (done + [s'] + ss[i + 1..], true)
            else Consult(ss, size, m) == (done + [s'] + Consult(ss[i + 1..], size, m).0, Consult(ss[i + 1..], size, m).1)
  {
    assert ss[i..][0] == ss[i];
    assert ss[i..][1..] == ss[i + 1..];
    var (s', won) := Step(ss[i], size, m);
    var rest := Consult(ss[i + 1..], size, m);
    if won {
      assert Consult(ss[i..], size, m) == ([s'] + ss[i + 1..], true);
      assert done + ([s'] + ss[i + 1..]) == done + [s'] + ss[i + 1..];
    } else {
      assert Consult(ss[i..], size, m) == ([s'] + rest.0, rest.1);
      assert done + ([s'] + rest.0) == done + [s'] + rest.0;
    }
  }

  /** No strategy before position j answers true, so strategy j is asked. */
  predicate Asked(ss: seq<StrategyState>, size: int, m: Move, j: int)
    requires j <= |ss|
  {
    forall k :: 0 <= k < j ==> !Step(ss[k], size, m).1
  }

  /** The move wins iff some strategy in the list answers true for it. */
  lemma {:induction false} ConsultWinsIff(ss: seq<StrategyState>, size: int, m: Move)
    ensures Consult(ss, size, m).1 <==> exists j :: 0 <= j < |ss| && Step(ss[j], size, m).1
  {
    if ss != [] && !Step(ss[0], size, m).1 {
      ConsultWinsIff(ss[1..], size, m);
      if exists j :: 0 <= j < |ss| && Step(ss[j], size, m).1 {
        var j :| 0 <= j < |ss| && Step(ss[j], size, m).1;
        assert ss[1..][j - 1] == ss[j];
      }
    }
  }

  /**
   * A strategy is asked, and takes one step of its kind, iff no strategy
   * before it answered true; every strategy after the first true keeps its
   * state.
   */
  lemma {:induction false} ConsultStates(ss: seq<StrategyState>, size: int, m: Move, j: int)
    requires 0 <= j < |ss|
    ensures Consult(ss, size, m).0[j] == if Asked(ss, size, m, j) then Step(ss[j], size, m).0 else ss[j]
  {
    if j == 0 {
      assert Asked(ss, size, m, 0);
      assert Consult(ss, size, m).0[0] == Step(ss[0], size, m).0;
    } else {
      var s0 := Step(ss[0], size, m).0;
      if Step(ss[0], size, m).1 {
        assert Consult(ss, size, m).0 == [s0] + ss[1..];
        assert Consult(ss, size, m).0[j] == ss[j];
        assert !Asked(ss, size, m, j);
      } else {
        var rest := Consult(ss[1..], size, m);
        assert Consult(ss, size, m).0 == [s0] + rest.0;
        assert Consult(ss, size, m).0[j] == rest.0[j - 1];
        ConsultStates(ss[1..], size, m, j - 1);
        AskedTail(ss, size, m, j);
        assert ss[1..][j - 1] == ss[j];
        if Asked(ss, size, m, j) {
          assert Consult(ss, size, m).0[j] == Step(ss[j], size, m).0;
        } else {
          assert Consult(ss, size, m).0[j] == ss[j];
        }
      }
    }
  }

  /** When the first strategy answers no, strategy j is asked iff it is asked among the rest. */
  lemma AskedTail(ss: seq<StrategyState>, size: int, m: Move, j: int)
    requires 0 < j <= |ss| && !Step(ss[0], size, m).1
    ensures Asked(ss, size, m, j) <==> Asked(ss[1..], size, m, j - 1)
  {
    if Asked(ss[1..], size, m, j - 1) {
      forall k | 0 <= k < j ensures !Step(ss[k], size, m).1 {
        if k > 0 { assert ss[k] == ss[1..][k - 1]; }
      }
    }
    if Asked(ss, size, m, j) {
      forall k | 0 <= k < j - 1 ensures !Step(ss[1..][k], size, m).1 {
        assert ss[1..][k] == ss[k + 1];
      }
    }
  }
}
