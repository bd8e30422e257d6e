/**
 * Building a game: three fail-fast configuration checks, run in a fixed
 * order (bot count, player count, unique symbols), before a game exists.
 */
module GameBuilder {
  import opened Wrappers
  import opened Models
  import opened Strategies
  import opened Games

  /** The configuration errors `Build` throws. */
  datatype GameError = BotCountMoreThanOne | PlayerCountMismatch | DuplicateSymbol

  /** The number of players of type BOT. */
  function BotCount(players: seq<Player>): nat
  {
    if players == [] then 0
    else BotCount(players[..|players| - 1]) + (if players[|players| - 1].playerType == BOT then 1 else 0)
  }

  /** Some player is a bot iff the bot count is positive. */
  lemma {:induction false} BotCountPositiveIff(players: seq<Player>)
    ensures BotCount(players) > 0 <==> exists i :: 0 <= i < |players| && players[i].playerType == BOT
  {
    if players != [] {
      var n := |players|;
      var p := players[..n - 1];
      BotCountPositiveIff(p);
      if exists i :: 0 <= i < n && players[i].playerType == BOT {
        var i :| 0 <= i < n && players[i].playerType == BOT;
        if i < n - 1 { assert p[i] == players[i]; }
      }
      if exists i :: 0 <= i < n - 1 && p[i].playerType == BOT {
        var i :| 0 <= i < n - 1 && p[i].playerType == BOT;
        assert players[i] == p[i];
      }
    }
  }

  /** More than one bot iff two different players are both bots. */
  lemma {:induction false} TooManyBotsIff(players: seq<Player>)
    ensures BotCount(players) > 1 <==>
            exists i, j :: 0 <= i < j < |players| && players[i].playerType == BOT && players[j].playerType == BOT
  {
    if players != [] {
      var n := |players|;
      var p := players[..n - 1];
      TooManyBotsIff(p);
      BotCountPositiveIff(p);
      if exists i, j :: 0 <= i < j < n && players[i].playerType == BOT && players[j].playerType == BOT {
        var i, j :| 0 <= i < j < n && players[i].playerType == BOT && players[j].playerType == BOT;
        assert p[i] == players[i];
        if j < n - 1 { assert p[j] == players[j]; }
      }
      if BotCount(players) > 1 {
        if BotCount(p) > 1 {
          var i, j :| 0 <= i < j < n - 1 && p[i].playerType == BOT && p[j].playerType == BOT;
          assert players[i] == p[i] && players[j] == p[j];
        } else {
          var i :| 0 <= i < n - 1 && p[i].playerType == BOT;
          assert players[i] == p[i];
          assert players[n - 1].playerType == BOT;
        }
      }
    }
  }

  /** Two different players share a symbol character. */
  predicate HasDuplicateSymbol(players: seq<Player>)
  {
    exists i, j :: 0 <= i < j < |players| && players[i].symbol.aChar == players[j].symbol.aChar
  }

  /** Throws unless there are exactly size - 1 players. */
  function ValidatePlayersCount(players: seq<Player>, size: int): (r: Outcome<GameError>)
    ensures r == Pass <==> |players| == size - 1
    ensures r != Pass ==> r == Fail(PlayerCountMismatch)
  {
    if |players| != size - 1 then Fail(PlayerCountMismatch) else Pass
  }

  /** Counts the bots one player at a time; throws iff there are more than one. */
  method ValidateBotCount(players: seq<Player>) returns (r: Outcome<GameError>)
    ensures r == Pass <==> BotCount(players) <= 1
    ensures r != Pass ==> r == Fail(BotCountMoreThanOne)
  {
    var botCount := 0;
    for i := 0 to |players|
      invariant botCount == BotCount(players[..i])
    {
      assert players[..i + 1][..i] == players[..i];
      if players[i].playerType == BOT {
        botCount := botCount + 1;
      }
    }
    assert players[..|players|] == players;
    if botCount > 1 {
      return Fail(BotCountMoreThanOne);
    }
    return Pass;
  }

  /**
   * Counts each symbol character in a map, one player at a time, and throws
   * as soon as a count exceeds one: iff two players share a character.
   */
  method ValidateUniqueSymbolForPlayer(players: seq<Player>) returns (r: Outcome<GameError>)
    ensures r == Pass <==> !HasDuplicateSymbol(players)
    ensures r != Pass ==> r == Fail(DuplicateSymbol)
  {
    var count: map<char, int> := map[];
    for i := 0 to |players|
      invariant forall c :: c in count ==> count[c] == 1
      invariant forall c :: c in count <==> exists k :: 0 <= k < i && players[k].symbol.aChar == c
      invariant !HasDuplicateSymbol(players[..i])
    {
      var symbol := players[i].symbol.aChar;
      count := count[symbol := (if symbol in count then count[symbol] else 0) + 1];
      if count[symbol] > 1 {
        var k :| 0 <= k < i && players[k].symbol.aChar == symbol;
        assert players[k].symbol.aChar == players[i].symbol.aChar;
        return Fail(DuplicateSymbol);
      }
      ghost var seen := players[..i + 1];
      forall a, b | 0 <= a < b < i + 1 ensures seen[a].symbol.aChar != seen[b].symbol.aChar {
        if b < i {
          assert seen[a] == players[..i][a] && seen[b] == players[..i][b];
        }
      }
    }
    assert players[..|players|] == players;
    return Pass;
  }

  /** The configuration every check accepts. */
  predicate ValidConfig(players: seq<Player>, size: int)
  {
    BotCount(players) <= 1 && |players| == size - 1 && !HasDuplicateSymbol(players)
  }

  /** Runs the bot-count, player-count and unique-symbol checks in order; the first failure is thrown. */
  method Validate(players: seq<Player>, size: int) returns (r: Outcome<GameError>)
    ensures r == Pass <==> ValidConfig(players, size)
    ensures BotCount(players) > 1 ==> r == Fail(BotCountMoreThanOne)
    ensures BotCount(players) <= 1 && |players| != size - 1 ==> r == Fail(PlayerCountMismatch)
    ensures BotCount(players) <= 1 && |players| == size - 1 && HasDuplicateSymbol(players) ==>
              r == Fail(DuplicateSymbol)
  {
    r := ValidateBotCount(players);
    if r.Fail? {
      return;
    }
    r := ValidatePlayersCount(players, size);
    if r.Fail? {
      return;
    }
    r := ValidateUniqueSymbolForPlayer(players);
  }

  /**
   * Validates the configuration and, only if it passes, creates a new game
   * on a size x size board; otherwise throws the first check's error.
   */
  method Build(players: seq<Player>, size: int, winningStrategies: seq<StrategyRef>)
    returns (r: Result<Game, GameError>)
    ensures r.Success? <==> ValidConfig(players, size)
    ensures BotCount(players) > 1 ==> r == Failure(BotCountMoreThanOne)
    ensures BotCount(players) <= 1 && |players| != size - 1 ==> r == Failure(PlayerCountMismatch)
    ensures BotCount(players) <= 1 && |players| == size - 1 && HasDuplicateSymbol(players) ==>
              r == Failure(DuplicateSymbol)
    ensures r.Success? ==>
              var g := r.value;
              fresh(g) && g.Valid() &&
              g.players == players && g.size == size && g.winningStrategies == winningStrategies &&
              g.board == EmptyGrid(size) && g.moves == [] &&
              g.gameState == IN_PROGRESS && g.winner == None && g.nextMovePlayerIndex == 0
  {
    var v := Validate(players, size);
    if v.Fail? {
      return Failure(v.error);
    }
    var g := new Game(players, size, winningStrategies);
    return Success(g);
  }
}
