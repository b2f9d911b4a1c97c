/** The game engine: a map from game id to game, changed only by creating,
    rolling, holding, resetting and deleting, and read by three queries.
    The game id, the dice and the clock are supplied by the caller. */
module GameEngine {
  import opened Wrappers
  import opened Keys
  import opened Game

  /** The stored games whose either seat is occupied by `userId`, in order. */
  function UserGamesIn(gs: seq<GameState>, userId: string): (r: seq<GameState>)
    ensures forall g :: g in r <==> g in gs && HasUser(g, userId)
    ensures |r| <= |gs|
  {
    if gs == [] then []
    else if HasUser(gs[0], userId) then [gs[0]] + UserGamesIn(gs[1..], userId)
    else UserGamesIn(gs[1..], userId)
  }

  /** The filter keeps every copy of a game in which the account has a seat,
      and no copy of any other game. */
  lemma {:induction false} UserGamesInCount(gs: seq<GameState>, userId: string)
    ensures forall g ::
              multiset(UserGamesIn(gs, userId))[g] == if HasUser(g, userId) then multiset(gs)[g] else 0
    decreases |gs|
  {
    if gs != [] {
      var rest := UserGamesIn(gs[1..], userId);
      UserGamesInCount(gs[1..], userId);
      assert gs == [gs[0]] + gs[1..];
      assert multiset(gs) == multiset([gs[0]]) + multiset(gs[1..]);
      if HasUser(gs[0], userId) {
        assert multiset([gs[0]] + rest) == multiset([gs[0]]) + multiset(rest);
      }
    }
  }

  /** Filtering a concatenation filters each part and keeps them in order. */
  lemma {:induction false} UserGamesInAppend(a: seq<GameState>, b: seq<GameState>, userId: string)
    ensures UserGamesIn(a + b, userId) == UserGamesIn(a, userId) + UserGamesIn(b, userId)
    decreases |a|
  {
    if a == [] {
      assert a + b == b;
    } else {
      assert (a + b)[0] == a[0];
      assert (a + b)[1..] == a[1..] + b;
      UserGamesInAppend(a[1..], b, userId);
    }
  }

  /** The positions strictly increase. */
  predicate Increasing(p: seq<int>)
  {
    forall i, j :: 0 <= i < j < |p| ==> p[i] < p[j]
  }

  /** Every position moved one place on. */
  function Shift(q: seq<int>): (r: seq<int>)
    ensures |r| == |q| && forall i :: 0 <= i < |q| ==> r[i] == q[i] + 1
  {
    if q == [] then [] else [q[0] + 1] + Shift(q[1..])
  }

  /** Moving increasing non-negative positions one place on keeps them
      increasing, and leaves room for position 0 in front. */
  lemma ShiftIncreasing(q: seq<int>, s: seq<int>)
    requires Increasing(q) && forall i :: 0 <= i < |q| ==> 0 <= q[i]
    requires |s| == |q| && forall i :: 0 <= i < |q| ==> s[i] == q[i] + 1
    ensures Increasing(s) && Increasing([0] + s)
  {
    var t := [0] + s;
    forall i, j | 0 <= i < j < |t|
      ensures t[i] < t[j]
    {
      assert t[j] == s[j - 1];
      if i > 0 {
        assert t[i] == s[i - 1];
      }
    }
  }

  /** Where the filter's results come from: the `i`th kept game is the input's
      game at position `p[i]`, and the positions strictly increase, so the
      filter keeps the games in the order they came. */
  lemma {:induction false} KeptAt(gs: seq<GameState>, userId: string) returns (p: seq<int>)
    ensures |p| == |UserGamesIn(gs, userId)|
    ensures forall i :: 0 <= i < |p| ==> 0 <= p[i] < |gs| && gs[p[i]] == UserGamesIn(gs, userId)[i]
    ensures Increasing(p)
    decreases |gs|
  {
    if gs == [] {
      p := [];
    } else {
      var q := KeptAt(gs[1..], userId);
      var rest := UserGamesIn(gs[1..], userId);
      var r := UserGamesIn(gs, userId);
      var shifted := Shift(q);
      ShiftIncreasing(q, shifted);
      forall i | 0 <= i < |q|
        ensures 0 < shifted[i] < |gs| && gs[shifted[i]] == rest[i]
      {
        assert gs[shifted[i]] == gs[1..][q[i]];
      }
      if HasUser(gs[0], userId) {
        assert r == [gs[0]] + rest;
        p := [0] + shifted;
        forall i | 0 < i < |p|
          ensures 0 <= p[i] < |gs| && gs[p[i]] == r[i]
        {
          assert p[i] == shifted[i - 1] && r[i] == rest[i - 1];
        }
      } else {
        assert r == rest;
        p := shifted;
      }
    }
  }

  /** `gs` lists games of distinct ids, in the order their ids take in `order`. */
  ghost predicate FollowsOrder(gs: seq<GameState>, order: seq<string>)
  {
    forall i, j :: 0 <= i < j < |gs| ==>
      gs[i].id != gs[j].id &&
      exists a, b :: 0 <= a < b < |order| && order[a] == gs[i].id && order[b] == gs[j].id
  }

  /** Filtering games listed in a duplicate-free id order: each kept game
      occurs once, and any two kept games come in the order of their ids. */
  lemma FilterFollowsOrder(all: seq<GameState>, order: seq<string>, userId: string)
    requires |all| == |order| && NoDup(order)
    requires forall i :: 0 <= i < |all| ==> all[i].id == order[i]
    ensures FollowsOrder(UserGamesIn(all, userId), order)
  {
    var r := UserGamesIn(all, userId);
    var p := KeptAt(all, userId);
    forall i, j | 0 <= i < j < |r|
      ensures r[i].id != r[j].id
      ensures exists a, b :: 0 <= a < b < |order| && order[a] == r[i].id && order[b] == r[j].id
    {
      var a, b := p[i], p[j];
      assert order[a] == r[i].id && order[b] == r[j].id;
    }
  }

  /** What holds of the engine's map and its iteration order after every call:
      each game is filed under its own id and is valid, and the order lists
      each stored id once. */
  ghost predicate ValidStore(games: map<string, GameState>, order: seq<string>)
  {
    (forall id :: id in games ==> ValidGame(games[id])) &&
    Indexed(games, order)
  }

  /** Each game is filed under its own id, and the order lists each stored
      id once. */
  ghost predicate Indexed(games: map<string, GameState>, order: seq<string>)
  {
    (forall id :: id in games ==> games[id].id == id) &&
    NoDup(order) &&
    (forall id :: id in order <==> id in games)
  }

  /** Replacing a stored game by a valid game with the same id keeps the store valid. */
  lemma ReplaceKeepsStore(games: map<string, GameState>, order: seq<string>, g: GameState)
    requires ValidStore(games, order) && g.id in games && ValidGame(g)
    ensures ValidStore(games[g.id := g], order)
  {
  }

  class GameService {
    var games: map<string, GameState>
    /** The ids of `games` in insertion order. */
    var order: seq<string>

    ghost predicate Valid()
      reads this
    {
      ValidStore(games, order)
    }

    constructor ()
      ensures Valid() && games == map[] && order == []
    {
      games := map[];
      order := [];
    }

    /** Stores a new game under the fresh id `gameId`; `winningScore` is
        `DefaultWinningScore` when none is given. */
    method CreateGame(gameId: string, player1: Player, player2: Player, winningScore: Option<int>, now: int)
      returns (g: GameState)
      requires Valid() && gameId !in games
      modifies this
      ensures Valid()
      ensures g == InitialGame(gameId, player1, player2,
                               if winningScore.Some? then winningScore.value else DefaultWinningScore, now)
      ensures games == old(games)[gameId := g] && order == old(order) + [gameId]
    {
      var threshold := if winningScore.Some? then winningScore.value else DefaultWinningScore;
      g := GameState(gameId, player1, player2, player1.id, 0, 0, 0, 0, threshold, Active, None, now, now);
      games := games[gameId := g];
      order := order + [gameId];
    }

    function GetGame(gameId: string): (r: Option<GameState>)
      reads this
      requires Valid()
      ensures r.Some? <==> gameId in games
      ensures r.Some? ==> r.value == games[gameId] && r.value.id == gameId && ValidGame(r.value)
    {
      if gameId in games then Some(games[gameId]) else None
    }

    /** Every stored game once, in insertion order. */
    function GetAllGames(): (r: seq<GameState>)
      reads this
      requires Indexed(games, order)
      ensures |r| == |order| == |games|
      ensures forall i :: 0 <= i < |r| ==> r[i] == games[order[i]]
      ensures forall g :: g in r <==> g in games.Values
    {
      OrderCoversMap(order, games);
      var r := ValuesAt(order, games);
      assert forall g :: g in games.Values ==> g in r by {
        forall g | g in games.Values
          ensures g in r
        {
          var id :| id in games && games[id] == g;
          var i :| 0 <= i < |order| && order[i] == id;
          assert r[i] == g;
        }
      }
      r
    }

    /** The stored games in which `userId` occupies a seat. */
    function GetUserGames(userId: string): (r: seq<GameState>)
      reads this
      requires Indexed(games, order)
      ensures forall g :: g in r <==> g in games.Values && HasUser(g, userId)
      ensures forall id :: id in games && HasUser(games[id], userId) ==> games[id] in r
      ensures FollowsOrder(r, order)
    {
      var all := GetAllGames();
      FilterFollowsOrder(all, order, userId);
      UserGamesIn(all, userId)
    }

    method RollDice(gameId: string, userId: string, die1: int, die2: int, now: int)
      returns (r: Result<RollDiceResponse, GameError>)
      requires Valid() && IsDie(die1) && IsDie(die2)
      modifies this
      ensures Valid() && order == old(order)
      ensures var c := CheckTurn(old(games), gameId, userId);
        (c.Failure? ==> r == Failure(c.error) && games == old(games)) &&
        (c.Success? ==> r == Success(ApplyRoll(c.value, die1, die2, now)) &&
                        games == old(games)[gameId := r.value.gameState])
    {
      if gameId !in games {
        return Failure(GameNotFound);
      }
      var game := games[gameId];
      if game.status != Active {
        return Failure(GameNotActive);
      }
      var currentPlayer := if game.currentPlayerId == game.player1.id then game.player1 else game.player2;
      if currentPlayer.userId != userId {
        return Failure(NotYourTurn);
      }

      ghost var before := game;
      var dice := DiceRoll(die1, die2, now);
      var isDoubleSix := die1 == 6 && die2 == 6;
      var roundScore := die1 + die2;
      if isDoubleSix {
        if game.currentPlayerId == game.player1.id {
          game := game.(player1RoundScore := 0);
          game := game.(currentPlayerId := game.player2.id);
        } else {
          game := game.(player2RoundScore := 0);
          game := game.(currentPlayerId := game.player1.id);
        }
      } else {
        if game.currentPlayerId == game.player1.id {
          game := game.(player1RoundScore := game.player1RoundScore + roundScore);
          roundScore := game.player1RoundScore;
        } else {
          game := game.(player2RoundScore := game.player2RoundScore + roundScore);
          roundScore := game.player2RoundScore;
        }
      }
      game := game.(updatedAt := now);
      assert RollDiceResponse(dice, roundScore, isDoubleSix, game) == ApplyRoll(before, die1, die2, now);
      RollKeepsValid(before, die1, die2, now);
      ReplaceKeepsStore(games, order, game);
      assert CheckTurn(games, gameId, userId) == Success(before);
      games := games[gameId := game];
      r := Success(RollDiceResponse(dice, roundScore, isDoubleSix, game));
    }

    method Hold(gameId: string, userId: string, now: int) returns (r: Result<HoldResponse, GameError>)
      requires Valid()
      modifies this
      ensures Valid() && order == old(order)
      ensures var c := CheckTurn(old(games), gameId, userId);
        (c.Failure? ==> r == Failure(c.error) && games == old(games)) &&
        (c.Success? ==> r == Success(ApplyHold(c.value, now)) &&
                        games == old(games)[gameId := r.value.gameState])
    {
      if gameId !in games {
        return Failure(GameNotFound);
      }
      var game := games[gameId];
      if game.status != Active {
        return Failure(GameNotActive);
      }
      var currentPlayer := if game.currentPlayerId == game.player1.id then game.player1 else game.player2;
      if currentPlayer.userId != userId {
        return Failure(NotYourTurn);
      }

      ghost var before := game;
      if game.currentPlayerId == game.player1.id {
        game := game.(player1Score := game.player1Score + game.player1RoundScore);
        game := game.(player1RoundScore := 0);
        game := game.(currentPlayerId := game.player2.id);
      } else {
        game := game.(player2Score := game.player2Score + game.player2RoundScore);
        game := game.(player2RoundScore := 0);
        game := game.(currentPlayerId := game.player1.id);
      }
      assert game == Bank(before);

      var isGameOver := false;
      var winnerId: Option<string> := None;
      if game.player1Score >= game.winningScore {
        isGameOver := true;
        game := game.(status := Finished, winnerId := Some(game.player1.id));
        winnerId := Some(game.player1.userId);
      } else if game.player2Score >= game.winningScore {
        isGameOver := true;
        game := game.(status := Finished, winnerId := Some(game.player2.id));
        winnerId := Some(game.player2.userId);
      }
      assert HoldResponse(game, isGameOver, winnerId) == WinCheck(Bank(before));
      game := game.(updatedAt := now);
      assert HoldResponse(game, isGameOver, winnerId) == ApplyHold(before, now);
      HoldKeepsValid(before, now);
      ReplaceKeepsStore(games, order, game);
      assert CheckTurn(games, gameId, userId) == Success(before);
      games := games[gameId := game];
      r := Success(HoldResponse(game, isGameOver, winnerId));
    }

    /** Resets a game, finished or not, for a caller who occupies a seat. */
    method NewGame(gameId: string, userId: string, winningScore: Option<int>, now: int)
      returns (r: Result<GameState, GameError>)
      requires Valid()
      modifies this
      ensures Valid() && order == old(order)
      ensures var c := CheckMember(old(games), gameId, userId);
        (c.Failure? ==> r == Failure(c.error) && games == old(games)) &&
        (c.Success? ==> r == Success(ApplyReset(c.value, winningScore, now)) &&
                        games == old(games)[gameId := r.value])
    {
      if gameId !in games {
        return Failure(GameNotFound);
      }
      var game := games[gameId];
      if game.player1.userId != userId && game.player2.userId != userId {
        return Failure(NotPartOfGame);
      }

      game := game.(currentPlayerId := game.player1.id);
      game := game.(player1Score := 0, player2Score := 0);
      game := game.(player1RoundScore := 0, player2RoundScore := 0);
      game := game.(status := Active, winnerId := None);
      if winningScore.Some? {
        game := game.(winningScore := winningScore.value);
      }
      game := game.(updatedAt := now);
      games := games[gameId := game];
      r := Success(game);
    }

    /** Removes a game; reports whether it was there. */
    method DeleteGame(gameId: string) returns (deleted: bool)
      requires Valid()
      modifies this
      ensures Valid()
      ensures deleted == (gameId in old(games))
      ensures games == old(games) - {gameId} && order == Without(old(order), gameId)
      ensures forall i :: 0 <= i < |old(order)| && old(order)[i] == gameId ==>
        order == old(order)[..i] + old(order)[i + 1..]
    {
      forall i | 0 <= i < |order| && order[i] == gameId
        ensures Without(order, gameId) == order[..i] + order[i + 1..]
      {
        WithoutAt(order, gameId, i);
      }
      deleted := gameId in games;
      games := games - {gameId};
      order := Without(order, gameId);
    }
  }
}
