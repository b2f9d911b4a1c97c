# Dice game engine and user table, in Dafny

This project models the two in-memory services of a two-player dice game
backend (a "Pig"-style game played with two dice).

The **game engine** (`GameService`) keeps a map from game id to game. It
changes a game only by these calls:

- creating a game;
- rolling the dice for the seat whose turn it is;
- holding, which banks the round score and passes the turn, and can end the game;
- resetting a game with `newGame`;
- deleting a game.

`getGame`, `getAllGames` and `getUserGames` only read the map. Every roll or
hold is checked, in this order, for a missing game, a game that is not
active, and a caller whose account is not in the current seat.

The **user table** (`UserService`) keeps every account in two maps, by id and
by username, and refuses a username that is already registered.

Layout:

- `wrappers.dfy`: `Option` and `Result`.
- `keys.dfy`: insertion-ordered key lists. A JavaScript `Map` iterates in
  insertion order, so each service keeps the order of its keys beside the map.
- `game.dfy`: module `Game`. It holds the game record, the invariant
  `ValidGame`, each transition as a function (`CheckTurn`, `ApplyRoll`,
  `ApplyHold`, `ApplyReset`, ...), and lemmas about one call (`Step`) and about
  any sequence of calls (`Play`).
- `game_service.dfy`: module `GameEngine`, with class `GameService`. Its
  methods update their local copy of the game field by field, as the source
  does. Each method's `ensures` ties the result and the new map to the matching
  `Game` function.
- `users.dfy`: module `Users`. It holds the consistency predicate for the two
  indexes, lemmas about it, and class `UserService`.

Inputs that the source takes from the environment are parameters here:

- the dice are `die1`, `die2` in `1..6`;
- the new game id and the new user id are fresh keys;
- `Date.now()` is a `now: int` per call;
- password hashing is a function `hash: string -> string`;
- password comparison is a function `matches: (string, string) -> bool`.

Two behaviours of the code are worth knowing:

- A double-six roll reports `roundScore` 12, not 0. The variable is set to
  `die1 + die2` and the double-six branch never overwrites it.
- After a hold, the win check tests player1's banked score first and player2's
  second, whoever held. It does not test only the acting player.
  - `HoldCrownsActor` proves that the two readings agree whenever neither
    banked score has reached the threshold while the game is active.
  - `newGame` accepts any threshold, so that premise can fail.
    `ZeroThresholdCrownsIdlePlayer` shows a game reset to threshold 0: player2
    holds and player1 is declared the winner.

## Model

| member | source | states |
|---|---|---|
| Game.InitialGame | src/services/game.service.ts:13-26 | a new game is active, has every score 0, the turn on player1's seat, no winner and the given threshold, and satisfies the game invariant (and is below the threshold when that is positive) |
| Game.TurnError | src/services/game.service.ts:52-60 | a roll or hold is refused as not active exactly when the status is not active, as not your turn exactly when the account in the current seat (player1's when `currentPlayerId` is player1's id, else player2's) is not the caller, and allowed otherwise |
| Game.CheckTurn | src/services/game.service.ts:47-60 | the three failures in order: missing id, status not active, wrong account in the current seat; on success the stored game is returned |
| Game.CheckMember | src/services/game.service.ts:155-163 | `newGame` fails for a missing id, and for a caller who is neither player's account; otherwise it proceeds with the stored game |
| Game.ApplyRoll | src/services/game.service.ts:62-98 | a double six zeroes the current seat's round score, gives the turn to the other seat and reports 12; any other roll adds `die1+die2` to the current seat's round score, keeps the turn and reports the new round score; the other seat, the banked scores, status, winner, threshold and players never change |
| Game.Bank | src/services/game.service.ts:117-126 | the current seat's round score is added to its banked score and zeroed, the turn passes to the other seat, the other seat's scores are untouched and nothing else changes |
| Game.WinCheck | src/services/game.service.ts:128-142 | the game ends exactly when a banked score reaches the threshold; player1 is checked first, its seat id becomes `winnerId` and its account is reported; player2 wins only if player1 has not reached it; otherwise nothing changes and no winner is reported |
| Game.ApplyHold | src/services/game.service.ts:117-151 | the current seat's round score is added to its banked score and zeroed, the turn passes to the other seat, the other seat's scores are untouched, then the win check decides `isGameOver`, status and winner; the seats, threshold and id never change |
| Game.ApplyReset | src/services/game.service.ts:165-181 | whatever the prior state: all scores 0, status active, no winner, turn on player1's seat; the threshold is replaced only when one is supplied, unchecked; the result satisfies the game invariant |
| Game.RollKeepsValid | src/services/game.service.ts:62-91 | a roll on an active valid game keeps the invariant (turn on one of the two seats, scores non-negative, only the current seat holds a round score, winner set iff finished) and keeps the game below its threshold |
| Game.HoldKeepsValid | src/services/game.service.ts:117-145 | a hold on an active valid game keeps the invariant, including "a finished game has a winner and a banked score at the threshold" |
| Game.HoldCrownsActor | src/services/game.service.ts:129-142 | if no banked score has reached the threshold before the hold, a hold that ends the game names the seat that held as winner (seat id in the game, account in the response); one that does not keeps the game below the threshold |
| Game.ZeroThresholdCrownsIdlePlayer | src/services/game.service.ts:132-142 | after `newGame` with threshold 0 and a double six by player1, player2 may hold and the game ends with player1's account as winner |
| Game.StepKeepsValid | src/services/game.service.ts:46-152 | one roll or hold call by any account keeps the invariant, never lowers a banked score, never produces `waiting`, and leaves a finished game unchanged |
| Game.PlayKeepsValid | src/services/game.service.ts:46-152 | any sequence of roll and hold calls by any accounts keeps the invariant, never lowers either banked score, never changes the id, seats or threshold, and keeps a game that started below the threshold below it while it stays active |
| Game.PlayFromFinished | src/services/game.service.ts:52-54 | every sequence of rolls and holds leaves a finished game exactly as it was |
| GameEngine.UserGamesIn | src/services/game.service.ts:41-43 | the filter keeps exactly the games in which the account occupies either seat |
| GameEngine.UserGamesInCount | src/services/game.service.ts:41-43 | the filter keeps every copy of a game in which the account has a seat and no copy of any other game |
| GameEngine.UserGamesInAppend | src/services/game.service.ts:41-43 | filtering a concatenation is the concatenation of the filtered parts, in the same order |
| GameEngine.KeptAt | src/services/game.service.ts:41-43 | each kept game is the input's game at some position, and the positions strictly increase: the filter keeps the input's order |
| GameEngine.FilterFollowsOrder | src/services/game.service.ts:41-43 | filtering games listed along a duplicate-free id order keeps each game once and keeps the games in the order of their ids |
| GameEngine.ReplaceKeepsStore | src/services/game.service.ts:91 | writing back a valid game under its own id keeps every stored game filed under its id and valid, and keeps the iteration order |
| GameEngine.GameService.constructor | src/services/game.service.ts:4 | the engine starts with no games |
| GameEngine.GameService.CreateGame | src/services/game.service.ts:6-30 | stores the initial game under the fresh id (threshold 100 when none is given), appends the id to the iteration order, changes no other game and returns the stored game |
| GameEngine.GameService.GetGame | src/services/game.service.ts:32-34 | present exactly when the id is stored; the game returned is the stored one, carries that id and is valid |
| GameEngine.GameService.GetAllGames | src/services/game.service.ts:36-38 | every stored game once, in insertion order, and nothing else |
| GameEngine.GameService.GetUserGames | src/services/game.service.ts:40-44 | exactly the stored games in which the account occupies player1's or player2's seat, each once, in insertion order |
| GameEngine.GameService.RollDice | src/services/game.service.ts:46-99 | on a failed check the error is returned and the map is unchanged; otherwise the response is `ApplyRoll` of the stored game and only that entry is replaced; the invariant of every stored game is kept |
| GameEngine.GameService.Hold | src/services/game.service.ts:101-152 | on a failed check the error is returned and the map is unchanged; otherwise the response is `ApplyHold` of the stored game and only that entry is replaced; the invariant of every stored game is kept |
| GameEngine.GameService.NewGame | src/services/game.service.ts:154-182 | fails and changes nothing for a missing id or a caller in neither seat; otherwise stores and returns `ApplyReset` of the game |
| GameEngine.GameService.DeleteGame | src/services/game.service.ts:184-186 | reports whether the id was stored and removes exactly that entry; the iteration order loses exactly that id's place, and the ids before and after it stay as they were |
| Keys.Without | src/services/game.service.ts:185 | removing a key from the insertion order keeps exactly the other keys, keeps the order free of duplicates, and changes nothing when the key is absent |
| Keys.WithoutAt | src/services/game.service.ts:185 | in a duplicate-free order, removing a key cuts out exactly its one place: the keys before it and after it are kept as they were |
| Keys.ValuesAt | src/services/game.service.ts:37 | the values listed by a key order are the map's entries for those keys, one per key, in that order |
| Keys.OrderCoversMap | src/services/game.service.ts:37 | a duplicate-free order listing exactly a map's keys is as long as the map |
| Users.InsertKeepsConsistent | src/services/user.service.ts:13-23 | filing a user under an unused id and an unused username keeps the two indexes consistent |
| Users.UsernamesUnique | src/services/user.service.ts:5-6 | in consistent indexes two accounts with the same username are the same account |
| Users.RemoveKeepsConsistent | src/services/user.service.ts:5-6 | dropping one user from both indexes leaves them consistent |
| Users.ConsistentSameSize | src/services/user.service.ts:5-6 | consistent indexes have the same number of entries |
| Users.UserService.constructor | src/services/user.service.ts:5-6 | both indexes start empty |
| Users.UserService.CreateUser | src/services/user.service.ts:8-26 | a taken username fails with "Username already exists" and changes nothing; otherwise the user with the fresh id, the username and `hash(password)` is filed in both indexes under its id and its username and returned, and the indexes stay consistent |
| Users.UserService.AuthenticateUser | src/services/user.service.ts:28-40 | an unknown username and a password the comparison rejects both give "Invalid credentials"; otherwise the stored user is returned, and it is the same record the id index holds; nothing changes |
| Users.UserService.GetUserById | src/services/user.service.ts:42-44 | present exactly when the id is stored; the user has that id and is the one filed under its username |
| Users.UserService.GetUserByUsername | src/services/user.service.ts:46-48 | present exactly when the username is stored; the user has that username and is the one filed under its id |
| Users.UserService.GetAllUsers | src/services/user.service.ts:50-52 | every stored user once, in registration order; there are as many as there are usernames |

## Left out

- `endGame`: the game controller calls `gameService.endGame`, but `GameService` has no such method and no route reaches it, so it is not modelled.
- The controllers, routes, authentication middleware and the token and `bcrypt` wrappers: request plumbing and foreign libraries. The threshold check `winningScore > 0` in the create-game controller is therefore not part of `CreateGame`.
- The SQLite schema in `src/db/database.ts`: the services do not use it.
- Randomness: the dice, the game id and the user id are parameters. The dice are in `1..6` and the ids are fresh. The format `game-<time>-<random>` is not modelled, and neither is the chance that the source's random id collides.
- Time: each mutating call takes one `now`. The source reads the clock more than once in one call: for the dice timestamp and `updatedAt` in `rollDice`, and for `createdAt` and `updatedAt` in `createGame` (src/services/game.service.ts:24-25). The model uses the same instant for all of them, so `InitialGame` sets `createdAt` and `updatedAt` equal.
- Users.UserService.CreateUser: the hash is a function passed with the call. It does not model that `bcrypt` salts each hash at random, or that the hash runs asynchronously (see Concurrency below).
- Users.UserService.AuthenticateUser: the comparison is a function passed with the call; its asynchrony is not modelled.
- Aliasing: the source stores the game object and mutates it in place, and returns either that object or a shallow copy. The model stores values and returns the value after the update, so a caller that mutates a returned object is not modelled.
- Numbers: scores and thresholds are unbounded integers. JavaScript numbers are doubles, and a non-integer threshold passed to `newGame` is not modelled.
- Concurrency: the game service is synchronous, but `createUser` is `async`. It awaits the password hash (src/services/user.service.ts:13) between the username check (line 9) and the two `set` calls (lines 22-23). Two overlapping registrations of one username can both pass the check. Both accounts then land in `users`, while `usersByUsername` keeps only the second. The model runs each call to completion before the next one starts. So `Consistent`, `InsertKeepsConsistent`, `UsernamesUnique` and `CreateUser`'s contract hold only for calls that do not overlap. Both code paths that create users can overlap: registration (src/controllers/auth.controller.ts:20) and creating a game for a new player name (src/controllers/game.controller.ts:29,34). The interleaving itself is not modelled.
