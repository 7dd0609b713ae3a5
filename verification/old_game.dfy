/**
 * The game page of client/src/Components/OldGame/OldGame.jsx as an object:
 * its state cells are fields, its inventory an array whose entries the
 * handlers overwrite in place, and each handler is a method proved to take
 * the page from its old state to `RoundLifecycle.Step` of it.
 */
module OldGame {
  import opened Wrappers
  import opened RoundLifecycle

  class GamePage {
    /** Identity read from the cookies and the rounds to request; fixed for the page's life. */
    const session: Session
    var loading: bool
    var gameData: seq<Word>
    var gameStatus: GameStatus
    /** `roundStatus.incorrectLettersGuessed` */
    var incorrectLettersGuessed: int
    const inventory: array<Powerup>
    var activePowerup: string
    /** The calls to the word supply and the score reporter, in the order they were made. */
    var requests: seq<Request>

    ghost predicate Valid()
      reads this
    {
      gameStatus.round >= 1
    }

    /** The page's state as a value. */
    function Snapshot(): Game
      reads this, inventory
    {
      Game(loading, gameData, gameStatus, incorrectLettersGuessed, inventory[..], activePowerup, requests)
    }

    /**
     * `GamePage(...)` mounting: round 1 on the first given word, the starting
     * inventory, and the effect on `gameEnd` run once.
     */
    constructor (initialLoad: bool, initialState: bool, data: seq<Word>, numRounds: Option<nat>,
                 user: string, userId: string)
      ensures Valid() && fresh(inventory)
      ensures session == Session(user, userId, if numRounds.Some? then numRounds.value else DefaultNumRounds(data))
      ensures Snapshot() == Initial(initialLoad, initialState, data, session)
    {
      var rounds := if numRounds.Some? then numRounds.value else DefaultNumRounds(data);
      session := Session(user, userId, rounds);
      loading := initialLoad;
      gameData := data;
      gameStatus := GameStatus(1, 0, if |data| > 0 then Some(data[0]) else None, initialState, None, false);
      incorrectLettersGuessed := 0;
      var initial := InitialInventory();
      inventory := new Powerup[|initial|](k requires 0 <= k < |initial| => initial[k]);
      activePowerup := NO_POWERUP;
      requests := ToSeq(GameEndEffect(initialState, Session(user, userId, rounds), 0));
      new;
      assert inventory[..] == initial;
    }

    /** The effect on `gameStatus.gameEnd`, run when the flag differs from `before`. */
    method GameEndChanged(before: bool)
      modifies this`requests
      ensures requests == old(requests) +
                (if before != gameStatus.gameEnd then ToSeq(GameEndEffect(gameStatus.gameEnd, session, gameStatus.score)) else [])
    {
      if before != gameStatus.gameEnd {
        if gameStatus.gameEnd {
          if session.user != GUEST {
            requests := requests + [PostScore(session.userId, gameStatus.score)];
          }
        } else {
          requests := requests + [FetchWords(session.numRounds)];
        }
      }
    }

    /** The fetched words arrive: they become the word list and the first one the current word. */
    method OnWordsFetched(data: seq<Word>)
      requires Valid() && |data| > 0
      modifies this
      ensures Valid()
      ensures Snapshot() == Step(old(Snapshot()), session, WordsFetched(data))
    {
      gameData := data;
      gameStatus := gameStatus.(currWord := Some(data[0]), roundTime := Some(RoundTime(data[0])));
      loading := false;
    }

    /** `roundEnd(scoreEarned)`, called by the timer when a round is over. */
    method RoundEnd(scoreEarned: int)
      requires Valid()
      modifies this, inventory
      ensures Valid()
      ensures Snapshot() == Step(old(Snapshot()), session, Event.RoundEnd(scoreEarned))
    {
      ResetInventory();
      var before := gameStatus.gameEnd;
      if gameStatus.round + 1 <= |gameData| {
        var next := gameData[gameStatus.round];
        gameStatus := gameStatus.(round := gameStatus.round + 1,
                                  score := gameStatus.score + scoreEarned,
                                  currWord := Some(next),
                                  roundTime := Some(RoundTime(next)),
                                  wordGuessed := false);
      } else {
        // game ended
        gameStatus := gameStatus.(score := gameStatus.score + scoreEarned,
                                  gameEnd := true,
                                  roundTime := Some(0));
      }
      RestartRound();
      GameEndChanged(before);
    }

    /** Every powerup made available again, keeping its name and uses, in place. */
    method ResetInventory()
      modifies inventory
      ensures inventory[..] == ResetActivations(old(inventory[..]))
    {
      var i := 0;
      while i < inventory.Length
        invariant 0 <= i <= inventory.Length
        invariant forall k :: 0 <= k < i ==>
                    inventory[k] == Powerup(old(inventory[k]).name, old(inventory[k]).quantity, false)
        invariant forall k :: i <= k < inventory.Length ==> inventory[k] == old(inventory[k])
      {
        inventory[i] := Powerup(inventory[i].name, inventory[i].quantity, false);
        i := i + 1;
      }
    }

    /** `wordGuessed()`, called by the letter board once the word is complete. */
    method WordGuessed()
      requires Valid()
      modifies this
      ensures Valid()
      ensures Snapshot() == Step(old(Snapshot()), session, Event.WordGuessed)
    {
      gameStatus := gameStatus.(wordGuessed := true);
      RestartRound();
    }

    /** `incorrectLetterGuessed()` */
    method IncorrectLetterGuessed()
      requires Valid()
      modifies this
      ensures Valid()
      ensures Snapshot() == Step(old(Snapshot()), session, Event.IncorrectLetterGuessed)
    {
      incorrectLettersGuessed := incorrectLettersGuessed + 1;
    }

    /** `restartGame()`: back to round 1 on the same word list; the inventory is left as it is. */
    method RestartGame()
      requires Valid() && |gameData| > 0
      modifies this
      ensures Valid()
      ensures Snapshot() == Step(old(Snapshot()), session, Event.RestartGame)
    {
      var before := gameStatus.gameEnd;
      gameStatus := GameStatus(1, 0, Some(gameData[0]), false, Some(RoundTime(gameData[0])), false);
      GameEndChanged(before);
    }

    /** `restartRound()`: the wrong-letter counter back to 0, nothing else. */
    method RestartRound()
      modifies this`incorrectLettersGuessed
      ensures incorrectLettersGuessed == 0
    {
      incorrectLettersGuessed := 0;
    }

    /** `powerupHandler(powerup)` for the powerup at `index` in the inventory. */
    method PowerupHandler(index: nat)
      requires Valid() && index < inventory.Length
      modifies inventory, this`activePowerup
      ensures Valid()
      ensures Snapshot() == Step(old(Snapshot()), session, PowerupClicked(index))
    {
      var powerup := inventory[index];
      // powerups can only be used once per round
      if !powerup.hasActivated {
        inventory[index] := powerup.(quantity := powerup.quantity - 1, hasActivated := true);
        if powerup.name == ADD_TIME {
          activePowerup := ADD_TIME;
        } else if powerup.name == REVEAL_LETTER {
          activePowerup := REVEAL_LETTER;
        }
      }
    }

    /** `powerupOnConsume()`, called once the armed powerup has taken effect. */
    method PowerupOnConsume()
      requires Valid()
      modifies this`activePowerup
      ensures Valid()
      ensures Snapshot() == Step(old(Snapshot()), session, PowerupConsumed)
    {
      activePowerup := NO_POWERUP;
    }
  }
}
