/**
 * The round lifecycle of the game page (client/src/Components/OldGame/OldGame.jsx)
 * as values: the page's four state cells plus its word list, loading flag and
 * the outgoing calls its game-end effect makes, one function per transition,
 * and the properties that hold over any sequence of transitions.
 *
 * The class `OldGame.GamePage` holds the same state in fields and an array and
 * proves each of its methods against `Step` below.
 */
module RoundLifecycle {
  import opened Wrappers

  /** Seconds every round starts with. */
  const BASE_ROUND_TIME: int := 10
  /** Seconds added to a round per difficulty level of its word. */
  const SECONDS_PER_DIFFICULTY: int := 5
  /** Rounds requested when the page is given no word list. */
  const DEFAULT_NUM_ROUNDS: nat := 10
  /** The user name of a player who is not signed in. */
  const GUEST: string := "Guest"
  /** `activePowerup` when no powerup is armed. */
  const NO_POWERUP: string := "none"
  const ADD_TIME: string := "Add Time"
  const REVEAL_LETTER: string := "Reveal Letter"

  /** A word record as the word supply returns it. */
  datatype Word = Word(word: string, hints: seq<string>, difficulty: nat)

  /** `gameStatus`; `currWord` and `roundTime` start as `null` (None). */
  datatype GameStatus = GameStatus(
    round: int,
    score: int,
    currWord: Option<Word>,
    gameEnd: bool,
    roundTime: Option<int>,
    wordGuessed: bool)

  /** One inventory entry; `quantity` may go negative, the source never checks it. */
  datatype Powerup = Powerup(name: string, quantity: int, hasActivated: bool)

  /** The calls the page's effect on `gameStatus.gameEnd` makes. */
  datatype Request = FetchWords(count: nat) | PostScore(userId: string, score: int)

  /** What the page is given and reads once: its identity and the rounds to request. */
  datatype Session = Session(user: string, userId: string, numRounds: nat)

  /** The whole state of the page. */
  datatype Game = Game(
    loading: bool,
    gameData: seq<Word>,
    status: GameStatus,
    incorrectLettersGuessed: int,
    inventory: seq<Powerup>,
    activePowerup: string,
    requests: seq<Request>)

  /** The signals that drive the page. */
  datatype Event =
    | WordsFetched(data: seq<Word>)
    | RoundEnd(scoreEarned: int)
    | WordGuessed
    | IncorrectLetterGuessed
    | RestartGame
    | PowerupClicked(index: nat)
    | PowerupConsumed

  function Min(a: int, b: int): int { if a <= b then a else b }

  /** The time budget of a round on word `w`. */
  function RoundTime(w: Word): int {
    BASE_ROUND_TIME + w.difficulty * SECONDS_PER_DIFFICULTY
  }

  /** `numRounds` when the caller gives none: the length of the given word list, else 10. */
  function DefaultNumRounds(data: seq<Word>): (n: nat)
    ensures n > 0
    ensures |data| > 0 ==> n == |data|
    ensures |data| == 0 ==> n == DEFAULT_NUM_ROUNDS
  {
    if |data| > 0 then |data| else DEFAULT_NUM_ROUNDS
  }

  /** `initializeInventory()`: Add Time five times and Reveal Letter once, neither activated. */
  function InitialInventory(): (r: seq<Powerup>)
    ensures ResetActivations(r) == r
    ensures |r| == 2 && r[0].name == ADD_TIME && r[1].name == REVEAL_LETTER
    ensures forall k :: 0 <= k < |r| ==> r[k].quantity > 0
  {
    [Powerup(ADD_TIME, 5, false), Powerup(REVEAL_LETTER, 1, false)]
  }

  /**
   * What the effect on `gameStatus.gameEnd` does when it runs: post the
   * score once the game has ended, for a signed-in player only; fetch the
   * words while it has not.
   */
  function GameEndEffect(gameEnd: bool, session: Session, score: int): (r: Option<Request>)
    ensures (r.Some? && r.value.PostScore?) <==> gameEnd && session.user != GUEST
    ensures (r.Some? && r.value.FetchWords?) <==> !gameEnd
    ensures r.Some? && r.value.PostScore? ==> r.value == PostScore(session.userId, score)
    ensures r.Some? && r.value.FetchWords? ==> r.value.count == session.numRounds
  {
    if gameEnd then
      if session.user != GUEST then Some(PostScore(session.userId, score)) else None
    else Some(FetchWords(session.numRounds))
  }

  function ToSeq<T>(o: Option<T>): seq<T> {
    if o.Some? then [o.value] else []
  }

  /** The requests made when the status changes from `before` to `after`: the effect runs only when `gameEnd` changes. */
  function Announce(before: GameStatus, after: GameStatus, session: Session): (r: seq<Request>)
    ensures |r| <= 1
    ensures before.gameEnd == after.gameEnd ==> r == []
    ensures |r| == 1 <==> before.gameEnd != after.gameEnd && (!after.gameEnd || session.user != GUEST)
    ensures |r| == 1 ==> Some(r[0]) == GameEndEffect(after.gameEnd, session, after.score)
  {
    if before.gameEnd != after.gameEnd then ToSeq(GameEndEffect(after.gameEnd, session, after.score)) else []
  }

  /** The state of a freshly mounted page, after its effect has run once. */
  function Initial(initialLoad: bool, initialState: bool, data: seq<Word>, session: Session): (g: Game)
    ensures g.status.round == 1 && g.status.score == 0 && g.status.gameEnd == initialState
    ensures g.status.roundTime.None? && !g.status.wordGuessed
    ensures g.status.currWord.Some? <==> |data| > 0
    ensures |data| > 0 ==> g.status.currWord == Some(data[0])
    ensures g.gameData == data && g.incorrectLettersGuessed == 0 && g.activePowerup == NO_POWERUP
    ensures g.requests == if initialState && session.user == GUEST then [] else [GameEndEffect(initialState, session, 0).value]
  {
    var status := GameStatus(1, 0, if |data| > 0 then Some(data[0]) else None, initialState, None, false);
    Game(initialLoad, data, status, 0, InitialInventory(), NO_POWERUP,
         ToSeq(GameEndEffect(initialState, session, 0)))
  }

  /**
   * The status update of `roundEnd`: the next round and its word when one is
   * left, the end of the game otherwise; the score grows by `scoreEarned`
   * either way.
   */
  function StatusAfterRoundEnd(prev: GameStatus, gameData: seq<Word>, scoreEarned: int): (next: GameStatus)
    requires prev.round >= 1
    ensures next.score == prev.score + scoreEarned
    ensures next.round == if prev.round < |gameData| then prev.round + 1 else prev.round
    ensures next.gameEnd == (prev.gameEnd || prev.round >= |gameData|)
    ensures prev.round < |gameData| ==>
              && next.currWord == Some(gameData[prev.round])
              && next.roundTime == Some(RoundTime(gameData[prev.round]))
              && !next.wordGuessed
    ensures prev.round >= |gameData| ==>
              && next.currWord == prev.currWord
              && next.roundTime == Some(0)
              && next.wordGuessed == prev.wordGuessed
    ensures 1 <= prev.round <= |gameData| ==> 1 <= next.round <= |gameData|
  {
    if prev.round + 1 <= |gameData| then
      prev.(round := prev.round + 1,
            score := prev.score + scoreEarned,
            currWord := Some(gameData[prev.round]),
            roundTime := Some(RoundTime(gameData[prev.round])),
            wordGuessed := false)
    else
      prev.(score := prev.score + scoreEarned,
            gameEnd := true,
            roundTime := Some(0))
  }

  /** The status `restartGame` installs: round 1 on the first word, nothing scored. */
  function RestartStatus(gameData: seq<Word>): (st: GameStatus)
    requires |gameData| > 0
    ensures st.round == 1 && st.score == 0 && !st.gameEnd && !st.wordGuessed
    ensures st.currWord == Some(gameData[0]) && st.roundTime == Some(RoundTime(gameData[0]))
  {
    GameStatus(1, 0, Some(gameData[0]), false, Some(RoundTime(gameData[0])), false)
  }

  /** Every entry with its activation cleared, name and quantity kept, in order. */
  function ResetActivations(inventory: seq<Powerup>): (r: seq<Powerup>)
    ensures |r| == |inventory|
    ensures forall k :: 0 <= k < |r| ==> r[k] == Powerup(inventory[k].name, inventory[k].quantity, false)
  {
    if |inventory| == 0 then []
    else [Powerup(inventory[0].name, inventory[0].quantity, false)] + ResetActivations(inventory[1..])
  }

  /** `powerupHandler`'s update of the clicked entry: one use spent, once per round. */
  function Activate(p: Powerup): (r: Powerup)
    ensures r.name == p.name && r.hasActivated
    ensures r.quantity == if p.hasActivated then p.quantity else p.quantity - 1
  {
    if !p.hasActivated then p.(quantity := p.quantity - 1, hasActivated := true) else p
  }

  /** `powerupHandler`'s update of `activePowerup`: armed only by a fresh click on a known powerup. */
  function ActiveAfterClick(p: Powerup, current: string): (r: string)
    ensures !p.hasActivated && (p.name == ADD_TIME || p.name == REVEAL_LETTER) ==> r == p.name
    ensures p.hasActivated || (p.name != ADD_TIME && p.name != REVEAL_LETTER) ==> r == current
  {
    if !p.hasActivated then
      if p.name == ADD_TIME then ADD_TIME
      else if p.name == REVEAL_LETTER then REVEAL_LETTER
      else current
    else current
  }

  /** What event `e` needs to be taken at all in state `g`. */
  predicate EventOk(g: Game, e: Event) {
    && (e.WordsFetched? ==> |e.data| > 0)
    && (e.RestartGame? ==> |g.gameData| > 0)
    && (e.PowerupClicked? ==> e.index < |g.inventory|)
  }

  /** One transition of the page. */
  function Step(g: Game, session: Session, e: Event): (h: Game)
    requires g.status.round >= 1 && EventOk(g, e)
    ensures h.status.round >= 1
    ensures |h.inventory| == |g.inventory|
    ensures !e.WordsFetched? ==> h.gameData == g.gameData
    ensures |h.requests| >= |g.requests| && h.requests[..|g.requests|] == g.requests
    ensures h.status.score == match e
                              case RoundEnd(earned) => g.status.score + earned
                              case RestartGame => 0
                              case _ => g.status.score
    ensures h.status.round == match e
                              case RoundEnd(_) => if g.status.round < |g.gameData| then g.status.round + 1 else g.status.round
                              case RestartGame => 1
                              case _ => g.status.round
    ensures e.RoundEnd? || e.WordGuessed? ==> h.incorrectLettersGuessed == 0
    ensures e.IncorrectLetterGuessed? ==> h.incorrectLettersGuessed == g.incorrectLettersGuessed + 1
    ensures !e.RoundEnd? && !e.WordGuessed? && !e.IncorrectLetterGuessed? ==>
              h.incorrectLettersGuessed == g.incorrectLettersGuessed
    ensures !e.RoundEnd? && !e.PowerupClicked? ==> h.inventory == g.inventory
    ensures !e.RoundEnd? && !e.RestartGame? ==> h.requests == g.requests && h.status.gameEnd == g.status.gameEnd
    ensures e.RoundEnd? ==> h.status.gameEnd == (g.status.gameEnd || g.status.round >= |g.gameData|)
    ensures e.WordGuessed? ==> h.status == g.status.(wordGuessed := true)
    ensures e.IncorrectLetterGuessed? ==> h == g.(incorrectLettersGuessed := g.incorrectLettersGuessed + 1)
    ensures e.PowerupConsumed? ==> h.activePowerup == NO_POWERUP
    ensures !e.PowerupClicked? && !e.PowerupConsumed? ==> h.activePowerup == g.activePowerup
  {
    match e
    case WordsFetched(data) =>
      g.(gameData := data,
         status := g.status.(currWord := Some(data[0]), roundTime := Some(RoundTime(data[0]))),
         loading := false)
    case RoundEnd(scoreEarned) =>
      var next := StatusAfterRoundEnd(g.status, g.gameData, scoreEarned);
      g.(inventory := ResetActivations(g.inventory),
         status := next,
         incorrectLettersGuessed := 0,
         requests := g.requests + Announce(g.status, next, session))
    case WordGuessed =>
      g.(status := g.status.(wordGuessed := true), incorrectLettersGuessed := 0)
    case IncorrectLetterGuessed =>
      g.(incorrectLettersGuessed := g.incorrectLettersGuessed + 1)
    case RestartGame =>
      var next := RestartStatus(g.gameData);
      g.(status := next, requests := g.requests + Announce(g.status, next, session))
    case PowerupClicked(i) =>
      g.(inventory := g.inventory[i := Activate(g.inventory[i])],
         activePowerup := ActiveAfterClick(g.inventory[i], g.activePowerup))
    case PowerupConsumed =>
      g.(activePowerup := NO_POWERUP)
  }

  /** Some word list arrived during `events`. */
  predicate Fetched(events: seq<Event>) {
    exists j :: 0 <= j < |events| && events[j].WordsFetched?
  }

  /**
   * Every event of `events` can be taken in the state it is taken in,
   * starting in `g`. Only a restart depends on that state: it needs a word
   * list, which `g` holds or an earlier fetch brought. Clicks are checked
   * against `g`, whose inventory has the length every later state has.
   */
  predicate Playable(g: Game, events: seq<Event>) {
    && g.status.round >= 1
    && forall i :: 0 <= i < |events| ==>
         EventOk(g, events[i]) || (events[i].RestartGame? && Fetched(events[..i]))
  }

  /** The state after taking `events` in order, starting in `g`. */
  function Run(g: Game, session: Session, events: seq<Event>): (h: Game)
    requires Playable(g, events)
    ensures h.status.round >= 1
    ensures |h.inventory| == |g.inventory|
    ensures |h.gameData| > 0 <==> |g.gameData| > 0 || Fetched(events)
    decreases |events|
  {
    if |events| == 0 then g
    else
      var prefix := events[..|events| - 1];
      var e := events[|events| - 1];
      PlayablePrefix(g, events, |events| - 1);
      FetchedSnoc(prefix, e);
      assert events == prefix + [e];
      var before := Run(g, session, prefix);
      assert EventOk(g, e) || (e.RestartGame? && Fetched(prefix));
      Step(before, session, e)
  }

  /** Every prefix of a playable sequence is playable. */
  lemma PlayablePrefix(g: Game, events: seq<Event>, n: nat)
    requires Playable(g, events) && n <= |events|
    ensures Playable(g, events[..n])
  {
    forall i | 0 <= i < n
      ensures EventOk(g, events[..n][i]) || (events[..n][i].RestartGame? && Fetched(events[..n][..i]))
    {
      assert events[..n][i] == events[i];
      assert events[..n][..i] == events[..i];
    }
  }

  /** A fetch happened in `events + [e]` when it happened in `events` or is `e`. */
  lemma FetchedSnoc(events: seq<Event>, e: Event)
    ensures Fetched(events + [e]) <==> Fetched(events) || e.WordsFetched?
  {
    var s := events + [e];
    if Fetched(s) && !e.WordsFetched? {
      var j :| 0 <= j < |s| && s[j].WordsFetched?;
      assert j < |events| && events[j] == s[j];
    }
    if Fetched(events) {
      var j :| 0 <= j < |events| && events[j].WordsFetched?;
      assert s[j] == events[j];
    }
    if e.WordsFetched? {
      assert s[|events|] == e;
    }
  }

  /** A fetch happened in `a + b` when it happened in `a` or in `b`. */
  lemma FetchedAppend(a: seq<Event>, b: seq<Event>)
    ensures Fetched(a + b) <==> Fetched(a) || Fetched(b)
  {
    var s := a + b;
    if Fetched(s) {
      var j :| 0 <= j < |s| && s[j].WordsFetched?;
      if j < |a| {
        assert a[j] == s[j];
      } else {
        assert b[j - |a|] == s[j];
      }
    }
    if Fetched(a) {
      var j :| 0 <= j < |a| && a[j].WordsFetched?;
      assert s[j] == a[j];
    }
    if Fetched(b) {
      var j :| 0 <= j < |b| && b[j].WordsFetched?;
      assert s[|a| + j] == b[j];
    }
  }

  /** What an event needs holds in every later state once it holds in an earlier one. */
  lemma EventOkCarries(g: Game, h: Game, e: Event)
    requires EventOk(g, e)
    requires |h.inventory| == |g.inventory| && (|g.gameData| > 0 ==> |h.gameData| > 0)
    ensures EventOk(h, e)
  {
  }

  /**
   * `Playable` is exactly "each event can be taken where it is taken": a
   * playable sequence can be extended by `e` if and only if `e` can be
   * taken in the state the sequence reaches.
   */
  lemma PlayableExtends(g: Game, session: Session, events: seq<Event>, e: Event)
    requires Playable(g, events)
    ensures Playable(g, events + [e]) <==> EventOk(Run(g, session, events), e)
  {
    var s := events + [e];
    var h := Run(g, session, events);
    assert s[..|events|] == events;
    assert s[|events|] == e;
    if EventOk(h, e) {
      forall i | 0 <= i < |s|
        ensures EventOk(g, s[i]) || (s[i].RestartGame? && Fetched(s[..i]))
      {
        if i < |events| {
          assert s[i] == events[i];
          assert s[..i] == events[..i];
        }
      }
    }
  }

  /**
   * A page mounted without words can restart once its words have arrived:
   * the restart is checked against the fetched list, not the empty one.
   */
  lemma RestartAfterFirstFetch(initialLoad: bool, initialState: bool, words: seq<Word>, session: Session)
    requires |words| > 0
    ensures var g := Initial(initialLoad, initialState, [], session);
            var events := [WordsFetched(words), RestartGame];
            && !EventOk(g, RestartGame)
            && Playable(g, events)
            && Run(g, session, events).gameData == words
            && Run(g, session, events).status == RestartStatus(words)
  {
    var g := Initial(initialLoad, initialState, [], session);
    var events := [WordsFetched(words), RestartGame];
    assert events[..1] == [WordsFetched(words)];
    assert events[..1][0].WordsFetched?;
    assert [WordsFetched(words)][..0] == [];
  }

  // ---------------------------------------------------------------------
  // Properties over sequences of transitions

  /** Whatever follows a playable prefix is playable from the state the prefix reaches. */
  lemma PlayableAfter(g: Game, session: Session, a: seq<Event>, b: seq<Event>)
    requires Playable(g, a + b)
    ensures Playable(g, a) && Playable(Run(g, session, a), b)
  {
    assert (a + b)[..|a|] == a;
    PlayablePrefix(g, a + b, |a|);
    var mid := Run(g, session, a);
    forall i | 0 <= i < |b|
      ensures EventOk(mid, b[i]) || (b[i].RestartGame? && Fetched(b[..i]))
    {
      assert (a + b)[|a| + i] == b[i];
      assert (a + b)[..|a| + i] == a + b[..i];
      FetchedAppend(a, b[..i]);
      if EventOk(g, b[i]) {
        EventOkCarries(g, mid, b[i]);
      }
    }
  }

  /** Taking `a + b` is taking `a`, then `b`. */
  lemma {:induction false} RunAppend(g: Game, session: Session, a: seq<Event>, b: seq<Event>)
    requires Playable(g, a + b)
    ensures Playable(g, a) && Playable(Run(g, session, a), b)
    ensures Run(g, session, a + b) == Run(Run(g, session, a), session, b)
    decreases |b|
  {
    PlayableAfter(g, session, a, b);
    if |b| == 0 {
      assert a + b == a;
    } else {
      var b' := b[..|b| - 1];
      assert (a + b)[..|a + b| - 1] == a + b';
      PlayablePrefix(g, a + b, |a + b| - 1);
      RunAppend(g, session, a, b');
    }
  }

  /** The sum of the scores earned in `ds`. */
  function Sum(ds: seq<int>): int {
    if |ds| == 0 then 0 else Sum(ds[..|ds| - 1]) + ds[|ds| - 1]
  }

  /** The `roundEnd` calls the clock makes with the scores `ds`. */
  function RoundEnds(ds: seq<int>): (r: seq<Event>)
    ensures |r| == |ds|
    ensures forall i :: 0 <= i < |r| ==> r[i] == RoundEnd(ds[i])
  {
    seq(|ds|, i requires 0 <= i < |ds| => RoundEnd(ds[i]))
  }

  /**
   * The status agrees with the word list: the round is in range, the current
   * word is that round's word, and the time budget is that word's while the
   * game runs and 0 once it has ended, on the last round.
   */
  predicate Consistent(st: GameStatus, data: seq<Word>) {
    && 1 <= st.round <= |data|
    && st.currWord == Some(data[st.round - 1])
    && (st.gameEnd ==> st.round == |data| && st.roundTime == Some(0))
    && (!st.gameEnd ==> st.roundTime == Some(RoundTime(data[st.round - 1])))
  }

  /** `restartGame` puts the status in agreement with the word list. */
  lemma RestartIsConsistent(data: seq<Word>)
    requires |data| > 0
    ensures Consistent(RestartStatus(data), data)
  {
  }

  /**
   * Every transition keeps the status in agreement with the word list,
   * except a word list that arrives when the game is past round 1 or over.
   */
  lemma StepKeepsConsistent(g: Game, session: Session, e: Event)
    requires g.status.round >= 1 && EventOk(g, e)
    requires Consistent(g.status, g.gameData)
    requires e.WordsFetched? ==> g.status.round == 1 && !g.status.gameEnd
    ensures Consistent(Step(g, session, e).status, Step(g, session, e).gameData)
  {
  }

  /** One `roundEnd` from an agreeing status keeps it agreeing. */
  lemma RoundEndKeepsConsistent(g: Game, session: Session, d: int)
    requires Consistent(g.status, g.gameData)
    ensures var h := Step(g, session, RoundEnd(d));
            && h.gameData == g.gameData
            && Consistent(h.status, h.gameData)
  {
    var next := StatusAfterRoundEnd(g.status, g.gameData, d);
    assert Step(g, session, RoundEnd(d)).status == next;
  }

  /**
   * Playing rounds from an agreeing, running status: the round advances one
   * per `roundEnd` until the last word, the game ends on the call after the
   * last round, and the score is the sum of what every round earned.
   */
  lemma {:induction false} PlayThrough(g: Game, session: Session, ds: seq<int>)
    requires Consistent(g.status, g.gameData) && !g.status.gameEnd
    ensures Playable(g, RoundEnds(ds))
    ensures var h := Run(g, session, RoundEnds(ds));
            && h.gameData == g.gameData
            && Consistent(h.status, h.gameData)
            && h.status.score == g.status.score + Sum(ds)
            && h.status.round == Min(g.status.round + |ds|, |g.gameData|)
            && h.status.gameEnd == (g.status.round + |ds| > |g.gameData|)
    decreases |ds|
  {
    if |ds| > 0 {
      var ds' := ds[..|ds| - 1];
      assert RoundEnds(ds)[..|ds| - 1] == RoundEnds(ds');
      PlayThrough(g, session, ds');
      var before := Run(g, session, RoundEnds(ds'));
      assert Run(g, session, RoundEnds(ds)) == Step(before, session, RoundEnd(ds[|ds| - 1]));
      RoundEndKeepsConsistent(before, session, ds[|ds| - 1]);
    }
  }

  /**
   * A whole game after `restartGame`: one `roundEnd` per word ends it on the
   * last word with the summed score and no time left.
   */
  lemma FullGame(g: Game, session: Session, ds: seq<int>)
    requires |g.gameData| > 0 && g.status == RestartStatus(g.gameData)
    requires |ds| == |g.gameData|
    ensures Playable(g, RoundEnds(ds))
    ensures var h := Run(g, session, RoundEnds(ds));
            && h.status.gameEnd
            && h.status.score == Sum(ds)
            && h.status.round == |g.gameData|
            && h.status.currWord == Some(g.gameData[|g.gameData| - 1])
            && h.status.roundTime == Some(0)
  {
    RestartIsConsistent(g.gameData);
    PlayThrough(g, session, ds);
  }

  /** How many `roundEnd` calls `events` holds. */
  function CountRoundEnds(events: seq<Event>): nat {
    if |events| == 0 then 0
    else CountRoundEnds(events[..|events| - 1]) + (if events[|events| - 1].RoundEnd? then 1 else 0)
  }

  /** Quantity, less one while the powerup may still be activated this round. */
  function Potential(p: Powerup): int {
    p.quantity - (if p.hasActivated then 0 else 1)
  }

  lemma {:induction false} PotentialFallsOnlyAtRoundEnd(g: Game, session: Session, events: seq<Event>, k: nat)
    requires Playable(g, events) && k < |g.inventory|
    ensures var p := Run(g, session, events).inventory[k];
            && p.name == g.inventory[k].name
            && p.quantity <= g.inventory[k].quantity
            && Potential(p) >= Potential(g.inventory[k]) - CountRoundEnds(events)
    decreases |events|
  {
    if |events| > 0 {
      var prefix := events[..|events| - 1];
      PlayablePrefix(g, events, |events| - 1);
      PotentialFallsOnlyAtRoundEnd(g, session, prefix, k);
    }
  }

  /**
   * Uses are never restored and each powerup is used at most once per
   * round: over any run, a quantity never grows and falls by at most one
   * more than the number of rounds that ended.
   */
  lemma AtMostOneUsePerRound(g: Game, session: Session, events: seq<Event>, k: nat)
    requires Playable(g, events) && k < |g.inventory|
    ensures var p := Run(g, session, events).inventory[k];
            && p.name == g.inventory[k].name
            && g.inventory[k].quantity - 1 - CountRoundEnds(events) <= p.quantity <= g.inventory[k].quantity
  {
    PotentialFallsOnlyAtRoundEnd(g, session, events, k);
  }

  /** A second click on a powerup in the same round changes nothing. */
  lemma SecondClickIsIgnored(g: Game, session: Session, i: nat)
    requires g.status.round >= 1 && i < |g.inventory|
    ensures var once := Step(g, session, PowerupClicked(i));
            Step(once, session, PowerupClicked(i)) == once
  {
  }

  /** How many wrong letters `events` reports. */
  function CountWrongLetters(events: seq<Event>): nat {
    if |events| == 0 then 0
    else CountWrongLetters(events[..|events| - 1]) + (if events[|events| - 1].IncorrectLetterGuessed? then 1 else 0)
  }

  lemma {:induction false} WrongLettersAccumulate(g: Game, session: Session, events: seq<Event>)
    requires Playable(g, events)
    requires forall i :: 0 <= i < |events| ==> !events[i].RoundEnd? && !events[i].WordGuessed?
    ensures Run(g, session, events).incorrectLettersGuessed == g.incorrectLettersGuessed + CountWrongLetters(events)
    decreases |events|
  {
    if |events| > 0 {
      var prefix := events[..|events| - 1];
      PlayablePrefix(g, events, |events| - 1);
      WrongLettersAccumulate(g, session, prefix);
    }
  }

  /**
   * Wrong letters never leak across rounds: after the last `roundEnd` or
   * `wordGuessed`, the counter holds exactly the wrong letters reported since.
   */
  lemma WrongLettersDoNotLeak(g: Game, session: Session, before: seq<Event>, reset: Event, after: seq<Event>)
    requires reset.RoundEnd? || reset.WordGuessed?
    requires forall i :: 0 <= i < |after| ==> !after[i].RoundEnd? && !after[i].WordGuessed?
    requires Playable(g, before + [reset] + after)
    ensures Run(g, session, before + [reset] + after).incorrectLettersGuessed == CountWrongLetters(after)
  {
    RunAppend(g, session, before + [reset], after);
    var mid := before + [reset];
    RunAppend(g, session, before, [reset]);
    assert Run(Run(g, session, before), session, [reset]) == Step(Run(g, session, before), session, reset) by {
      assert [reset][..0] == [];
    }
    WrongLettersAccumulate(Run(g, session, mid), session, after);
  }

  /**
   * Until a restart, the score is posted exactly once, when the game ends,
   * and only for a signed-in player; nothing else is requested.
   */
  lemma {:induction false} ScorePostedOnceAtEnd(g: Game, session: Session, events: seq<Event>)
    requires Playable(g, events) && !g.status.gameEnd
    requires forall i :: 0 <= i < |events| ==> !events[i].RestartGame?
    ensures var h := Run(g, session, events);
            && |h.requests| == |g.requests| + (if h.status.gameEnd && session.user != GUEST then 1 else 0)
            && h.requests[..|g.requests|] == g.requests
            && forall i :: |g.requests| <= i < |h.requests| ==> h.requests[i].PostScore? && h.requests[i].userId == session.userId
    decreases |events|
  {
    if |events| > 0 {
      var prefix := events[..|events| - 1];
      PlayablePrefix(g, events, |events| - 1);
      ScorePostedOnceAtEnd(g, session, prefix);
    }
  }

  /**
   * Words fetched after `restartGame` that arrive once round 1 has ended
   * replace the current word with the first new word while the round stays
   * at 2, so the current word no longer belongs to the round.
   */
  lemma LateWordsLeaveRoundBehind(g: Game, session: Session, newWords: seq<Word>)
    requires |g.gameData| >= 2 && g.status == RestartStatus(g.gameData)
    requires |newWords| >= 2 && newWords[0] != newWords[1]
    ensures var events := [RoundEnd(0), WordsFetched(newWords)];
            && Playable(g, events)
            && Run(g, session, events).status.round == 2
            && Run(g, session, events).status.currWord == Some(newWords[0])
            && !Consistent(Run(g, session, events).status, Run(g, session, events).gameData)
  {
    var events := [RoundEnd(0), WordsFetched(newWords)];
    assert events[..1] == [RoundEnd(0)];
    assert [RoundEnd(0)][..0] == [];
  }
}
