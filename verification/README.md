# Wordeo: game rounds and account page, modelled in Dafny

Wordeo is a word-guessing game played in the browser. This project models
two parts of its React client.

**The game page** (`client/src/Components/OldGame/OldGame.jsx`) plays a list
of words, one per round. The page holds:

- `gameStatus`: round, score, current word, `gameEnd`, time budget `roundTime`, `wordGuessed`.
- `roundStatus.incorrectLettersGuessed`: the wrong-letter counter.
- `inventory`: powerups, each with a name, a quantity and an `hasActivated` flag.
- `activePowerup`: the powerup currently armed.

The timer ends a round with the score it earned. The letter board reports
guessed words and wrong letters. The powerup buttons spend a use at most once
per round. An effect on `gameEnd` fetches words while the game runs, and
posts the score once the game has ended, unless the player is the guest.

The page is modelled twice:

- `RoundLifecycle` is a value model. `Game` is the whole page state, `Event`
  covers every handler and the arrival of fetched words, and `Step`/`Run` take
  events. The lemmas about runs of the game are stated over this model.
- `OldGame.GamePage` is the page as an object. Its state cells are fields,
  its inventory is an array, and `roundEnd` clears the activation flags in a
  loop. Each handler is a method proved to take the page from its old
  `Snapshot()` to `Step` of it.

**The account page** (`client/src/Pages/Account.jsx`) reads the signed-in
user from `document.cookie`. It checks that the user matches the
`/account/:userName` address. It also checks every edit and deletion in two
ways:

- length checks on the edit form;
- an ownership test: the cookie's user name must equal the one in state.

When it mounts, it looks the user's account up if both cookies are present
and signs out at once if not. It signs out by expiring both cookies and
clearing its state.

- `JsStrings` models the JavaScript string built-ins the page calls:
  `split`, `pop`, `trim` and `startsWith`. It adds `join`, to state what
  `split` undoes, and `indexOf`/`lastIndexOf`, to state which piece
  `split(...).pop()` picks out. The page itself calls neither of the last two.
  The page's one `some`, over the cookie's items, is `SomeItemStarts` in
  `AccountCookies`.
- `AccountCookies` models the cookie and address reading. The browser's
  cookie jar is modelled as the list of cookies it serialises into
  `document.cookie`, so what the page reads is proved against what the jar
  holds.
- `Account` holds the checks and the `AccountPage` class. Its methods record
  the cookies written, the address navigated to and the calls made to the
  user API, in order.

I/O is modelled in two ways:

- **Inputs, as parameters:** what the browser or the server provides (cookie
  strings, text-box contents, API responses, `NODE_ENV`, the timer's score).
- **Outputs, as logs:** what the client sends out (fetch/post/PATCH/DELETE
  calls, cookie writes, navigation).

## Model

| member | source | states |
|---|---|---|
| `RoundLifecycle.DefaultNumRounds` | client/src/Components/OldGame/OldGame.jsx:19 | The number of rounds to request defaults to the length of a non-empty word list, otherwise 10; it is always positive. |
| `RoundLifecycle.InitialInventory` | client/src/Components/OldGame/OldGame.jsx:57-59 | Two powerups, `Add Time` then `Reveal Letter`, each with uses left and none activated, so a round-end reset leaves the inventory as it is. |
| `RoundLifecycle.GameEndEffect` | client/src/Components/OldGame/OldGame.jsx:61-80 | The effect posts the score exactly when the game has ended and the player is not `Guest`, with the player's id and the current score. It fetches `numRounds` words exactly when the game has not ended. |
| `RoundLifecycle.Announce` | client/src/Components/OldGame/OldGame.jsx:61-80 | The effect runs only when `gameEnd` changes (its dependency at line 80). Then it makes at most one request, the one `GameEndEffect` gives, and none for a guest whose game ended. |
| `RoundLifecycle.Initial` | client/src/Components/OldGame/OldGame.jsx:15-80 | A mounted page: round 1, score 0, `gameEnd` as given, no time budget, the given word list, the first word exactly when the list is non-empty, the counter 0, nothing armed. The mount effect has run once: a fetch of `numRounds` words while the game runs, a score post for an ended game of a signed-in player. |
| `RoundLifecycle.StatusAfterRoundEnd` | client/src/Components/OldGame/OldGame.jsx:89-106 | Score grows by `scoreEarned`. **A word is left:** round +1, current word `gameData[oldRound]` (always in range), its time `10 + 5*difficulty`, `wordGuessed` false. **On the last round:** the game ends, time becomes 0, round and word are kept. `1 <= round <= len` is preserved. |
| `RoundLifecycle.RestartStatus` | client/src/Components/OldGame/OldGame.jsx:130-139 | `restartGame` installs round 1 on the first word with its time budget, score 0, the game running and no word guessed. |
| `RoundLifecycle.ResetActivations` | client/src/Components/OldGame/OldGame.jsx:87 | Same length and order, and every entry keeps its name and quantity with `hasActivated` false. |
| `RoundLifecycle.Activate` | client/src/Components/OldGame/OldGame.jsx:150-152 | A clicked powerup is activated. It loses exactly one use if it was not already active this round, and none otherwise. |
| `RoundLifecycle.ActiveAfterClick` | client/src/Components/OldGame/OldGame.jsx:154-158 | The armed powerup becomes `Add Time` or `Reveal Letter` only on a first click on that powerup this round; otherwise it stays as it was. |
| `RoundLifecycle.Step` | client/src/Components/OldGame/OldGame.jsx:61-165 | Per handler, what changes and what does not. The score moves only on `roundEnd` (+earned) and `restartGame` (0). The wrong-letter counter: +1 per wrong letter, nothing else changed; 0 after `roundEnd`/`wordGuessed`. The inventory changes only on `roundEnd`/clicks, the armed powerup only on clicks/consume (`none`). `wordGuessed` changes only that flag. The request log only grows. |
| `RoundLifecycle.Run` | client/src/Components/OldGame/OldGame.jsx:61-165 | Over any sequence of handlers, each legal in the state it is taken in (`Playable`), the round stays at least 1 and the inventory keeps its length. The word list is non-empty exactly when it started non-empty or words were fetched, so a restart is legal after the first fetch. |
| `RoundLifecycle.PlayableExtends` | client/src/Components/OldGame/OldGame.jsx:61-165 | `Playable` is exactly "each event legal where it is taken": a playable run can be extended by an event if and only if that event is legal in the state the run reached. |
| `RoundLifecycle.RestartAfterFirstFetch` | client/src/Components/OldGame/OldGame.jsx:18-139 | A page mounted with no words cannot restart yet. Once its words arrive, fetch-then-restart is a legal run and ends on the restart status of the fetched list. |
| `RoundLifecycle.RestartIsConsistent` | client/src/Components/OldGame/OldGame.jsx:130-139 | `restartGame` gives round 1 on the first word with its time budget, score 0, and the game running. |
| `RoundLifecycle.StepKeepsConsistent` | client/src/Components/OldGame/OldGame.jsx:84-165 | Every handler keeps the status in agreement with the word list: round in range, the round's word, the matching time budget. There are two exceptions, both for fetched words: words that arrive after round 1, and words that arrive after the game has ended (the budget would become the first word's instead of 0). |
| `RoundLifecycle.PlayThrough` | client/src/Components/OldGame/OldGame.jsx:84-109 | Over `roundEnd` calls from a running game, the round advances one per call until the last word. The game ends on the call after the last round. The score grows by the sum of the scores earned. |
| `RoundLifecycle.FullGame` | client/src/Components/OldGame/OldGame.jsx:84-139 | After `restartGame`, one `roundEnd` per word ends the game on the last word and round, with the summed score and no time left. |
| `RoundLifecycle.PotentialFallsOnlyAtRoundEnd` | client/src/Components/OldGame/OldGame.jsx:148-160 | Over any run, a powerup keeps its name and its quantity never grows. Quantity less any pending use falls by at most the number of rounds that ended. |
| `RoundLifecycle.AtMostOneUsePerRound` | client/src/Components/OldGame/OldGame.jsx:148-160 | Uses are never restored. A powerup loses at most one more use than the number of rounds ended: one per round. |
| `RoundLifecycle.SecondClickIsIgnored` | client/src/Components/OldGame/OldGame.jsx:148-160 | Clicking the same powerup twice in a round changes nothing the second time. |
| `RoundLifecycle.WrongLettersAccumulate` | client/src/Components/OldGame/OldGame.jsx:124-128 | With no round end or guessed word in between, the counter grows by exactly the number of wrong letters reported. |
| `RoundLifecycle.WrongLettersDoNotLeak` | client/src/Components/OldGame/OldGame.jsx:108-145 | After the last `roundEnd` or `wordGuessed`, the counter holds exactly the wrong letters reported since. |
| `RoundLifecycle.ScorePostedOnceAtEnd` | client/src/Components/OldGame/OldGame.jsx:61-67 | Until a restart, a running game adds exactly one request, a score post for the player's id, when it ends with a signed-in player. Otherwise it adds none. |
| `RoundLifecycle.LateWordsLeaveRoundBehind` | client/src/Components/OldGame/OldGame.jsx:69-78 | Words fetched after a restart that arrive once round 1 has ended replace the current word with their first word while the round stays at 2. The current word then no longer belongs to the round. |
| `OldGame.GamePage.constructor` | client/src/Components/OldGame/OldGame.jsx:15-59 | A mounted page: round 1, score 0, the first given word, `gameEnd` as given, no time budget, Add Time x5 and Reveal Letter x1 unactivated, nothing armed. The effect has run once. |
| `OldGame.GamePage.GameEndChanged` | client/src/Components/OldGame/OldGame.jsx:61-80 | The effect appends its request only when `gameEnd` has changed. |
| `OldGame.GamePage.OnWordsFetched` | client/src/Components/OldGame/OldGame.jsx:70-78 | The fetched words become the word list, the first one the current word with its time budget; loading ends (`Step` on `WordsFetched`). |
| `OldGame.GamePage.RoundEnd` | client/src/Components/OldGame/OldGame.jsx:84-109 | The page goes to `Step` on `RoundEnd(scoreEarned)`. The array loop clears every activation flag in place, then the status update, the counter reset and the effect follow. |
| `OldGame.GamePage.WordGuessed` | client/src/Components/OldGame/OldGame.jsx:114-121 | The page goes to `Step` on `WordGuessed`: only the flag is set and the counter reset. |
| `OldGame.GamePage.IncorrectLetterGuessed` | client/src/Components/OldGame/OldGame.jsx:124-128 | The page goes to `Step` on a wrong letter: the counter +1, nothing else. |
| `OldGame.GamePage.RestartGame` | client/src/Components/OldGame/OldGame.jsx:130-139 | The page goes to `Step` on `RestartGame`: the restart status, inventory untouched, and a fetch if the game had ended. |
| `OldGame.GamePage.RestartRound` | client/src/Components/OldGame/OldGame.jsx:141-145 | The wrong-letter counter becomes 0 and nothing else changes. |
| `OldGame.GamePage.ResetInventory` | client/src/Components/OldGame/OldGame.jsx:87 | The loop over the inventory array leaves it equal to `ResetActivations` of its old contents: every name and quantity kept, every activation flag cleared. |
| `OldGame.GamePage.PowerupHandler` | client/src/Components/OldGame/OldGame.jsx:148-160 | The page goes to `Step` on a click: the array entry is activated in place and the armed powerup set. |
| `OldGame.GamePage.PowerupOnConsume` | client/src/Components/OldGame/OldGame.jsx:163-165 | The page goes to `Step` on consume: the armed powerup becomes `none`, nothing else changes. |
| `JsStrings.StartsWith` | client/src/Pages/Account.jsx:139-140 | When `s.startsWith(p)` holds, `s` is `p` followed by the rest of `s`; every string starts with the empty string. |
| `JsStrings.StartsWithIsPrefix` | client/src/Pages/Account.jsx:139-140 | `s.startsWith(p)` holds exactly when `s` is `p` followed by some string. |
| `JsStrings.Trim` | client/src/Pages/Account.jsx:139-140 | `s.trim()` is a contiguous part of `s` that, when non-empty, starts and ends with a non-space. |
| `JsStrings.TrimStripsWhiteSpace` | client/src/Pages/Account.jsx:139-140 | `s.trim()` removes only white space, and only from the two ends: `s` is some white space, then the result, then more white space. The result, when non-empty, starts and ends with a non-space. |
| `JsStrings.Split` | client/src/Pages/Account.jsx:139 | `split` of a one-character separator gives at least one piece and no piece holds the separator. |
| `JsStrings.JoinSplit` | client/src/Pages/Account.jsx:139 | Joining the pieces of `split` with the separator gives back the string: nothing is lost or reordered. |
| `JsStrings.SplitFirstPiece` | client/src/Pages/Account.jsx:144 | `split(';')[0]` is a prefix of the string without the separator, followed by the separator or by the end of the string. |
| `JsStrings.SplitJoin` | client/src/Pages/Account.jsx:572 | `split` undoes `join` when no part holds the separator. |
| `JsStrings.SplitOn` | client/src/Pages/Account.jsx:144 | `s.split(sep)` for a separator string gives one piece, `s` itself, when `sep` does not occur, and at least two when it does. |
| `JsStrings.SplitOnPiecesLackSeparator` | client/src/Pages/Account.jsx:144 | No piece of `s.split(sep)` holds `sep`. |
| `JsStrings.LastPieceFollowsLastOccurrence` | client/src/Pages/Account.jsx:144 | `s.split(sep).pop()` is the text after the last occurrence of a separator that cannot overlap itself, or all of `s` when it does not occur. |
| `JsStrings.TrimmedStartsWith` | client/src/Pages/Account.jsx:139-140 | For a prefix ending in a non-space, `trim().startsWith(p)` agrees with trimming only the leading white space. |
| `AccountCookies.CookieExists` | client/src/Pages/Account.jsx:139-140 | The presence test (also at 567-568). An empty `document.cookie` reports no cookie; what it reports for a jar is `PresenceMatchesJar`. |
| `AccountCookies.CookieValue` | client/src/Pages/Account.jsx:144 | The value extraction (also at 343, 368 and 571). The value never holds `;`; what it reads from a jar is `ValueFollowsLastMarker` and `ValueMatchesJar`. |
| `AccountCookies.ValueFollowsLastMarker` | client/src/Pages/Account.jsx:144 | The extracted value is the text after the last `; key=` in `"; " + cookie`, up to the next `;` or the end. It is empty when the marker does not occur. |
| `AccountCookies.SomeItemStartsAt` | client/src/Pages/Account.jsx:139-140 | `.some` over the trimmed items, tried front to back, holds exactly when some item at some index starts with the prefix. |
| `AccountCookies.PresenceMatchesJar` | client/src/Pages/Account.jsx:139-140 | A cookie is reported present exactly when the jar holds a cookie of that name. |
| `AccountCookies.ValueMatchesJar` | client/src/Pages/Account.jsx:343 | The value read for a name is that of the last cookie of that name in the jar, and `""` when there is none. |
| `AccountCookies.ReadBackLastWrite` | client/src/Pages/Account.jsx:368 | A cookie listed last in `document.cookie` is reported present and read back as written, whatever the cookies before it. |
| `AccountCookies.SignedInReadsJar` | client/src/Pages/Account.jsx:139-144 | The user counts as signed in exactly when the jar holds both a `displayName` and a `userName` cookie. The name then looked up is the last `userName` cookie's value. |
| `AccountCookies.UrlSegment` | client/src/Pages/Account.jsx:572 | `pathname.split('/')[index]` (also at 109) exists exactly when the path has that many segments, and never holds `/`. |
| `AccountCookies.AccountPathSegment` | client/src/Pages/Account.jsx:572 | `("/account/" + u).split('/')[2]` is `u` when `u` has no `/`. |
| `AccountCookies.VerifyUrlAndCookies` | client/src/Pages/Account.jsx:566-582 | The check fails unless both cookies are present, and it always fails when the cookie's user name holds `/`. `completeAllFEChecks` (589-597) returns the same value. |
| `AccountCookies.OnlyTheOwnerPasses` | client/src/Pages/Account.jsx:566-582 | On `/account/u`, `verifyURLAndCookies` is true exactly when the jar holds a `displayName` cookie and its last `userName` cookie is `u`. |
| `Account.EditError` | client/src/Pages/Account.jsx:320-333 | Checks run in order and the first failure wins: shorter than 1, then longer than 15 (display name), then description longer than 200. Each message is given exactly when its check is the first to fail. An edit that passes never has both fields empty, so the no-changes branch is unreachable. |
| `Account.Fallback` | client/src/Pages/Account.jsx:221-222 | A typed field is sent as typed, an empty one as the stored value. The value sent is empty only when both are, so a stored value is never blanked. |
| `Account.ValidatedNameIsSentAsTyped` | client/src/Pages/Account.jsx:221 | After the length checks pass, the display-name fallback never applies. |
| `Account.OwnsAccount` | client/src/Pages/Account.jsx:343-347 | The ownership test (also at 368-372) always passes in the test environment. Outside it, a state user name holding `;` never passes. |
| `Account.OwnershipReadsJar` | client/src/Pages/Account.jsx:343-347 | Outside the test environment, the ownership test passes exactly when the state's user name equals the jar's last `userName` cookie, or `""` when there is none. |
| `Account.AccountPage.constructor` | client/src/Pages/Account.jsx:66-186 | The page starts with no error, every mode off, and `testEnvironment` as `NODE_ENV` says. The mount's `getAccountDetails` sees `testEnvironment` still false. **Both cookies present:** the empty account, nothing written, and one user and one score lookup for the cookie's user name. **Otherwise:** signed out to the sign-in page at once, with no request. |
| `Account.AccountPage.OnAccountDetails` | client/src/Pages/Account.jsx:147-183 | **A returned account:** it becomes the state, and the `userName` and `displayName` cookies are rewritten from it, in that order. **A failed call or a null record:** sign out to the sign-in page. |
| `Account.AccountPage.ExpireCookiesAndRedirect` | client/src/Pages/Account.jsx:384-400 | Both cookies are written expired, in order. The state becomes empty strings, zero counters and no achievements, with no inventory key. The address becomes `redirect`. |
| `Account.AccountPage.SignOut` | client/src/Pages/Account.jsx:513 | Sets `loggingOut`, then signs out to `/`. |
| `Account.AccountPage.VerifyEdit` | client/src/Pages/Account.jsx:314-354 | **A failed length check:** shows its message and returns false; nothing else changes. **Otherwise:** the message is cleared. If the ownership test passes, the edit starts; if not, the page signs out to the sign-in page with no request made. |
| `Account.AccountPage.PerformAccountEdit` | client/src/Pages/Account.jsx:206-234 | **In the test environment:** the typed values are stored as they are. **Otherwise:** one PATCH is sent with the empty-field fallback applied, and the state is not touched. |
| `Account.AccountPage.OnEditResponse` | client/src/Pages/Account.jsx:236-262 | **On success:** the state and the `displayName` cookie take the server's values, and the page reloads `/account/<userName>`. **On failure, with a body that parsed:** it signs out. |
| `Account.AccountPage.VerifyDeletion` | client/src/Pages/Account.jsx:362-379 | **If the ownership test passes:** one DELETE for the state's user name and nothing else. **Otherwise:** sign out with no request. |
| `Account.AccountPage.PerformAccountDeletion` | client/src/Pages/Account.jsx:276-287 | Exactly one DELETE for the given user name is sent. |
| `Account.AccountPage.OnDeletionResponse` | client/src/Pages/Account.jsx:289-302 | The page signs out whatever the parsed response says. |

## Left out

- **Network calls:** `fetchWords`, `postScore`, `fetch` and the responses are I/O. Each call is appended to a request log. Each response is a parameter (`OnWordsFetched`, `OnAccountDetails`, `OnEditResponse`, `OnDeletionResponse`), delivered whenever the caller chooses.
- **Score reporting:** `postScore` is called with `(userId, score)`, but client/src/Util/ApiCalls.js:15 takes `(gameMode, userName, score)`. The model records the call as the game page makes it.
- **Timer, letter board, powerup buttons and the `Powerup` class:** they are not part of this model. The score the timer computes is the `scoreEarned` input, and a powerup is a datatype with name, quantity and flag.
- **Player identity:** the game page reads `user` and `userid` from `document.cookie` (OldGame.jsx:24-34). They are the `Session` the page is built with.
- `OldGame.GamePage.PowerupHandler`: the clicked powerup is identified by its index in the inventory. In the source the handler receives the entry object itself.
- **Effect timing:** the effect on `gameEnd` runs after a render. Here it runs at the end of the handler that changed `gameEnd`. React's batching of several updates in one render is not modelled. So the guard of `roundEnd`, which reads the rendered round, and its update, which reads the previous round, see the same round here.
- **Empty word lists:** with an empty word list, `restartGame` and the fetched-words handler dereference `data[0]`, which throws in JavaScript. The model requires a non-empty list for these two.
- **Failed or empty fetches:** when `fetchWords` fails it resolves to `undefined` (client/src/Util/ApiCalls.js:9-12), and the handler then stores it and dereferences `data[0]` (OldGame.jsx:71-75). The model has no event for a failed or empty fetch.
- **Rendering:** everything rendered in both files is left out (OldGame.jsx:167-217, Account.jsx:402-557). This includes:
  - the redirect when the front-end check fails (Account.jsx:549-553);
  - the buttons that only toggle `editing` and `deleting`.
- `Account.AccountPage.constructor`: the test-environment branch of `getAccountDetails` (Account.jsx:107-134) is not modelled. Its only call is the mount effect (83-89), which runs before `testEnvironment` is set and so always sees `false`.
- `Account.AccountPage.constructor`: the score lookup is logged together with the user lookup. In the source it is sent once the user response has arrived, and not at all if that call throws.
- `Account.AccountPage.OnEditResponse`: the response event stands for a PATCH whose body parsed as JSON. `performAccountEdit` reads the body (Account.jsx:236) before it tests `response.ok` (238), and it catches nothing. A failed `fetch` (224) or a body that is not JSON therefore rejects the handler, with no state change, no cookie write and no sign-out. Those paths are not modelled.
- `Account.AccountPage.OnDeletionResponse`: the response event stands for a DELETE whose body parsed as JSON. `performAccountDeletion` reads the body (Account.jsx:289) before it tests `response.ok` (291), and it catches nothing. A failed `fetch` (279) or a body that is not JSON, such as an empty reply, therefore rejects the handler, and the page does not sign out. Those paths are not modelled.
- **Thrown errors in `getAccountDetails`:** an exception is caught and only alerted (Account.jsx:187-190), with the state left as it was. That covers a network failure, a non-JSON body, or an empty score list. The model has no event for it.
- **`completeAllFEChecks`:** it (Account.jsx:589-597) returns exactly what `verifyURLAndCookies` returns, so `VerifyUrlAndCookies` stands for both.
- **Logging:** `console.log` and `alert` are left out. The server's message on a failed call does not change what the page does.
- **Cookie jar:** the jar theorems assume non-empty cookie names without `;`, `=` or leading white space, and values without `;`. A browser lists a cookie with an empty name as its bare value, with no `=`; such cookies are outside the jar model. How the browser stores, orders and expires cookies is not modelled: the page's writes are only recorded.
- **String length:** lengths are counted in characters. JavaScript counts UTF-16 code units, which differs for characters outside the Basic Multilingual Plane.
