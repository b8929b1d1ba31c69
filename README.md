# wordgame core in Dafny

A model of the core of *wordgame*, a multiplayer Wordle variant. Several
accounts share a session and take turns guessing five-letter words. Each
guess is scored against up to four secret words at once, one per
quadrant of the board. A session is over when every quadrant is solved, or
when some quadrant shows exactly `limit` guesses.

The model covers:

- the scoring engine (`buildCloud`, `buildClouds`, `cloudsToRatings`,
  `buildKeyboard`, `whileTake`);
- the session service (`create`, `createGuess`, `addPeer`, `get` and the
  `toDTO` projection clients receive);
- the snapshot's derived values (`turnId`, `isSolved`, `isOver`, `status()`);
- the word catalog and its start-up loader;
- the guess endpoint's text validation;
- account upsert;
- the client's guess buffer and board rows.

Modules, one per file:

| file | module | models |
|---|---|---|
| `wrappers.dfy` | `Wrappers` | `Option` (a Kotlin `T?`), `Result` (`Either`, or a call that throws), `Min` |
| `text.dfy` | `Text` | `isLetter`, `lowercase`, `isWhitespace`, `trim` on ASCII |
| `entities.dfy` | `Entities` | the shared API types and `ApiSession`'s derived values |
| `scoring.dfy` | `Scoring` | the rating of guesses and the keyboard summary |
| `sessions.dfy` | `Sessions` | `SessionsService` over a map from session id to session, and `toDTO` |
| `words.dfy` | `Words` | `WordsService` over a map from word text to solution flag |
| `loader.dfy` | `WordLoader` | `saveWords` and `configureWords` |
| `routes.dfy` | `Routes` | `post<Guesses>` and `GuessParams.sanitize` |
| `accounts.dfy` | `Accounts` | `AccountsService` over a map from account id to name |
| `game_screen.dfy` | `GameScreen` | the Game/Loading choice, the `rows` builder, `handleKeyPress` |

How the rating is specified. `Scoring.Cloud` defines the rating
declaratively, with no replaced characters:

- a position is Correct when the letters agree;
- a misplaced letter is Kinda while the misplaced copies of it to its left
  number fewer than the copies of it in the word not claimed by exact
  matches;
- every other position is Wrong.

`Scoring.BuildCloud` keeps the source's two loops and its `replaceFirst(c, '-')`
consumption. It is proved equal to `Cloud`, and the lemmas about `Cloud`
carry the properties: credit equals the smaller of the two letter counts,
Kinda goes left to right, and Wrong means the letter is used up.

The keyboard is specified by `IsBestBoard`: exactly the guessed letters,
each with the best status it received. This board is proved unique.

The services are classes whose methods change a map field. Their contracts
give the whole new state. A ghost `Valid()` holds the table invariants:

- slots in order and in range;
- distinct peer accounts and distinct words;
- guess positions numbered from zero;
- `solved` pointing at the first guess that spelled the word.

Every method preserves `Valid()`.

Randomness, ids and external tables become parameters:

- `Create` receives the drawn words and the new session id.
- `AddPeer` receives `pick`, which selects the slot.
- `Random` returns some matching word, left unspecified.
- `Upsert` receives the generated UUID.
- The word catalog and the account table are passed as maps wherever the
  session service reads them.

## Model

| member | source | states |
|---|---|---|
| Text.LowerFacts | server/src/main/kotlin/wtf/hotbling/wordgame/services/WordsService.kt:42 | `lowercase` keeps the length, maps letters to letters and nothing else to a letter, turns letters into lower-case letters, and is idempotent |
| Text.LowerOfLowerLetters | server/src/main/kotlin/wtf/hotbling/wordgame/routes/Sessions.kt:59 | lower-casing text that is already lower-case letters changes nothing |
| Text.Trim | server/src/main/kotlin/wtf/hotbling/wordgame/routes/Sessions.kt:70 | `trim` returns a contiguous piece of the input; everything it drops at either end is whitespace; the result neither starts nor ends with whitespace |
| Text.IsLetters | server/src/main/kotlin/wtf/hotbling/wordgame/plugins/Words.kt:59 | `isLetters`: a string of letters holds no whitespace |
| Text.Lower | server/src/main/kotlin/wtf/hotbling/wordgame/services/WordsService.kt:42 | `lowercase` keeps the length, leaves every character that is not an upper-case letter alone, and turns letters into lower-case letters |
| Text.LeadingWhitespace | server/src/main/kotlin/wtf/hotbling/wordgame/routes/Sessions.kt:70 | the whitespace prefix `trim` drops: every counted character is whitespace and the next one is not |
| Entities.OrdinalOrder | shared/src/commonMain/kotlin/wtf/hotbling/wordgame/api/entities.kt:124-135 | ordinals rank Correct < Kinda < Wrong, distinguish the statuses, and Correct is the best |
| Entities.ApiSession.TurnId | shared/src/commonMain/kotlin/wtf/hotbling/wordgame/api/entities.kt:66 | `turnId` is the id of one of the snapshot's peers |
| Entities.ApiSession.IsSolved | shared/src/commonMain/kotlin/wtf/hotbling/wordgame/api/entities.kt:68 | `isSolved`; a snapshot with no words is solved |
| Entities.ApiSession.IsOver | shared/src/commonMain/kotlin/wtf/hotbling/wordgame/api/entities.kt:70-71 | `isOver` holds whenever the snapshot is solved, and with a null limit only then |
| Entities.ApiSession.Status | shared/src/commonMain/kotlin/wtf/hotbling/wordgame/api/entities.kt:79-83 | `status()` is Loading, carrying the peer count, exactly when the roster is not full; Done carries `isSolved` and only occurs when over |
| Entities.StatusCases | shared/src/commonMain/kotlin/wtf/hotbling/wordgame/api/entities.kt:79-83 | `status()` is Loading(peer count) exactly when the peer count differs from `size`; Done(isSolved) exactly when full and over; Game exactly when full and not over |
| Entities.NoLimitOverMeansSolved | shared/src/commonMain/kotlin/wtf/hotbling/wordgame/api/entities.kt:70-71 | with a null limit, `isOver` holds exactly when `isSolved` does |
| Entities.PastLimitIsNotOver | shared/src/commonMain/kotlin/wtf/hotbling/wordgame/api/entities.kt:71 | because `isOver` compares guess counts with `==`, an unsolved snapshot whose quadrants have all gone past the limit is not over |
| Scoring.ReplaceFirstCounts | server/src/main/kotlin/wtf/hotbling/wordgame/services/SessionsService.kt:313 | `replaceFirst(c, '-')` on a string holding `c` removes one copy of `c` and adds one `-`, other letters keep their counts; without `c` nothing changes |
| Scoring.ReplaceFirstIsFirst | server/src/main/kotlin/wtf/hotbling/wordgame/services/SessionsService.kt:319 | `replaceFirst` replaces the leftmost occurrence and nothing else |
| Scoring.ReplaceFirst | server/src/main/kotlin/wtf/hotbling/wordgame/services/SessionsService.kt:313 | `replaceFirst(c, '-')` keeps the length and every character other than `c` |
| Scoring.CloudShape | server/src/main/kotlin/wtf/hotbling/wordgame/services/SessionsService.kt:306-315 | a rating has one status per word letter; a position is Correct exactly when guess and word agree there; positions past a shorter guess are Wrong |
| Scoring.CreditsAreMinOfCounts | server/src/main/kotlin/wtf/hotbling/wordgame/services/SessionsService.kt:316-321 | for every letter, the positions rated Correct or Kinda number exactly min(count in guess, count in word), so never more than the word holds |
| Scoring.KindaGoesLeftmost | server/src/main/kotlin/wtf/hotbling/wordgame/services/SessionsService.kt:316-321 | if a misplaced copy of a letter is Kinda, every earlier misplaced copy of that letter is Kinda too |
| Scoring.WrongMeansUsedUp | server/src/main/kotlin/wtf/hotbling/wordgame/services/SessionsService.kt:316-321 | a guessed letter rated Wrong has had every copy in the word credited |
| Scoring.PassesComputeCloud | server/src/main/kotlin/wtf/hotbling/wordgame/services/SessionsService.kt:306-323 | the exact pass followed by the left-to-right misplaced pass yields the declarative rating `Cloud` |
| Scoring.BuildCloud | server/src/main/kotlin/wtf/hotbling/wordgame/services/SessionsService.kt:306-323 | `buildCloud`: result as long as the word, Correct exactly at exact matches, and equal to `Cloud(word, guess)` for guesses without `-` |
| Scoring.BuildClouds | server/src/main/kotlin/wtf/hotbling/wordgame/services/SessionsService.kt:298-304 | `buildClouds`: one rating per guess, in order, each as long as the word; when no guess contains `-`, the ratings are `Clouds`, the declarative rating of each guess |
| Scoring.Ratings | server/src/main/kotlin/wtf/hotbling/wordgame/services/SessionsService.kt:295-296 | `cloudsToRatings`: one row per rating; a row spells the guess's letters and carries the rating's statuses |
| Scoring.FoldIsBest | server/src/main/kotlin/wtf/hotbling/wordgame/services/SessionsService.kt:325-336 | the keyboard fold holds exactly the guessed letters, each with a status it received and none it received ranked better |
| Scoring.BestBoardIsUnique | server/src/main/kotlin/wtf/hotbling/wordgame/services/SessionsService.kt:325-336 | only one map meets that description |
| Scoring.BuildKeyboard | server/src/main/kotlin/wtf/hotbling/wordgame/services/SessionsService.kt:325-336 | `buildKeyboard`'s nested loops compute the best board of all rated letters |
| Scoring.KeyboardOf | server/src/main/kotlin/wtf/hotbling/wordgame/services/SessionsService.kt:325-336 | the keyboard of a list of rated rows is the best board of all their letters |
| Scoring.TakeThrough | server/src/main/kotlin/wtf/hotbling/wordgame/services/SessionsService.kt:342-349 | `whileTake` returns a prefix of its input, non-empty when the input is |
| Scoring.TakeThroughStopsAfterFailure | server/src/main/kotlin/wtf/hotbling/wordgame/services/SessionsService.kt:342-349 | when element n is the first to fail the predicate, `whileTake` returns the first n+1 elements |
| Scoring.TakeThroughKeepsAll | server/src/main/kotlin/wtf/hotbling/wordgame/services/SessionsService.kt:342-349 | when no element fails, `whileTake` returns the whole list |
| Scoring.WhileTake | server/src/main/kotlin/wtf/hotbling/wordgame/services/SessionsService.kt:342-349 | the loop keeps every element up to and including the first failing one: the result is the input, or ends with a failing element preceded only by passing ones |
| Scoring.CloudExamplesShort | server/src/test/kotlin/wtf/hotbling/wordgame/services/SessionsServiceTest.kt:13-27 | the short expectations (word/guess `""/""`, `a/a`, `a/b`, `aa/aa`, `ab/ab`, `aa/ab`) give the listed ratings |
| Scoring.CloudExampleRepeat | server/src/test/kotlin/wtf/hotbling/wordgame/services/SessionsServiceTest.kt:29-32 | word `ab`, guess `aa`: [Correct, Wrong], not Kinda |
| Scoring.CloudExampleHello | server/src/test/kotlin/wtf/hotbling/wordgame/services/SessionsServiceTest.kt:33-36 | word `hello`, guess `olleh`: [Kinda, Kinda, Correct, Kinda, Kinda] |
| Scoring.CloudExampleHealth | server/src/test/kotlin/wtf/hotbling/wordgame/services/SessionsServiceTest.kt:43-46 | word `teethe`, guess `health`: [Kinda, Correct, Wrong, Wrong, Kinda, Wrong]; the second `h` finds the only one taken |
| Scoring.CloudExampleTeethe | server/src/test/kotlin/wtf/hotbling/wordgame/services/SessionsServiceTest.kt:48-51 | word `teethe`, guess `eeeeee`: [Wrong, Correct, Correct, Wrong, Wrong, Correct]; the exact matches use up every `e` |
| Scoring.CloudExampleCheer | server/src/test/kotlin/wtf/hotbling/wordgame/services/SessionsServiceTest.kt:53-56 | word `close`, guess `cheer`: [Correct, Wrong, Kinda, Wrong, Wrong] |
| Scoring.CloudExampleCocks | server/src/test/kotlin/wtf/hotbling/wordgame/services/SessionsServiceTest.kt:58-61 | word `close`, guess `cocks`: [Correct, Kinda, Wrong, Wrong, Kinda] |
| Scoring.CloudExampleLeave | server/src/test/kotlin/wtf/hotbling/wordgame/services/SessionsServiceTest.kt:63-66 | word `close`, guess `leave`: [Kinda, Wrong, Wrong, Wrong, Correct] |
| Scoring.RatingsExample | server/src/test/kotlin/wtf/hotbling/wordgame/services/SessionsServiceTest.kt:70-78 | `cloudsToRatings` of the `buildClouds` expectation (word `close`, guesses `cheer` and `leave`), letter by letter |
| Scoring.KeyboardExample | server/src/test/kotlin/wtf/hotbling/wordgame/services/SessionsServiceTest.kt:70-100 | no guesses give no ratings and the empty map; guesses `cheer` and `leave` on word `close` give {c:Correct, h:Wrong, e:Correct, r:Wrong, l:Kinda, a:Wrong, v:Wrong} |
| Sessions.IndexOfFirst | server/src/main/kotlin/wtf/hotbling/wordgame/services/SessionsService.kt:195 | `indexOfFirst`: -1 exactly when no peer has the account, else the first peer that has it |
| Sessions.LatestPos | server/src/main/kotlin/wtf/hotbling/wordgame/services/SessionsService.kt:202-204 | the latest guess: none exactly when there are no guesses, else a stored position no other exceeds |
| Sessions.NextGuessPos | server/src/main/kotlin/wtf/hotbling/wordgame/services/SessionsService.kt:202-205 | the next position is 0 for the first guess and above every stored position |
| Sessions.NextTurn | server/src/main/kotlin/wtf/hotbling/wordgame/services/SessionsService.kt:216-217 | the next turn of an in-range turn is in range |
| Sessions.NextGuessPosCountsGuesses | server/src/main/kotlin/wtf/hotbling/wordgame/services/SessionsService.kt:202-205 | with positions numbered from zero, `(latest ?: -1) + 1` is the number of guesses |
| Sessions.NextTurnCycles | server/src/main/kotlin/wtf/hotbling/wordgame/services/SessionsService.kt:216-217 | the next turn wraps at the peer count: it stays in range and is `(turn + 1) mod count` |
| Sessions.SolveMatching | server/src/main/kotlin/wtf/hotbling/wordgame/services/SessionsService.kt:208-214 | the words keep their texts; solved words and words other than the guess keep their value; afterwards a word is solved exactly when it was or it equals the guess |
| Sessions.AfterGuess | server/src/main/kotlin/wtf/hotbling/wordgame/services/SessionsService.kt:202-226 | an accepted guess keeps the roster, size and limit, keeps one entry per word, and appends exactly one guess with the given text and author after the earlier ones |
| Sessions.GuessKeepsWellFormed | server/src/main/kotlin/wtf/hotbling/wordgame/services/SessionsService.kt:202-226 | an accepted guess is appended at the next position, and the session invariant (turn in range, numbered guesses, `solved` = first spelling guess) still holds |
| Sessions.GuessSolves | server/src/main/kotlin/wtf/hotbling/wordgame/services/SessionsService.kt:208-214 | a guess solves exactly the unsolved words it spells, at its own position; solved words keep their position |
| Sessions.SlotsWhere | server/src/main/kotlin/wtf/hotbling/wordgame/services/SessionsService.kt:241-242 | the filter over `0 until size` keeps exactly the slots whose occupancy is the one asked for |
| Sessions.OccupiedSlotsCollide | server/src/main/kotlin/wtf/hotbling/wordgame/services/SessionsService.kt:241-243 | as written, with the creator alone in slot 0 of a session for two, the only slot offered is 0, while the free one is 1 |
| Sessions.OccupiedSlotBreaksOrder | server/src/main/kotlin/wtf/hotbling/wordgame/services/SessionsService.kt:241-249 | as written, seating a newcomer in any slot offered puts two peers in one slot |
| Sessions.FreeSlotsAreFree | server/src/main/kotlin/wtf/hotbling/wordgame/services/SessionsService.kt:242 | every slot the corrected filter offers is in range and held by no peer |
| Sessions.FreeSlotExists | server/src/main/kotlin/wtf/hotbling/wordgame/services/SessionsService.kt:238-243 | a session holds at most `size` peers, and while one is free the corrected filter offers a slot, so the random draw cannot fail |
| Sessions.InsertBySlot | server/src/main/kotlin/wtf/hotbling/wordgame/services/SessionsService.kt:245-249 | the new peer joins the list: one longer, same peers plus the new one |
| Sessions.InsertBySlotOrdered | server/src/main/kotlin/wtf/hotbling/wordgame/services/SessionsService.kt:245-249 | adding a peer in a free slot keeps the peer list in slot order |
| Sessions.InsertKeepsAccounts | server/src/main/kotlin/wtf/hotbling/wordgame/services/SessionsService.kt:235-249 | adding an account that is not yet a peer keeps peer accounts distinct |
| Sessions.WordView | server/src/main/kotlin/wtf/hotbling/wordgame/services/SessionsService.kt:267-293 | a quadrant's view reveals the word exactly when it is solved, keeps the solving position, and shows no more guesses than there are; defined for guesses as long as the word and without `-`, where `Cloud` is `buildCloud`'s rating |
| Sessions.View | server/src/main/kotlin/wtf/hotbling/wordgame/services/SessionsService.kt:259-282 | `toDTO` keeps id, turn, size and limit, lists the peers in slot order with their account names, and has one view per word, revealed exactly when solved |
| Sessions.WordViewFacts | server/src/main/kotlin/wtf/hotbling/wordgame/services/SessionsService.kt:267-293 | a quadrant reveals its word exactly when solved; its history holds the guesses through the solving one (all while unsolved), each spelled, rated by `Cloud` and paired with its author; its keyboard is the best board of every guess |
| Sessions.ViewFacts | server/src/main/kotlin/wtf/hotbling/wordgame/services/SessionsService.kt:259-282 | the snapshot has a turn holder, the peer at index `turn`; it is solved exactly when every word is; it is over exactly when solved or some quadrant shows `limit` guesses |
| Sessions.SessionsService.Get | server/src/main/kotlin/wtf/hotbling/wordgame/services/SessionsService.kt:151-153 | null exactly for an unknown id; otherwise exactly `View` of the stored session (the `toDTO` snapshot `ViewFacts` and `WordViewFacts` describe, for stored guesses without `-`), whose turn holder is the peer at index `turn` |
| Sessions.SessionsService.Create | server/src/main/kotlin/wtf/hotbling/wordgame/services/SessionsService.kt:160-188 | a new session with turn 0, the creator in slot 0, the drawn words unsolved and no guesses; the result is exactly `View` of it, so no word is revealed; its status is Loading(1) unless the session is for one player, and then Game, or Done when no word was drawn or the limit is 0 |
| Sessions.SessionsService.CreateGuess | server/src/main/kotlin/wtf/hotbling/wordgame/services/SessionsService.kt:190-227 | off-turn accounts (non-peers included) get the `turn` constraint error and unknown words the `txt` reference error, both leaving state alone; otherwise the guess is stored at the next position, matching unsolved words are solved and the turn advances, and the result carries `nextTurn` |
| Sessions.SessionsService.AddPeer | server/src/main/kotlin/wtf/hotbling/wordgame/services/SessionsService.kt:229-252 | reference errors for an unknown session or account, no change for a present peer, the `size` constraint for a full roster; otherwise exactly one peer is added in a free slot, and a session of size below 1 ends in the failed slot draw |
| Words.Insert | server/src/main/kotlin/wtf/hotbling/wordgame/services/WordsService.kt:41-52 | the text is lower-cased; a text present with the other flag is the `dup` conflict; a present text with the same flag changes nothing; a new text adds exactly one entry |
| Words.InsertIdempotent | server/src/main/kotlin/wtf/hotbling/wordgame/services/WordsService.kt:43-46 | creating a word a second time, in any case, returns the same entry and changes nothing |
| Words.InsertConflict | server/src/main/kotlin/wtf/hotbling/wordgame/services/WordsService.kt:45 | after a word is stored, creating it with the other flag fails |
| Words.InsertKeepsLowerCase | server/src/main/kotlin/wtf/hotbling/wordgame/services/WordsService.kt:42 | creation keeps every stored text lower-case |
| Words.WordsService.Create | server/src/main/kotlin/wtf/hotbling/wordgame/services/WordsService.kt:41-52 | `create` returns what `Insert` returns and stores what it stores; a conflict stores nothing |
| Words.WordsService.Random | server/src/main/kotlin/wtf/hotbling/wordgame/services/WordsService.kt:54-60 | a catalog word whose flag passes the filter (any when the filter is null); none exactly when no word passes |
| WordLoader.ScanFacts | server/src/main/kotlin/wtf/hotbling/wordgame/plugins/Words.kt:41-56 | `saved` counts the words handed on, each five lower-case letters; in development mode `saved` stays at most 30; saved plus rejected lines never exceed the non-comment lines, and equal them outside development mode |
| WordLoader.StepFacts | server/src/main/kotlin/wtf/hotbling/wordgame/plugins/Words.kt:42-54 | one iteration: after the cap or on a comment nothing changes; at most one counter grows by one; only a valid line is handed on, lower-cased |
| WordLoader.ScanAcceptsValidLines | server/src/main/kotlin/wtf/hotbling/wordgame/plugins/Words.kt:43-54 | outside development mode, the words handed on are exactly the valid non-comment lines, in order, lower-cased |
| WordLoader.StopIsFinal | server/src/main/kotlin/wtf/hotbling/wordgame/plugins/Words.kt:44 | once the development cap stops the loop, later lines change nothing |
| WordLoader.InsertAllFlags | server/src/main/kotlin/wtf/hotbling/wordgame/plugins/Words.kt:52 | after a successful load every loaded word carries the list's flag, earlier words keep theirs, and nothing else appears |
| WordLoader.InsertAllConflict | server/src/main/kotlin/wtf/hotbling/wordgame/plugins/Words.kt:52 | a list word already stored with the other flag makes the load fail |
| WordLoader.BothListsConflict | server/src/main/kotlin/wtf/hotbling/wordgame/plugins/Words.kt:25-26 | since the allowed list is loaded first with `false`, a word in both lists makes the solutions list fail |
| WordLoader.SaveWords | server/src/main/kotlin/wtf/hotbling/wordgame/plugins/Words.kt:33-57 | the loop succeeds exactly when creating its accepted words succeeds, and then returns (saved, errs) and leaves the catalog with those words |
| WordLoader.ConfigureWords | server/src/main/kotlin/wtf/hotbling/wordgame/plugins/Words.kt:14-31 | a missing file fails before anything is loaded; a conflict leaves the catalog as it was (the transaction is taken as all-or-nothing, see Left out); otherwise the allowed words, then the solutions, are in the catalog |
| Routes.Sanitize | server/src/main/kotlin/wtf/hotbling/wordgame/routes/Sessions.kt:70 | only the text is trimmed; the ids are untouched |
| Routes.Accept | server/src/main/kotlin/wtf/hotbling/wordgame/routes/Sessions.kt:50-59 | a guess passes exactly when its trimmed text is five letters; what passes is that text lower-cased, with the ids untouched, so it never holds `-` |
| Routes.AcceptIdempotent | server/src/main/kotlin/wtf/hotbling/wordgame/routes/Sessions.kt:51-59 | validating an accepted request again accepts it unchanged |
| Routes.PostGuess | server/src/main/kotlin/wtf/hotbling/wordgame/routes/Sessions.kt:50-67 | invalid text gets BadRequest without reaching `createGuess`; a valid request is passed on trimmed and lower-cased: the `turn` and `txt` errors of `createGuess` become BadRequest with that error and leave the sessions unchanged, otherwise the guess is stored at the next position and answered as created with `nextTurn` |
| Accounts.AccountsService.Get | server/src/main/kotlin/wtf/hotbling/wordgame/services/AccountsService.kt:30-32 | null exactly for an unknown id, else the account with its name |
| Accounts.AccountsService.Upsert | server/src/main/kotlin/wtf/hotbling/wordgame/services/AccountsService.kt:34-45 | an existing id is renamed and no account is added; otherwise exactly one account is created under the given id or the fresh one; nothing else changes |
| Accounts.UpsertThenGet | server/src/main/kotlin/wtf/hotbling/wordgame/services/AccountsService.kt:30-45 | after `upsert`, `get` of the returned id finds the new name, and every other id reads as before |
| GameScreen.MakeLetter | composeApp/src/commonMain/kotlin/wtf/hotbling/wordgame/GameScreen.kt:172-178 | a `KeyPress.Letter` exists exactly for letters that are not upper-case |
| GameScreen.Present | composeApp/src/commonMain/kotlin/wtf/hotbling/wordgame/GameScreen.kt:244-245 | the screen is Game exactly when the account and the session are known and every seat is taken; otherwise Loading with the ids and counts |
| GameScreen.GameMeansSeated | composeApp/src/commonMain/kotlin/wtf/hotbling/wordgame/GameScreen.kt:245 | whenever the game is shown, the session's own status is not Loading |
| GameScreen.BuildRows | composeApp/src/commonMain/kotlin/wtf/hotbling/wordgame/GameScreen.kt:249-263 | four lists; each starts with its quadrant's attempts in order; an unsolved quadrant then has the typed row and empty rows up to five; a solved one has nothing more |
| GameScreen.CanSaveName | composeApp/src/commonMain/kotlin/wtf/hotbling/wordgame/GameScreen.kt:698-713 | the Save button's condition: a name it accepts is non-empty and at most `NameMaxLen` long |
| GameScreen.SavedNameIsNotBlank | composeApp/src/commonMain/kotlin/wtf/hotbling/wordgame/GameScreen.kt:713 | a name the Save button accepts is non-empty after trimming and at most `NameMaxLen` long |
| GameScreen.GamePresenter.HandleKeyPress | composeApp/src/commonMain/kotlin/wtf/hotbling/wordgame/GameScreen.kt:265-305 | off-turn keys change nothing; Enter submits exactly five letters when no request is in flight; Backspace drops the last letter or does nothing; a letter is added while fewer than five are typed; the buffer stays at most five lower-case letters |
| GameScreen.GamePresenter.CompleteGuess | composeApp/src/commonMain/kotlin/wtf/hotbling/wordgame/GameScreen.kt:278-292 | an accepted guess sets the local turn to the server's `nextTurn` and clears the buffer; a rejected one keeps both; loading ends either way |
| GameScreen.GamePresenter.OnSessionUpdate | composeApp/src/commonMain/kotlin/wtf/hotbling/wordgame/GameScreen.kt:233-236 | a pushed snapshot replaces the local one, leaving the buffer alone |

## Left out

- Text: `isLetter`, `lowercase` and `trim` are modelled on ASCII only, where Kotlin's follow Unicode.
- Persistence and transactions are modelled as maps, and each service call is atomic. Guesses are assumed to read back in insertion order, peers in slot order.
- `create`'s word draw, `random`'s choice, `addPeer`'s `possiblePos.random()` and UUID generation are parameters or an open choice; `createdAt` timestamps are not modelled.
- The read-only listings `all`, `byAccount`, `count` and `countSolutions` are not modelled.
- Sessions.SessionsService.CreateGuess: requires the session and the account to exist (the source crashes on `!!` there).
- Sessions.SessionsService.Create: requires the creator's account to exist (`!!`); a drawn word list is given as a parameter.
- Sessions.SessionsService.Get: requires the stored session to be renderable: every peer's account exists, every guess is as long as every word, and no guess contains `-`. A guess shorter than a word makes `cloudsToRatings` throw; a longer one makes `buildCloud` throw only when its extra letter still occurs in the copy of the word; the model excludes both. Guesses holding `-` are excluded because `Cloud` equals `buildCloud` only without the marker; stored guesses are catalog words, and the loader stores letters only.
- Sessions.WordView: requires the same of its guesses (as long as the word, no `-`).
- Scoring.BuildClouds: its equality with `Clouds` is stated only when no guess contains `-`, as for `BuildCloud`.
- Sessions.SessionsService.AddPeer: draws from the free slots, not the occupied ones (see Findings).
- WordLoader.ConfigureWords: assumes the outer transaction (plugins/Words.kt:24) is all-or-nothing, so a `dup` conflict leaves the catalog as it was. Each `create` opens its own nested `newSuspendedTransaction` (services/WordsService.kt:41, plugins/DatabaseSingleton.kt:36-40). Whether those nested commits survive the outer rollback is library behaviour the repository does not settle.
- `ApiError` values keep only their kind, `max` and `eq`; the offending value's text and the other error kinds are not carried.
- Scoring.BuildCloud: requires the guess to be no longer than the word. The source fails on a longer guess only when its extra letter still occurs in the copy of the word.
- Scoring.BuildCloud: its equality with `Cloud` is stated only for guesses that do not contain `-`. Every guess that passes validation is letters only.
- Scoring.Ratings: requires each rating to be no longer than its guess, where `guesses[i][k]` would otherwise throw.
- The `compulsory`/`submission` expectation of SessionsServiceTest.kt:38-41 (ten letters) is not stated as a lemma; the other thirteen rating expectations are.
- The insertion order of Kotlin's mutable maps (the keyboard) is not modelled; a keyboard is a map.
- WordLoader.SaveWords: coroutine cancellation (`isActive`) and logging are not modelled; the loop runs to the end of the list or the cap.
- The `varchar(50)` limits on word texts and account names and the `varchar(5)` limit on guess texts (SessionsService.kt:116) are not modelled.
- GameScreen.BuildRows: requires four session words, because the source indexes quadrants 0 to 3.
- GameScreen.GamePresenter.HandleKeyPress: the `accountPrompt` gate in the key collector, `peers.first { it.id == selfId }` (which throws for a non-peer), snackbars and notifications are not modelled.
- GameScreen.GamePresenter.CompleteGuess: requires a present, in-range `nextTurn`; the source fails on `!!` or when copying the snapshot otherwise. The server always sends one in range (Sessions.NextTurnCycles).
- Compose rendering, the account dialogs' events, the WebSocket broadcaster, the client repositories and the `post<Sessions>` handler are not modelled.

## Findings

| source | as written | input that shows it | evidently intended | confidence | as-written member | corrected member |
|---|---|---|---|---|---|---|
| server/src/main/kotlin/wtf/hotbling/wordgame/services/SessionsService.kt:242 | `possiblePos` keeps the slots of `0 until size` that some peer already holds (`existingPos.contains(it)`) | a session for two with its creator in slot 0: the list is `[0]`, so the joiner also gets slot 0 and slot 1 stays empty | keep the slots nobody holds, which here is `[1]` | high, not executed | Sessions.OccupiedSlotsCollide | Sessions.FreeSlotExists |
