# Notiplay front-end decision logic in Dafny

Notiplay is a news web application written in React on top of a hosted backend.
The backend handles authentication, tables, remote procedures and storage. Most
of the front end renders rows and forwards calls. A few components still contain
small sequential decision procedures. This project states those procedures as
pure Dafny functions over immutable records and proves their properties:

- **Trivia modal** (`Trivia`, trivia.dfy). It loads the first quiz row for a
  news item and fetches that quiz's questions. It takes one locked answer per
  question and adds 1 to the score for each correct answer. "Next" either moves
  to the following question or shows `score / questions.length`. Clicks on
  buttons the view does not render, or renders disabled, have no effect (`Step`).
- **Reward card** (`RewardCard`, reward_card.dfy). Three guards run in order
  (not signed in, already redeemed, too few points). Then comes the single
  `redeem_reward` call, the in-memory `redeemed` flag, and the `canRedeem`
  button predicate.
- **Rewards page** (`RewardsPage`, rewards_page.dfy). This covers the user fetch
  with its branches and the catalogue fetch. It also merges the catalogue with
  the user's redeemed reward ids. A redeem press is followed through to the
  page: the card marks the page's own reward object redeemed, then the page
  refetches (`PressRedeem`).
- **Category selection** (`Categories`, categories.dfy). The checkbox toggle and
  the saved rows are shared by the profile page (`ProfilePage`) and the survey
  page (`SurveyPage`). The profile page also has the badge shelf and the
  join-date fallback.
- **Leaderboard** (`Leaderboard`, leaderboard.dfy). Users are split into podium
  and list by `type`, and the podium is drawn in the order 2, 1, 3.
- **Mock authentication store** (`AuthMock`, auth_mock.dfy). Login needs both
  credentials to match. Register rejects a taken e-mail and otherwise appends
  the user with id = length + 1. The forms that drive the store are `LoginPage`
  and `UpdatePasswordPage`.

Every backend call is an `Outcome` parameter: `Ok(payload)` or `Err(message)`
(`Outcomes`, outcomes.dfy). JavaScript truthiness of ids (`null`, `undefined`
and `""` are falsy) is the predicate `Outcomes.Truthy`.

The quiz has no points formula. The only score is the count of correct answers,
shown as `score / questions.length`. No bonus and no point credit is computed
or submitted.

## Model

| member | source | states |
|---|---|---|
| Trivia.FirstRow | src/components/TriviaModal.jsx:28 | the quiz is the first row returned, and there is none exactly when the result is empty |
| Trivia.Load | src/components/TriviaModal.jsx:13-47 | nothing is queried without a news id; a failed trivia query changes nothing; the question query is issued exactly when a quiz row exists, for that row's id; questions change only to a successful query's rows; score, index and selection are untouched |
| Trivia.ChooseHandler | src/components/TriviaModal.jsx:49-58 | the chosen option is recorded; if it equals the correct option, `isCorrect` is true and the score grows by exactly 1; otherwise `isCorrect` is false and the score is unchanged; nothing else changes |
| Trivia.NextHandler | src/components/TriviaModal.jsx:60-68 | the selection and `isCorrect` are cleared; before the last question the index advances by one; at the last question the index stays and the result view is entered |
| Trivia.CanChoose | src/components/TriviaModal.jsx:97 | an option can be pressed only on a question of a loaded quiz before the result, and never once an option has been chosen |
| Trivia.CanAdvance | src/components/TriviaModal.jsx:112 | "next" can be pressed only after an option was chosen, never together with an option button, and never after an empty-string option |
| Trivia.Step | src/components/TriviaModal.jsx:93-119 | a click never changes the loaded quiz; choosing never moves between questions; "next" never changes the score; a click changes the state only through an enabled button |
| Trivia.LoadEstablishesInv | src/components/TriviaModal.jsx:5-11 | a freshly mounted and loaded modal satisfies the play-through invariant |
| Trivia.StepPreservesInv | src/components/TriviaModal.jsx:93-119 | every click on the rendered, enabled buttons keeps the invariant (index in range, selection and correctness set together, score bounded by answered questions) |
| Trivia.RunPreservesInv | src/components/TriviaModal.jsx:49-68 | any sequence of clicks keeps the invariant |
| Trivia.IndexAndScoreBounded | src/components/TriviaModal.jsx:63-67 | after loading and any clicks, the index stays below `questions.length` whenever there are questions, and the score never exceeds `questions.length` |
| Trivia.AnswerIsLocked | src/components/TriviaModal.jsx:97 | once an option is chosen, any further option clicks leave the state unchanged, so at most one answer counts per question |
| Trivia.NoTriviaIsInert | src/components/TriviaModal.jsx:70-81 | with no quiz or no questions, no click changes the state, so the result view is never reached |
| Trivia.EmptyOptionStalls | src/components/TriviaModal.jsx:112 | choosing an empty-string option disables the options but never shows "next", so no later click changes the state |
| Trivia.PlayThroughScore | src/components/TriviaModal.jsx:49-68 | a straight play-through of a loaded quiz ends in the result view with the score equal to the number of answers matching their correct option |
| Trivia.PerfectPlayThrough | src/components/TriviaModal.jsx:49-68 | answering every question with its correct option ends with score `questions.length` |
| Trivia.AllCorrectCount | src/components/TriviaModal.jsx:52-54 | when every answer equals its correct option, the correct-answer count equals the number of questions |
| RewardCard.UserPoints | src/components/RewardCard.jsx:8 | a missing user or missing points counts as 0 points; otherwise it is the user's points |
| RewardCard.RequiredPoints | src/components/RewardCard.jsx:9 | a missing `points_required` counts as 0; otherwise it is the reward's cost |
| RewardCard.CanRedeem | src/components/RewardCard.jsx:52 | an enabled button implies the card is idle and the reward unredeemed; for a signed-in user an enabled button is one whose press reaches the remote call; a disabled button on an idle, unredeemed card is one whose press ends with the login message (no user id) or the too-few-points message |
| RewardCard.HandleRedeem | src/components/RewardCard.jsx:14-50 | the guards run in order: no user id gives the login message, then already redeemed gives its message, then too few points gives its message, each with no remote call and nothing else changed; the call is made exactly when all guards pass; `loading` is false afterwards; success marks the reward redeemed, shows the success text and runs `onRedeem` once if given; an error leaves `redeemed` unchanged and shows the error text |
| RewardCard.CanRedeemMatchesGuards | src/components/RewardCard.jsx:14-52 | for a signed-in user the button is enabled exactly when pressing it reaches the remote call; without a user id the call is never made |
| RewardCard.RedeemIsIdempotentOnCard | src/components/RewardCard.jsx:20-52 | after a successful redemption the button is disabled, and a second press stops at the already-redeemed guard with no second call |
| RewardCard.NoPointsRedeemsOnlyFree | src/components/RewardCard.jsx:8-9 | a reader with no points, through a missing user or a missing points value, can redeem exactly the rewards whose cost is missing or at most 0 |
| RewardCard.MorePointsStillRedeem | src/components/RewardCard.jsx:8-9 | a reward one reader can redeem stays redeemable for any reader with at least as many points |
| RewardsPage.MergeRedeemed | src/pages/RewardsPage.jsx:32-35 | the merged list has the catalogue's length and order; each reward is redeemed exactly when its id is in the redeemed-id list; every other field is kept |
| RewardsPage.FetchRewards | src/pages/RewardsPage.jsx:12-43 | `loadingRewards` ends false; a failed query leaves the rewards unchanged; the redeemed ids are queried exactly when the catalogue loaded and there is a user id; without a user id nothing is redeemed |
| RewardsPage.NoUserNothingRedeemed | src/pages/RewardsPage.jsx:20-35 | without a user id every reward in the loaded catalogue is shown unredeemed |
| RewardsPage.FetchUser | src/pages/RewardsPage.jsx:46-93 | `loadingUser` ends false on every path; a missing session or a missing id clears the user and the rewards; any other error clears the user only; the user row is read exactly when there is an id; the rewards are fetched exactly when that row loads, and then the user is that row |
| RewardsPage.SignedInUserSeesOwnStatus | src/pages/RewardsPage.jsx:74-86 | a signed-in user whose row loads sees every catalogue reward marked with their own redemption status, and both loading flags end false |
| RewardsPage.PressRedeem | src/components/RewardCard.jsx:40-52 | a press on a disabled button (`!canRedeem`, as while the redemption is in flight or with too few points) runs no handler and changes nothing; an enabled press that is refused or fails leaves the page unchanged; an accepted one runs the page's `fetchUser`; a missing session empties the list; when the refetch fails before replacing the list, the list keeps the pressed reward marked redeemed (the card sets the flag on the page's own object) and nothing else changes; a complete refetch shows the fresh merged catalogue; the card returned is the one right after its handler |
| RewardsPage.RedeemedFlagSurvivesFailedRefetch | src/pages/RewardsPage.jsx:164-170 | after an accepted redemption whose refetch cannot load the catalogue, the page still shows that reward redeemed, every other reward unchanged, and the user row loaded |
| RewardsPage.InFlightPressIsIgnored | src/components/RewardCard.jsx:52 | while the card is loading, a press changes neither the page nor the card and calls nothing |
| Categories.RemoveAll | src/pages/ProfilePage.jsx:127 | the removed id no longer occurs, every remaining id was in the list, and every other id of the list remains |
| Categories.RemoveAppend | src/pages/ProfilePage.jsx:127 | removal distributes over concatenation, so the relative order of the other ids is kept |
| Categories.RemoveAbsent | src/pages/ProfilePage.jsx:127 | removing an id that is not in the list returns the list unchanged |
| Categories.Toggle | src/pages/ProfilePage.jsx:124-130 | the toggled id is selected afterwards exactly when it was not before; an absent id is appended at the end; other ids stay selected or unselected and keep their relative order |
| Categories.ToggleKeepsNoDuplicates | src/pages/ProfilePage.jsx:124-130 | toggling keeps a duplicate-free selection duplicate-free |
| Categories.ToggleTwiceRestores | src/pages/SurveyPage.jsx:65-71 | toggling an unselected id twice restores the original selection |
| Categories.TogglesKeepNoDuplicates | src/pages/SurveyPage.jsx:65-71 | any series of checkbox clicks keeps a duplicate-free selection duplicate-free |
| Categories.BuildRows | src/pages/ProfilePage.jsx:137 | one row per selected id, in order, each carrying the user's id, which may be absent |
| Categories.BuildRowsReadBack | src/pages/ProfilePage.jsx:137 | reading the category ids back from the saved rows gives the selection, and the rows are duplicate-free exactly when the selection is |
| ProfilePage.SaveCategories | src/pages/ProfilePage.jsx:132-146 | without a user nothing happens; otherwise the old rows are deleted, one row per selected id is inserted carrying the user's id even when the user has none (`user_id: undefined`), `savingCategories` ends false, and the alert shows success or the error text |
| ProfilePage.SavedRowsAreSelection | src/pages/ProfilePage.jsx:132-146 | for any signed-in user the inserted rows read back as the selection, each with that user's id, and a duplicate-free selection inserts no duplicate row |
| ProfilePage.BadgeShelf | src/pages/ProfilePage.jsx:217-218 | the five catalogue badges appear in order, each shown unlocked exactly when its name is in the user's badge list |
| ProfilePage.BadgeShelfMonotone | src/pages/ProfilePage.jsx:217-218 | holding more badges never locks a badge that a smaller list unlocks |
| ProfilePage.FormatDate | src/pages/ProfilePage.jsx:148-152 | a null, undefined or empty date shows "Fecha desconocida"; any other date goes to the locale formatter |
| ProfilePage.FormatDateFallback | src/pages/ProfilePage.jsx:148-152 | when the locale formatter never yields the fallback text, the fallback is shown exactly for a null, undefined or empty date |
| SurveyPage.GetUser | src/pages/SurveyPage.jsx:16-44 | a session error, a missing e-mail and a failed lookup each set their own message and leave the user id unset; the id changes only to the looked-up row's id |
| SurveyPage.FetchCategories | src/pages/SurveyPage.jsx:50-63 | `loading` ends false whether or not the query fails; a failure sets the error message and keeps the old list |
| SurveyPage.ToggleCategory | src/pages/SurveyPage.jsx:65-71 | the same remove-if-present, append-if-absent toggle, and nothing else on the page changes |
| SurveyPage.Save | src/pages/SurveyPage.jsx:74-98 | without a user id the page shows "No se encontró usuario logueado." and inserts nothing; otherwise it inserts one row per selected category in order with the user id; an insert error sets the error message without navigating; success sets the success message and schedules navigation |
| SurveyPage.NavigationOnlyAfterInsert | src/pages/SurveyPage.jsx:89-96 | navigation is scheduled exactly when there is a user id and the insert succeeded, and only after rows were inserted |
| SurveyPage.GetUserCommutesWithFetch | src/pages/SurveyPage.jsx:15-63 | the user lookup and the category fetch, both started at mount, give the same page in either completion order, apart from the message left on screen |
| SurveyPage.ClickedSelectionSavesDistinctRows | src/pages/SurveyPage.jsx:65-98 | after any series of checkbox clicks from a duplicate-free selection, saving inserts exactly the selection, in order, with no row twice |
| Leaderboard.OfKind | src/components/Leaderboard.jsx:10-11 | the result holds exactly the users of the given type, and no longer than the ranking |
| Leaderboard.OfKindAppend | src/components/Leaderboard.jsx:10-11 | filtering distributes over concatenation, so kept users keep their ranking order |
| Leaderboard.FirstOfRank | src/components/Leaderboard.jsx:15-17 | the position found is the first one holding a user of that rank, and none is found exactly when no user has it |
| Leaderboard.FindRank | src/components/Leaderboard.jsx:15-17 | the user found has the requested rank and is the first podium user holding it; none is found exactly when no podium user has the rank |
| Leaderboard.PodiumOrder | src/components/Leaderboard.jsx:14-18 | at most three podium users, with ranks in {1, 2, 3}, in slot order 2, 1, 3 (so the ranks are distinct); each is the first podium user of its rank; every rank present on the podium is shown |
| Leaderboard.Render | src/components/Leaderboard.jsx:6-18 | an empty ranking shows the loading text; otherwise the podium holds exactly the "podio" users and the list exactly the "lista" users, both drawn from the ranking, and each user drawn on the podium is the first podium user of its rank |
| Leaderboard.RenderPartitions | src/components/Leaderboard.jsx:10-18 | no user is on both the podium and the list; users of any other type are in neither; at most three users stand on the podium, with distinct ranks |
| AuthMock.Decimal | src/services/auth.mock.js:23 | a user id is written as a non-empty string of decimal digits with no leading zero except for 0 itself |
| AuthMock.Token | src/services/auth.mock.js:23 | the token is the prefix "fake-jwt-token-" followed by decimal digits, without a leading zero unless the id is 0, that read back as the user id |
| AuthMock.DecimalRoundTrip | src/services/auth.mock.js:23 | reading the decimal text back gives the id |
| AuthMock.TokensDistinct | src/services/auth.mock.js:23 | distinct user ids get distinct tokens |
| AuthMock.FindUser | src/services/auth.mock.js:16 | the user found is the first whose e-mail and password both match; none is found exactly when no user matches |
| AuthMock.Login | src/services/auth.mock.js:13-25 | login succeeds exactly when some stored user matches both the e-mail and the password, and returns the first such user's name, e-mail and token `"fake-jwt-token-" + id`; otherwise it fails with "Credenciales incorrectas. Intenta de nuevo." |
| AuthMock.EmailTakenIn | src/services/auth.mock.js:31 | the scan reports a taken e-mail exactly when some stored user has that e-mail |
| AuthMock.Register | src/services/auth.mock.js:28-40 | a taken e-mail fails with "El correo ya está registrado" and leaves the store unchanged; otherwise exactly one user with id = previous length + 1 is appended, and the reply is "Usuario {name} registrado correctamente" |
| AuthMock.RegisterPreservesStore | src/services/auth.mock.js:36-37 | registering keeps ids 1..n in store order and e-mails unique, and never alters a stored user |
| AuthMock.InitialStoreWellFormed | src/services/auth.mock.js:8-10 | the starting store has sequential ids and unique e-mails |
| AuthMock.LoginAfterRegister | src/services/auth.mock.js:16-37 | after a successful registration, login with the same e-mail and password returns the new user with the token for id = old length + 1 |
| LoginPage.BeginSubmit | src/pages/LoginPage.jsx:22-23 | each submit first clears the message and sets `loading`, changing nothing else |
| LoginPage.Submit | src/pages/LoginPage.jsx:20-64 | `loading` ends false on every path, including the early mismatch return; login mode always calls login; a successful login shows the welcome, sets type "success", stores the token and navigates home; a failed one shows the error text with type "error"; in register mode a mismatched confirmation shows "Las contraseñas no coinciden" with type "error" and leaves the store untouched; otherwise register runs and its reply or error is shown |
| LoginPage.LoginIgnoresConfirmation | src/pages/LoginPage.jsx:28-39 | in login mode the outcome does not depend on the name or the confirmation field |
| LoginPage.TokenOnlyFromLogin | src/pages/LoginPage.jsx:34-36 | the stored token changes only through a successful login |
| LoginPage.RegisterThenLogin | src/pages/LoginPage.jsx:40-57 | registering a new e-mail through the page, then logging in with the same form, succeeds and stores the new user's token |
| UpdatePasswordPage.Utf16Length | src/pages/UpdatePasswordPage.jsx:19 | the JavaScript length lies between the character count and twice it |
| UpdatePasswordPage.Submit | src/pages/UpdatePasswordPage.jsx:14-28 | a password shorter than 8 UTF-16 units sets the minimum-length error and makes no call; a longer one is passed unchanged to `updatePassword`; success shows the modal with the error cleared; failure shows the error text and leaves the modal as it was |
| UpdatePasswordPage.LengthCheckBounds | src/pages/UpdatePasswordPage.jsx:19 | any password of at least 8 characters passes the length check; any of fewer than 4 fails it |
| UpdatePasswordPage.SubmitAsWired | src/context/AuthContext.jsx:86-93 | as the context is wired, submitting never opens a hidden modal |
| UpdatePasswordPage.AsWiredNeverConfirms | src/pages/UpdatePasswordPage.jsx:11-27 | as wired, no password shows the confirmation modal; a long enough one ends with the TypeError text |
| UpdatePasswordPage.WorkingUpdateConfirms | src/pages/UpdatePasswordPage.jsx:23-24 | with a working `updatePassword`, every long enough password is sent as typed and the modal is shown |

## Left out

- Backend calls are not modelled. This covers table queries, the `redeem_reward` and `get_users_ranking_v2` procedures, the storage upload and the session APIs. Each is an `Outcome` parameter. Server-side atomicity and idempotence of redemption are not part of this code.
- The reward card's progress percentage (src/components/RewardCard.jsx:12) is left out. It uses floating-point division and yields NaN when both operands are 0.
- `Number(...)` of non-numeric points is left out, and so is NaN in the points guard. Points are modelled as integers.
- Profile editing, the avatar upload and the badge, profile and category fetches of the profile page (`fetchCategories` and `fetchUserCategories`, which loads the saved selection back, src/pages/ProfilePage.jsx:58-69) are left out. They are plain row reads and writes with alerts.
- Rendering, styling, animation and routing are left out. So are the session listener of the authentication context, the thin service wrappers, timers (`fakeDelay`, delayed navigation, the alert's auto-hide), randomness and locale date formatting. Locale formatting is a function parameter of `ProfilePage.FormatDate`.
- React's asynchronous state batching is left out. A handler is one atomic transition from the state the click saw.
- A trivia effect re-run on an already-used modal is not covered by the invariant lemmas. Those lemmas start from a freshly mounted modal.

## Findings

| source | as written | input that shows it | evidently intended | confidence | as-written member | corrected member |
|---|---|---|---|---|---|---|
| src/pages/UpdatePasswordPage.jsx:11 | the page takes `updatePassword` from the authentication context, but the context value (src/context/AuthContext.jsx:86-93) does not provide it, so the call throws a TypeError | any password of 8 or more characters, e.g. "abcdefgh": the error text is the TypeError's and the modal never opens | the context provides a working `updatePassword`, and a long enough password opens the confirmation modal | not executed; high | UpdatePasswordPage.AsWiredNeverConfirms | UpdatePasswordPage.WorkingUpdateConfirms |
