# Game progression of an elimination voting game

This project models the server side of a SvelteKit multiplayer elimination game.
Players register with a name and an email. An admin opens a level. Each player votes
"alive" or "dead". The admin ends voting and reveals a random answer. Every player who
voted the other way is eliminated. The game then advances to the next level, until one
player, the winner, is left.

All state lives in four database tables: `user`, `levels`, `votes` and a singleton
`details` row. The model keeps them in these modules:

- `Schema`: the tables as datatypes, the column defaults, and one invariant,
  `Consistent`. It holds the schema's unique emails and foreign keys, plus one
  condition the schema does not declare: level 1 exists whenever the details row
  does. `resetGame` sets the current level to 1 without creating level 1, so
  without that condition a reset could leave the details row dangling
  (`Progression.ResetWithoutLevelOneDangles`).
- `Kit`: what a handler returns. That is data, a `fail` with a status, a `redirect`, or
  an exception that escapes the handler (a missing details row, a duplicate email).
- `Queries`: the selects, counts, inner joins, orderings and limits the handlers run.
- `Database`: a class `Db` whose fields are the four tables, updated in place.
- `Progression`: the admin actions as a state machine on the tables. `Perform` gives
  the tables after an action and its response. The lemmas state what the actions
  promise.
- `AdminPage`: the admin dashboard loader, and the eight actions as methods on `Db`.
  Each method is proved to leave exactly the tables `Progression.Perform` prescribes.
- `InitDb`, `LoginPage`, `Auth`, `DisplayPage`, `EliminatedPage`, `GamePage`,
  `RootPage`: the other handlers.
- `Scenarios`: properties that span several handlers, and one round played through.

Three things outside the tables become parameters:

- The logged-in user (`event.locals.user`) is a parameter `caller`.
- `Math.random()` is a real number `random`. Below 0.5 the answer is "alive".
- `Date.now()` is a number of milliseconds `nowMs`.

The session digest of a token (SHA-256 and hex encoding) is a function parameter.

The `levels` table in `src/lib/server/db/schema.ts` declares no timer columns. The admin
actions and initialisation nevertheless write `timerActive`, `timerEndTime` and
`timerDuration`, so the model follows that code and gives each level those three fields.

## Model

| member | source | states |
|---|---|---|
| Schema.NewUser | src/lib/server/db/schema.ts:3-12 | a user inserted with name, email and session takes the column defaults: level 1, role "user", not disabled, active |
| Queries.Filter | src/routes/admin/+page.server.ts:131-137 | a `where` keeps every row that satisfies the condition, exactly as often as it occurs, and no other row |
| Queries.Join | src/routes/admin/+page.server.ts:57-59 | every joined row pairs a vote of the level with the existing user it names; the joined votes are exactly the level's votes whose user exists, each as often as it occurs and in table order; votes whose user row is missing are dropped |
| Queries.SortBy | src/routes/admin/+page.server.ts:60 | `orderBy` returns the same rows, as a permutation, in nondecreasing key order |
| Queries.Take | src/routes/display/+page.server.ts:58 | `limit(n)` returns the first n rows, or all of them when there are fewer |
| Queries.SmallestBy | src/routes/display/+page.server.ts:57-58 | ordering then limiting returns at most n rows in key order, drawn from the input, and no row left out has a smaller key than a kept one |
| Queries.Project | src/routes/display/+page.server.ts:49-53 | the selected columns give one record per row, in row order |
| Queries.ProjectSubMultiset | src/routes/display/+page.server.ts:48-58 | projecting a sub-multiset of rows gives a sub-multiset of the projected records |
| Queries.ProjectDifference | src/routes/display/+page.server.ts:48-58 | a record that projecting the joined rows gives more often than projecting the kept rows comes from a row the joined rows hold more often than the kept rows |
| Queries.Tally | src/routes/display/+page.server.ts:20-30 | the alive and dead counts are the numbers of the level's votes with those answers, the total is their sum, and never more than the votes cast at the level |
| Queries.TallyBound | src/routes/admin/+page.server.ts:26-36 | the "alive" and "dead" group counts together never exceed the votes of the level |
| Queries.ActiveEliminatedDisjoint | src/routes/display/+page.server.ts:33-45 | no user is counted both as active and as eliminated, so the two counts sum to at most the number of users |
| Queries.VoterIdsSize | src/routes/admin/+page.server.ts:139-144 | a list of vote rows names at most as many distinct users as it has rows |
| Progression.Refusal | src/routes/admin/+page.server.ts:94-95 | an action refuses a visitor who is not logged in with 401, and a logged-in non-admin with 403 |
| Progression.CorrectAnswer | src/routes/admin/+page.server.ts:119-120 | the drawn answer is "alive" or "dead", and "alive" exactly when the random value is below one half |
| Progression.Opposite | src/routes/admin/+page.server.ts:136 | the losing answer is the other one of "alive" and "dead", and never the drawn answer |
| Progression.AfterEndVoting | src/routes/admin/+page.server.ts:100-106 | only the current level changes: voting ended and answers closed; a missing level row changes nothing |
| Progression.AfterRevealResults | src/routes/admin/+page.server.ts:122-145 | the current level records the answer and is marked revealed; exactly the users named by a losing vote of that level become inactive; nothing else changes |
| Progression.AfterNextLevel | src/routes/admin/+page.server.ts:159-199 | the next level exists afterwards as a fresh open level, inserted or reset, and becomes current; other levels, users and votes are unchanged |
| Progression.AfterResetGame | src/routes/admin/+page.server.ts:212-244 | every user is active, enabled and at level 1; no votes remain; the game is in the lobby at level 1; level 1, if present, is fresh with answers closed |
| Progression.AfterToggleRegistration | src/routes/admin/+page.server.ts:256-261 | the registration flag flips and nothing else changes |
| Progression.AfterStartGame | src/routes/admin/+page.server.ts:279-318 | the game is started at level 1, which exists afterwards as a fresh open level whether it was inserted or reset |
| Progression.TimerEnd | src/routes/admin/+page.server.ts:342-343 | the end time is the current second, rounded down, plus ten |
| Progression.AfterStartTimer | src/routes/admin/+page.server.ts:342-352 | the current level's timer runs, ends ten seconds after now and lasts ten seconds; nothing else changes |
| Progression.AfterStopTimer | src/routes/admin/+page.server.ts:367-373 | the current level's timer is off with no end time, its duration kept; nothing else changes |
| Progression.Perform | src/routes/admin/+page.server.ts:93-379 | non-admins are refused; a reset by an admin always succeeds with the reset tables; every other action throws without a details row and otherwise behaves as `Admitted`; an action that does not succeed changes no table |
| Progression.Admitted | src/routes/admin/+page.server.ts:97-378 | for an admin with a details row: a start succeeds exactly when the game has not started and otherwise fails with 400, a timer start succeeds exactly when the current level exists and its voting is open and otherwise fails with 400, and every other action succeeds; a success leaves the tables that action's transition prescribes, a reveal reports the drawn answer and the number of losing votes, an advance reports the next level; a failure changes nothing |
| Progression.EndVotingIdempotent | src/routes/admin/+page.server.ts:100-108 | ending voting twice gives the same tables and response as ending it once |
| Progression.ToggleRegistrationInvolution | src/routes/admin/+page.server.ts:256-261 | toggling registration twice restores every table |
| Progression.StartGameOnlyOnce | src/routes/admin/+page.server.ts:275-277 | after a successful start, a second start fails with 400 and changes nothing |
| Progression.NoTimerAfterVotingEnds | src/routes/admin/+page.server.ts:338-340 | once voting has ended, starting the timer fails with 400 and changes nothing |
| Progression.VoterIdsOfFilter | src/routes/admin/+page.server.ts:131-140 | a user is among the ids of the selected votes exactly when some vote row of that level and answer names them |
| Progression.RevealEliminatesExactlyLosers | src/routes/admin/+page.server.ts:130-145 | after the reveal a user is active exactly when they were active and cast no losing vote at the current level; no other column changes |
| Progression.EliminatedCountCoversNewlyEliminated | src/routes/admin/+page.server.ts:139-151 | the reported eliminated count is never less than the number of users the reveal newly eliminated |
| Progression.PerformKeepsConsistent | src/lib/server/db/schema.ts:5-37 | every admin action keeps emails unique, votes pointing at existing users and levels, and the details row pointing at an existing level, given the extra condition that level 1 exists |
| Progression.ResetWithoutLevelOneDangles | src/routes/admin/+page.server.ts:225-244 | on tables with a details row but no level 1, a reset leaves the details row pointing at a level that does not exist, which is why `Consistent` asks for level 1 |
| Progression.ResetGameRestoresAllPlayers | src/routes/admin/+page.server.ts:212-219 | after a reset every user plays again and nobody is eliminated |
| AdminPage.Load | src/routes/admin/+page.server.ts:9-90 | a visitor goes to the login page and a non-admin to the home page; for an admin, the load throws exactly when there is no details row and otherwise always shows the dashboard of that row |
| AdminPage.Dashboard | src/routes/admin/+page.server.ts:16-89 | the dashboard shows the current level's row, its alive/dead tally, the active and eliminated counts, the eliminated players and the current-level votes as the queries prescribe |
| AdminPage.EliminatedPlayers | src/routes/admin/+page.server.ts:63-72 | the listed players are exactly the users that are not active, each with its id, name, email and level |
| AdminPage.VoteList | src/routes/admin/+page.server.ts:47-60 | the vote list holds exactly the joined current-level rows, each described once, oldest first |
| AdminPage.EliminatedListMatchesCount | src/routes/admin/+page.server.ts:62-78 | there are as many eliminated players listed as the eliminated count |
| AdminPage.EndVoting | src/routes/admin/+page.server.ts:93-109 | the tables and the response are those of `Progression.Perform` for ending voting |
| AdminPage.RevealResults | src/routes/admin/+page.server.ts:111-153 | the tables and the response are those of `Progression.Perform` for revealing, including the skipped update when no vote loses |
| AdminPage.NextLevel | src/routes/admin/+page.server.ts:155-206 | the tables and the response are those of `Progression.Perform` for advancing, on both the insert and the reset branch |
| AdminPage.ResetGame | src/routes/admin/+page.server.ts:208-250 | the tables and the response are those of `Progression.Perform` for resetting |
| AdminPage.ToggleRegistration | src/routes/admin/+page.server.ts:252-267 | the tables and the response are those of `Progression.Perform` for toggling registration |
| AdminPage.StartGame | src/routes/admin/+page.server.ts:269-324 | the tables and the response are those of `Progression.Perform` for starting, on both the insert and the reset branch |
| AdminPage.StartTimer | src/routes/admin/+page.server.ts:326-358 | the tables and the response are those of `Progression.Perform` for starting the timer |
| AdminPage.StopTimer | src/routes/admin/+page.server.ts:360-379 | the tables and the response are those of `Progression.Perform` for stopping the timer |
| InitDb.Post | src/routes/api/init-db/+server.ts:6-53 | users are kept; votes are gone; the only level is level 1 with answers closed; the details row has registration open, level 1 and the game not started; the reply reports success |
| InitDb.InitializedIsConsistent | src/routes/api/init-db/+server.ts:12-37 | initialisation leaves a consistent database whose current level exists, whatever was there before, provided the kept users have distinct emails |
| Auth.SetSession | src/lib/server/auth.ts:20 | the session is stored on the named user only; no row changes when the id names no user |
| Auth.CreateSession | src/lib/server/auth.ts:18-22 | the returned session id is the digest of the token, and it is stored on the user row with that id if there is one; at login there is none yet, so no row changes |
| LoginPage.Load | src/routes/login/+page.server.ts:9-14 | a logged-in visitor is redirected to the game, anyone else gets the empty page |
| LoginPage.LoginOutcome | src/routes/login/+page.server.ts:17-47 | each failure happens exactly under its condition and changes nothing; the login succeeds exactly when both fields are non-empty text, a details row allows registration and the email is new; a success inserts exactly the new user with its digest and the column defaults, and keeps the database consistent |
| LoginPage.Login | src/routes/login/+page.server.ts:17-47 | the tables and the response are those of `LoginPage.LoginOutcome` |
| DisplayPage.RecentRows | src/routes/display/+page.server.ts:47-58 | the feed rows are at most ten current-level joined rows, newest first, and no row left out is newer than a kept one |
| DisplayPage.Load | src/routes/display/+page.server.ts:7-69 | the load throws exactly when there is no details row, and otherwise shows the counts, the level's alive/dead tally and the feed |
| DisplayPage.Screen | src/routes/display/+page.server.ts:10-68 | the shown level row, alive/dead tally, disjoint active and eliminated counts and feed match the tables |
| DisplayPage.RecentFeed | src/routes/display/+page.server.ts:47-58 | the feed has ten entries, or every joined row when there are fewer; it is newest first and drawn from the joined rows, none more often than it occurs; and every entry the joined rows give more often than the feed holds it is no newer than any entry |
| DisplayPage.FeedFromCurrentVotes | src/routes/display/+page.server.ts:54-56 | every feed entry describes a current-level vote by an existing user |
| DisplayPage.FeedKeepsNewest | src/routes/display/+page.server.ts:57-58 | an entry the joined rows give more often than the feed holds it is no newer than any entry in the feed |
| EliminatedPage.Winner | src/routes/eliminated/+page.server.ts:36-50 | there is a winner exactly when one player is still in the game, and it is that player's name and email |
| EliminatedPage.Load | src/routes/eliminated/+page.server.ts:6-59 | a visitor goes to login; without a details row the load throws; a player still in the game goes to the current level; everyone else sees the counts and the winner |
| GamePage.Load | src/routes/game/+page.server.ts:6-31 | a visitor goes to login; without a details row the load throws; before the start the lobby shows the active player count and the registration flag; after it the page redirects to the current level |
| RootPage.Load | src/routes/+page.server.ts:4-27 | without a details row the defaults ask for initialisation; otherwise the page mirrors the details row and gives the caller's role, or null for a visitor |
| Scenarios.HomeAfterInit | src/routes/+page.server.ts:20-26 | after initialisation the home page needs no initialisation and shows level 1, registration open and the game not started |
| Scenarios.LobbyAfterReset | src/routes/game/+page.server.ts:12-26 | after a reset the game page shows the lobby and counts every registered user |
| Scenarios.GameStartsAtLevelOne | src/routes/game/+page.server.ts:29-30 | after a successful start the game page sends everyone to level 1 |
| Scenarios.NextLevelMovesPlayers | src/routes/admin/+page.server.ts:155-206 | after advancing, the game page sends players to the next level, which is open for voting |
| Scenarios.RoundWithTwoVoters | src/routes/admin/+page.server.ts:111-153 | when "dead" is drawn, of two players voting "alive" and "dead" the first is eliminated, one elimination is reported, and the second is the winner |

## Left out

- Cookies, the session token's generation, SHA-256 and its encoding are not modelled. The digest is a function parameter. `setSessionTokenCookie` and `deleteSessionTokenCookie` have no effect on the tables.
- The request hook that turns the session cookie into `event.locals.user` (`src/hooks.server.ts`) is not part of this model. The caller is a parameter.
- `generateId` is not modelled. The login's fresh user id is a parameter that names no existing user. The `id` columns of `levels` and `details` are not modelled, so the level and details rows the admin and display loaders return omit them.
- `Math.random()` and `Date.now()` are parameters. Floating-point rounding of the coin is not modelled.
- Concurrency is not modelled. Each handler runs alone against the tables, and no interleaving of two requests is considered.
- Vote casting (`src/routes/game/[level]/+page.server.ts`, `src/routes/api/votes/[level]/+server.ts`) is not modelled.
- `scripts/init-db.js` and `src/app.d.ts` are not part of this model.
- The `details` table is modelled as holding at most one row. An update of `details` therefore changes that one row.
- Foreign keys (`votes.userId`, `votes.level`, `details.currentLevel`) are stated as the invariant `Schema.Consistent`, so the database does not reject rows that break them. `Consistent` also asks that level 1 exist whenever the details row does; the schema does not declare this, and it is what keeps a reset from leaving `details.currentLevel` dangling.
- AdminPage.EliminatedPlayers: the dashboard's list of eliminated players is a set, so its order by name is not modelled.
- Queries.SortBy: SQL leaves the order of rows with equal keys open. The model fixes one order, and its contracts say nothing about ties.
- AdminPage.Dashboard: the level row is `None` when the current level has no row, where the source yields `undefined`.
- The init endpoint's `catch` path, which returns status 500 with the error message, is not modelled. The model's writes cannot fail.
- `console.log` and `console.error` calls, and `event.depends` (the client invalidation key), are left out.
- `IntToString` prints an integer in decimal, as a template literal does. Its `Number` formatting beyond integers is not modelled.
