/** The game-progression state machine behind the admin actions: for each
    action, the tables it leaves behind and the response it gives, as a
    function of the tables before it and of the caller. The handlers in
    AdminPage perform the same updates statement by statement. */
module Progression {
  import opened Schema
  import opened Kit
  import opened Queries

  /** The payload of a successful action besides `success` and `message`. */
  datatype Payload =
    | Plain
    | Revealed(correctAnswer: string, eliminatedCount: nat)
    | Advanced(newLevel: int)

  datatype Summary = Summary(message: string, payload: Payload)

  /** The eight admin actions. The coin of `revealResults` is the value of
      `Math.random()`; the clock of `startTimer` is `Date.now()` in milliseconds. */
  datatype Action =
    | EndVoting
    | RevealResults(random: real)
    | NextLevel
    | ResetGame
    | ToggleRegistration
    | StartGame
    | StartTimer(nowMs: nat)
    | StopTimer

  /** The tables after an action, and its response. */
  datatype Step = Step(after: Tables, response: Response<Summary>)

  /** A caller the actions admit: logged in, with the admin role. */
  predicate IsAdmin(caller: Option<User>)
  {
    caller.Some? && caller.value.role == ADMIN
  }

  /** The failure every action returns to a caller it does not admit. */
  function Refusal(caller: Option<User>): (r: Response<Summary>)
    ensures r.Fail? && (r.status == 401 <==> caller.None?) && (r.status == 403 <==> caller.Some?)
  {
    if caller.None? then Fail(401, "Unauthorized") else Fail(403, "Forbidden")
  }

  /** The drawn answer: "alive" when the random value is below one half. */
  function CorrectAnswer(random: real): (r: string)
    ensures r == ALIVE || r == DEAD
    ensures r == ALIVE <==> random < 0.5
  {
    if random < 0.5 then ALIVE else DEAD
  }

  /** The answer that loses against the drawn one. */
  function Opposite(answer: string): (r: string)
    ensures answer == ALIVE ==> r == DEAD
    ensures answer == DEAD ==> r == ALIVE
    ensures r != answer
  {
    if answer == ALIVE then DEAD else ALIVE
  }

  /** The vote rows of the given level that chose the losing answer. */
  function LosingVotes(votes: seq<Vote>, level: int, answer: string): seq<Vote>
  {
    VotesWith(votes, level, Opposite(answer))
  }

  /** `endVoting`: the current level stops taking answers; nothing else changes. */
  function AfterEndVoting(t: Tables): (u: Tables)
    requires t.details.Some?
    ensures u.users == t.users && u.votes == t.votes && u.details == t.details
    ensures u.levels.Keys == t.levels.Keys
    ensures forall n :: n in t.levels && n != t.details.value.currentLevel ==> u.levels[n] == t.levels[n]
    ensures var cur := t.details.value.currentLevel;
      cur in t.levels ==> u.levels[cur] == t.levels[cur].(votingEnded := true, allowAns := false)
  {
    var cur := t.details.value.currentLevel;
    if cur in t.levels then t.(levels := t.levels[cur := t.levels[cur].(votingEnded := true, allowAns := false)])
    else t
  }

  /** `revealResults` with the drawn answer: the current level records it, and
      every user named by a losing vote of that level is made inactive. */
  function AfterRevealResults(t: Tables, answer: string): (u: Tables)
    requires t.details.Some?
    ensures u.votes == t.votes && u.details == t.details
    ensures u.levels.Keys == t.levels.Keys
    ensures forall n :: n in t.levels && n != t.details.value.currentLevel ==> u.levels[n] == t.levels[n]
    ensures var cur := t.details.value.currentLevel;
      cur in t.levels ==> u.levels[cur] == t.levels[cur].(correct := Some(answer), resultsRevealed := true)
    ensures u.users.Keys == t.users.Keys
    ensures var losers := VoterIds(LosingVotes(t.votes, t.details.value.currentLevel, answer));
      forall id :: id in t.users ==>
        u.users[id] == if id in losers then t.users[id].(isActive := false) else t.users[id]
  {
    var cur := t.details.value.currentLevel;
    var levels := if cur in t.levels then t.levels[cur := t.levels[cur].(correct := Some(answer), resultsRevealed := true)] else t.levels;
    var losers := VoterIds(LosingVotes(t.votes, cur, answer));
    var users := map id | id in t.users :: if id in losers then t.users[id].(isActive := false) else t.users[id];
    t.(levels := levels, users := users)
  }

  /** `nextLevel`: the level after the current one is created or reset to a
      fresh open level, and becomes the current level. */
  function AfterNextLevel(t: Tables): (u: Tables)
    requires t.details.Some?
    ensures var next := t.details.value.currentLevel + 1;
      && u.levels.Keys == t.levels.Keys + {next}
      && u.levels[next] == OPEN_LEVEL
      && (forall n :: n in t.levels && n != next ==> u.levels[n] == t.levels[n])
      && u.details == Some(t.details.value.(currentLevel := next))
    ensures u.users == t.users && u.votes == t.votes
  {
    var next := t.details.value.currentLevel + 1;
    t.(levels := t.levels[next := OPEN_LEVEL], details := Some(t.details.value.(currentLevel := next)))
  }

  /** `resetGame`: everyone is back in the game at level 1, the votes are gone,
      the game is back in the lobby, and level 1 (if present) is fresh with
      answers not yet allowed. */
  function AfterResetGame(t: Tables): (u: Tables)
    ensures u.users.Keys == t.users.Keys
    ensures forall id :: id in t.users ==>
      u.users[id] == t.users[id].(isActive := true, disabled := false, level := 1)
    ensures u.votes == []
    ensures u.details.Some? <==> t.details.Some?
    ensures t.details.Some? ==> u.details.value == t.details.value.(currentLevel := 1, gameStarted := false)
    ensures u.levels.Keys == t.levels.Keys
    ensures 1 in t.levels ==> u.levels[1] == LOBBY_LEVEL
    ensures forall n :: n in t.levels && n != 1 ==> u.levels[n] == t.levels[n]
  {
    var users := map id | id in t.users :: t.users[id].(isActive := true, disabled := false, level := 1);
    var details := if t.details.Some? then Some(t.details.value.(currentLevel := 1, gameStarted := false)) else None;
    var levels := if 1 in t.levels then t.levels[1 := LOBBY_LEVEL] else t.levels;
    Tables(users, levels, [], details)
  }

  /** `toggleRegistration`: registration flips; nothing else changes. */
  function AfterToggleRegistration(t: Tables): (u: Tables)
    requires t.details.Some?
    ensures u.users == t.users && u.levels == t.levels && u.votes == t.votes
    ensures u.details.Some? && u.details.value.allowReg == !t.details.value.allowReg
    ensures u.details.value.(allowReg := t.details.value.allowReg) == t.details.value
  {
    t.(details := Some(t.details.value.(allowReg := !t.details.value.allowReg)))
  }

  /** `startGame` on a game not yet started: the game starts at level 1, which
      exists afterwards as a fresh level open for voting. */
  function AfterStartGame(t: Tables): (u: Tables)
    requires t.details.Some?
    ensures u.details == Some(t.details.value.(gameStarted := true, currentLevel := 1))
    ensures u.levels.Keys == t.levels.Keys + {1}
    ensures u.levels[1] == OPEN_LEVEL
    ensures forall n :: n in t.levels && n != 1 ==> u.levels[n] == t.levels[n]
    ensures u.users == t.users && u.votes == t.votes
  {
    t.(details := Some(t.details.value.(gameStarted := true, currentLevel := 1)), levels := t.levels[1 := OPEN_LEVEL])
  }

  /** The end of a timer started at `nowMs`: whole seconds since the epoch,
      rounded down, plus the timer length. */
  function TimerEnd(nowMs: nat): (r: int)
    ensures (r - TIMER_SECONDS) * 1000 <= nowMs < (r - TIMER_SECONDS + 1) * 1000
  {
    nowMs / 1000 + TIMER_SECONDS
  }

  /** `startTimer` on a level still taking votes: the timer runs for ten seconds. */
  function AfterStartTimer(t: Tables, nowMs: nat): (u: Tables)
    requires t.details.Some? && t.details.value.currentLevel in t.levels
    ensures var cur := t.details.value.currentLevel;
      && u.levels.Keys == t.levels.Keys
      && u.levels[cur] == t.levels[cur].(timerActive := true, timerEndTime := Some(TimerEnd(nowMs)), timerDuration := TIMER_SECONDS)
      && (forall n :: n in t.levels && n != cur ==> u.levels[n] == t.levels[n])
    ensures u.users == t.users && u.votes == t.votes && u.details == t.details
  {
    var cur := t.details.value.currentLevel;
    t.(levels := t.levels[cur := t.levels[cur].(timerActive := true, timerEndTime := Some(TimerEnd(nowMs)), timerDuration := TIMER_SECONDS)])
  }

  /** `stopTimer`: the current level's timer is off and has no end time; its
      duration stays as it was. */
  function AfterStopTimer(t: Tables): (u: Tables)
    requires t.details.Some?
    ensures var cur := t.details.value.currentLevel;
      && u.levels.Keys == t.levels.Keys
      && (cur in t.levels ==> u.levels[cur] == t.levels[cur].(timerActive := false, timerEndTime := None))
      && (forall n :: n in t.levels && n != cur ==> u.levels[n] == t.levels[n])
    ensures u.users == t.users && u.votes == t.votes && u.details == t.details
  {
    var cur := t.details.value.currentLevel;
    if cur in t.levels then t.(levels := t.levels[cur := t.levels[cur].(timerActive := false, timerEndTime := None)])
    else t
  }

  const RESET_MESSAGE := "Game reset successfully. All players are back in the lobby!"
  const STARTED_MESSAGE := "Game has already started"
  const TIMER_REFUSED_MESSAGE := "Cannot start timer - voting has ended"

  /** An admin action run by `caller` on the tables `t`. Every action first
      refuses a caller who is not an admin; every action except `resetGame`
      then reads the details row and throws when there is none. Whatever does
      not succeed leaves every table as it was. */
  function Perform(a: Action, t: Tables, caller: Option<User>): (s: Step)
    ensures !IsAdmin(caller) ==> s == Step(t, Refusal(caller))
    ensures IsAdmin(caller) && !a.ResetGame? && t.details.None? ==> s == Step(t, Unhandled(MissingDetails))
    ensures !s.response.Data? ==> s.after == t
    ensures IsAdmin(caller) && a.ResetGame? ==> s == Step(AfterResetGame(t), Data(Summary(RESET_MESSAGE, Plain)))
    ensures IsAdmin(caller) && !a.ResetGame? && t.details.Some? ==> s == Admitted(a, t)
  {
    if !IsAdmin(caller) then Step(t, Refusal(caller))
    else if a.ResetGame? then Step(AfterResetGame(t), Data(Summary(RESET_MESSAGE, Plain)))
    else if t.details.None? then Step(t, Unhandled(MissingDetails))
    else Admitted(a, t)
  }

  /** An action other than `resetGame`, by an admin, with the details row present. */
  function Admitted(a: Action, t: Tables): (s: Step)
    requires t.details.Some? && !a.ResetGame?
    ensures !s.response.Data? ==> s.after == t
    // only a second start, and a timer on a missing or closed level, are refused
    ensures s.response.Data? || s.response.Fail?
    ensures a.StartGame? ==> (s.response == Fail(400, STARTED_MESSAGE) <==> t.details.value.gameStarted)
    ensures a.StartTimer? ==> (s.response == Fail(400, TIMER_REFUSED_MESSAGE) <==>
      var cur := t.details.value.currentLevel; cur !in t.levels || t.levels[cur].votingEnded)
    ensures a.StartGame? ==> (s.response.Data? <==> !t.details.value.gameStarted)
    ensures a.StartTimer? ==> (s.response.Data? <==>
      var cur := t.details.value.currentLevel; cur in t.levels && !t.levels[cur].votingEnded)
    ensures !a.StartGame? && !a.StartTimer? ==> s.response.Data?
    // what each accepted action does to the tables
    ensures s.response.Data? ==> match a
      case EndVoting => s.after == AfterEndVoting(t)
      case RevealResults(random) => s.after == AfterRevealResults(t, CorrectAnswer(random))
      case NextLevel => s.after == AfterNextLevel(t)
      case ToggleRegistration => s.after == AfterToggleRegistration(t)
      case StartGame => s.after == AfterStartGame(t)
      case StartTimer(nowMs) => s.after == AfterStartTimer(t, nowMs)
      case StopTimer => s.after == AfterStopTimer(t)
    // what the accepted reveal and advance report
    ensures a.RevealResults? ==> var answer := CorrectAnswer(a.random);
      s.response.Data? && s.response.value.payload == Revealed(answer, |LosingVotes(t.votes, t.details.value.currentLevel, answer)|)
    ensures a.NextLevel? ==> s.response.Data? && s.response.value.payload == Advanced(t.details.value.currentLevel + 1)
  {
    var d := t.details.value;
    var cur := d.currentLevel;
    match a
    case EndVoting =>
      Step(AfterEndVoting(t), Data(Summary("Voting ended for current level", Plain)))
    case RevealResults(random) =>
      var answer := CorrectAnswer(random);
      var n := |LosingVotes(t.votes, cur, answer)|;
      Step(AfterRevealResults(t, answer), Data(Summary(
        "Results revealed! Correct answer: " + answer + ". " + IntToString(n) + " players eliminated.",
        Revealed(answer, n))))
    case NextLevel =>
      Step(AfterNextLevel(t), Data(Summary("Advanced to level " + IntToString(cur + 1), Advanced(cur + 1))))
    case ToggleRegistration =>
      var message := if !d.allowReg then "Registration is now open" else "Registration has been stopped";
      Step(AfterToggleRegistration(t), Data(Summary(message, Plain)))
    case StartGame =>
      if d.gameStarted then Step(t, Fail(400, STARTED_MESSAGE))
      else Step(AfterStartGame(t), Data(Summary("Game started! Level 1 voting is now open.", Plain)))
    case StartTimer(nowMs) =>
      if cur !in t.levels || t.levels[cur].votingEnded then Step(t, Fail(400, TIMER_REFUSED_MESSAGE))
      else Step(AfterStartTimer(t, nowMs), Data(Summary(
        "Timer started for " + IntToString(TIMER_SECONDS) + " seconds!", Plain)))
    case StopTimer =>
      Step(AfterStopTimer(t), Data(Summary("Timer stopped!", Plain)))
  }

  // Properties of the state machine

  /** Ending voting twice leaves the same tables, and gives the same response,
      as ending it once. */
  lemma EndVotingIdempotent(t: Tables, caller: Option<User>)
    ensures var once := Perform(EndVoting, t, caller);
      Perform(EndVoting, once.after, caller) == once
  {
    var once := Perform(EndVoting, t, caller);
    if IsAdmin(caller) && t.details.Some? {
      var cur := t.details.value.currentLevel;
      assert once.after.details == t.details;
      if cur in t.levels {
        assert AfterEndVoting(once.after).levels == once.after.levels;
      }
    }
  }

  /** Toggling registration twice restores every table. */
  lemma ToggleRegistrationInvolution(t: Tables, caller: Option<User>)
    ensures Perform(ToggleRegistration, Perform(ToggleRegistration, t, caller).after, caller).after == t
  {
  }

  /** Once a start has succeeded, a second start fails with 400 and changes nothing. */
  lemma StartGameOnlyOnce(t: Tables, caller: Option<User>)
    requires Perform(StartGame, t, caller).response.Data?
    ensures var started := Perform(StartGame, t, caller).after;
      Perform(StartGame, started, caller) == Step(started, Fail(400, STARTED_MESSAGE))
  {
  }

  /** After voting has ended on the current level, starting the timer fails
      with 400 and changes nothing. */
  lemma NoTimerAfterVotingEnds(t: Tables, caller: Option<User>, nowMs: nat)
    requires IsAdmin(caller) && t.details.Some?
    ensures var ended := Perform(EndVoting, t, caller).after;
      Perform(StartTimer(nowMs), ended, caller) == Step(ended, Fail(400, TIMER_REFUSED_MESSAGE))
  {
  }

  /** A vote row of `level` for `answer` that names `id`. */
  predicate VotedFor(votes: seq<Vote>, id: string, level: int, answer: string)
  {
    exists i :: 0 <= i < |votes| && votes[i].userId == id && votes[i].level == level && votes[i].answer == answer
  }

  lemma VoterIdsOfFilter(votes: seq<Vote>, id: string, level: int, answer: string)
    ensures id in VoterIds(VotesWith(votes, level, answer)) <==> VotedFor(votes, id, level, answer)
  {
    var losing := VotesWith(votes, level, answer);
    if id in VoterIds(losing) {
      var i :| 0 <= i < |losing| && losing[i].userId == id;
      assert losing[i] in votes;
      var j :| 0 <= j < |votes| && votes[j] == losing[i];
      assert votes[j].userId == id;
    }
    if VotedFor(votes, id, level, answer) {
      var i :| 0 <= i < |votes| && votes[i].userId == id && votes[i].level == level && votes[i].answer == answer;
      assert votes[i] in losing;
      var j :| 0 <= j < |losing| && losing[j] == votes[i];
      assert losing[j].userId == id;
    }
  }

  /** Revealing eliminates exactly the users with a current-level vote for
      the losing answer; it changes no other column of any user, and no user
      who did not vote that way. */
  lemma RevealEliminatesExactlyLosers(t: Tables, answer: string)
    requires t.details.Some?
    ensures var u := AfterRevealResults(t, answer);
      var cur := t.details.value.currentLevel;
      && u.users.Keys == t.users.Keys
      && forall id :: id in t.users ==>
        && (u.users[id].isActive <==> t.users[id].isActive && !VotedFor(t.votes, id, cur, Opposite(answer)))
        && u.users[id].(isActive := t.users[id].isActive) == t.users[id]
  {
    var cur := t.details.value.currentLevel;
    forall id | id in t.users {
      VoterIdsOfFilter(t.votes, id, cur, Opposite(answer));
    }
  }

  /** The reported `eliminatedCount` counts losing vote rows, so it is never
      less than the number of users the reveal newly eliminated. */
  lemma EliminatedCountCoversNewlyEliminated(t: Tables, random: real, caller: Option<User>)
    requires IsAdmin(caller) && t.details.Some?
    ensures var s := Perform(RevealResults(random), t, caller);
      && s.response.Data? && s.response.value.payload.Revealed?
      && |set id | id in t.users && t.users[id].isActive && !s.after.users[id].isActive|
           <= s.response.value.payload.eliminatedCount
  {
    var s := Perform(RevealResults(random), t, caller);
    var answer := CorrectAnswer(random);
    var losing := LosingVotes(t.votes, t.details.value.currentLevel, answer);
    var newly := set id | id in t.users && t.users[id].isActive && !s.after.users[id].isActive;
    assert newly <= VoterIds(losing);
    SubsetSize(newly, VoterIds(losing));
    VoterIdsSize(losing);
  }

  /** Every admin action keeps `Consistent`: the schema's uniqueness and
      reference constraints, and level 1 existing beside the details row. */
  lemma PerformKeepsConsistent(a: Action, t: Tables, caller: Option<User>)
    requires Consistent(t)
    ensures Consistent(Perform(a, t, caller).after)
  {
    var u := Perform(a, t, caller).after;
    if u != t {
      if a.ResetGame? {
        KeepsUniqueEmails(t.users, u.users);
      } else if a.RevealResults? {
        KeepsUniqueEmails(t.users, u.users);
        assert u.levels.Keys == t.levels.Keys;
      } else {
        OtherActionsKeepRows(a, t, caller);
      }
    }
  }

  /** The actions other than reset and reveal change no user and no vote, and
      drop no level. */
  lemma OtherActionsKeepRows(a: Action, t: Tables, caller: Option<User>)
    requires !a.ResetGame? && !a.RevealResults?
    ensures var u := Perform(a, t, caller).after;
      u.users == t.users && u.votes == t.votes && t.levels.Keys <= u.levels.Keys
      && (u.details.Some? ==> t.details.Some? && (u.details.value.currentLevel == t.details.value.currentLevel || u.details.value.currentLevel in u.levels))
  {
  }

  /** Changing columns other than `email` keeps emails unique. */
  lemma KeepsUniqueEmails(before: map<string, User>, after: map<string, User>)
    requires UniqueEmails(before)
    requires after.Keys == before.Keys && forall id :: id in before ==> after[id].email == before[id].email
    ensures UniqueEmails(after)
  {
    forall x, y | x in after && y in after && x != y ensures after[x].email != after[y].email {
      assert before[x].email != before[y].email;
    }
  }

  /** Why `Consistent` asks for level 1 beyond the schema's own foreign key:
      a reset points the details row at level 1 without creating it, so on
      tables that lack level 1 it leaves `details.currentLevel` dangling. */
  lemma ResetWithoutLevelOneDangles(t: Tables, admin: Option<User>)
    requires IsAdmin(admin) && t.details.Some? && 1 !in t.levels
    ensures var u := Perform(ResetGame, t, admin).after;
      u.details.Some? && u.details.value.currentLevel !in u.levels
  {
  }

  /** After a reset, every user plays again and nobody is eliminated. */
  lemma ResetGameRestoresAllPlayers(t: Tables, caller: Option<User>)
    requires IsAdmin(caller)
    ensures var u := Perform(ResetGame, t, caller).after;
      ActiveIds(u.users) == t.users.Keys && EliminatedIds(u.users) == {}
  {
  }
}
