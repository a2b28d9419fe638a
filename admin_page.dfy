/** The admin page: its loader, a read-only dashboard over the tables, and
    its eight form actions, each of which updates the tables in place,
    statement by statement, and is proved to leave exactly the tables the
    state machine in Progression prescribes. */
module AdminPage {
  import opened Schema
  import opened Kit
  import opened Queries
  import opened Database
  import P = Progression

  /** An eliminated player as the dashboard lists them. */
  datatype PlayerInfo = PlayerInfo(id: string, name: string, email: string, level: int)

  /** A current-level vote with its voter's name and email. */
  datatype VoteInfo = VoteInfo(id: string, userId: string, userName: string, userEmail: string, answer: string, timestamp: int)

  datatype AdminData = AdminData(
    gameDetails: Details,
    levelData: Option<Level>,
    voteStats: VoteStats,
    activeUsersCount: nat,
    eliminatedCount: nat,
    eliminatedPlayers: set<PlayerInfo>,
    votes: seq<VoteInfo>,
    currentLevel: int)

  function Info(id: string, u: User): PlayerInfo
  {
    PlayerInfo(id, u.name, u.email, u.level)
  }

  /** The eliminated players, without the name order the page sorts them in. */
  function EliminatedPlayers(users: map<string, User>): (r: set<PlayerInfo>)
    ensures forall p :: p in r ==> p.id in users && !users[p.id].isActive && p == Info(p.id, users[p.id])
    ensures forall id :: id in users && !users[id].isActive ==> Info(id, users[id]) in r
  {
    set id | id in users && !users[id].isActive :: Info(id, users[id])
  }

  function Describe(row: VoterRow): VoteInfo
  {
    VoteInfo(row.vote.id, row.vote.userId, row.voter.name, row.voter.email, row.vote.answer, row.vote.timestamp)
  }

  function Timestamp(row: VoterRow): int
  {
    row.vote.timestamp
  }

  /** The current-level votes joined with their users, oldest first: the
      joined rows, each described once, reordered by timestamp. */
  function VoteList(t: Tables, level: int): (r: seq<VoteInfo>)
    ensures multiset(r) == multiset(Project(Join(t.votes, t.users, level), Describe))
    ensures |r| == |Join(t.votes, t.users, level)|
    ensures forall i, j :: 0 <= i < j < |r| ==> r[i].timestamp <= r[j].timestamp
  {
    var joined := Join(t.votes, t.users, level);
    var rows := SortBy(joined, Timestamp);
    var r := Project(rows, Describe);
    SortedRowsGiveSortedList(rows, r);
    ProjectSubMultiset(rows, joined, Describe);
    ProjectSubMultiset(joined, rows, Describe);
    assert |multiset(r)| == |multiset(Project(joined, Describe))|;
    r
  }

  lemma SortedRowsGiveSortedList(rows: seq<VoterRow>, r: seq<VoteInfo>)
    requires SortedBy(rows, Timestamp)
    requires r == Project(rows, Describe)
    ensures forall i, j :: 0 <= i < j < |r| ==> r[i].timestamp <= r[j].timestamp
  {
    forall i, j | 0 <= i < j < |r| ensures r[i].timestamp <= r[j].timestamp {
      assert Timestamp(rows[i]) <= Timestamp(rows[j]);
    }
  }

  /** Each eliminated user appears once among the listed players, so the
      eliminated count equals the number of players listed. */
  lemma EliminatedListMatchesCount(users: map<string, User>)
    ensures |EliminatedPlayers(users)| == |EliminatedIds(users)|
  {
    var ids := EliminatedIds(users);
    var players := EliminatedPlayers(users);
    assert players == set id | id in ids :: Info(id, users[id]);
    InjectiveImageSize(ids, users);
  }

  lemma {:induction false} InjectiveImageSize(ids: set<string>, users: map<string, User>)
    requires ids <= users.Keys
    ensures |set id | id in ids :: Info(id, users[id])| == |ids|
    decreases |ids|
  {
    if ids != {} {
      var x :| x in ids;
      var rest := ids - {x};
      InjectiveImageSize(rest, users);
      var image := set id | id in ids :: Info(id, users[id]);
      var restImage := set id | id in rest :: Info(id, users[id]);
      assert image == restImage + {Info(x, users[x])};
      assert Info(x, users[x]) !in restImage;
    }
  }

  /** The dashboard: a visitor who is not logged in goes to the login page, a
      user who is not an admin to the home page; otherwise the loader reads
      the details row (throwing when there is none) and reports the current
      level, its tally, the active and eliminated counts, the eliminated
      players and the current-level votes, oldest first. */
  function Load(t: Tables, caller: Option<User>): (r: Response<AdminData>)
    ensures caller.None? ==> r == Redirect(302, "/login")
    ensures caller.Some? && caller.value.role != ADMIN ==> r == Redirect(302, "/")
    ensures P.IsAdmin(caller) ==> (r.Unhandled? <==> t.details.None?)
    ensures P.IsAdmin(caller) && t.details.Some? ==> r.Data?
    ensures r.Data? ==> P.IsAdmin(caller) && t.details == Some(r.value.gameDetails) && Describes(r.value, t)
  {
    if caller.None? then Redirect(302, "/login")
    else if caller.value.role != ADMIN then Redirect(302, "/")
    else if t.details.None? then Unhandled(MissingDetails)
    else Data(Dashboard(t, t.details.value))
  }

  /** What the dashboard shows, given the details row `d`. */
  ghost predicate Describes(d: AdminData, t: Tables)
  {
    && d.currentLevel == d.gameDetails.currentLevel
    && (d.levelData.Some? <==> d.currentLevel in t.levels)
    && (d.levelData.Some? ==> d.levelData.value == t.levels[d.currentLevel])
    && d.voteStats == Tally(t.votes, d.currentLevel)
    && d.activeUsersCount == |ActiveIds(t.users)|
    && d.eliminatedCount == |EliminatedIds(t.users)| == |d.eliminatedPlayers|
    && d.activeUsersCount + d.eliminatedCount <= |t.users|
    && (forall p :: p in d.eliminatedPlayers <==> p.id in t.users && !t.users[p.id].isActive && p == Info(p.id, t.users[p.id]))
    && multiset(d.votes) == multiset(Project(Join(t.votes, t.users, d.currentLevel), Describe))
    && (forall i, j :: 0 <= i < j < |d.votes| ==> d.votes[i].timestamp <= d.votes[j].timestamp)
  }

  function Dashboard(t: Tables, d: Details): (r: AdminData)
    ensures r.gameDetails == d && Describes(r, t)
  {
    var cur := d.currentLevel;
    EliminatedListMatchesCount(t.users);
    ActiveEliminatedDisjoint(t.users);
    AdminData(
      d,
      if cur in t.levels then Some(t.levels[cur]) else None,
      Tally(t.votes, cur),
      |ActiveIds(t.users)|,
      |EliminatedIds(t.users)|,
      EliminatedPlayers(t.users),
      VoteList(t, cur),
      cur)
  }

  method EndVoting(db: Db, caller: Option<User>) returns (r: Response<P.Summary>)
    modifies db
    ensures P.Step(db.Snapshot(), r) == P.Perform(P.EndVoting, old(db.Snapshot()), caller)
  {
    if !P.IsAdmin(caller) { return P.Refusal(caller); }
    if db.details.None? { return Unhandled(MissingDetails); }
    var currentLevel := db.details.value.currentLevel;
    if currentLevel in db.levels {
      db.levels := db.levels[currentLevel := db.levels[currentLevel].(votingEnded := true, allowAns := false)];
    }
    return Data(P.Summary("Voting ended for current level", P.Plain));
  }

  method RevealResults(db: Db, caller: Option<User>, random: real) returns (r: Response<P.Summary>)
    modifies db
    ensures P.Step(db.Snapshot(), r) == P.Perform(P.RevealResults(random), old(db.Snapshot()), caller)
  {
    if !P.IsAdmin(caller) { return P.Refusal(caller); }
    if db.details.None? { return Unhandled(MissingDetails); }
    ghost var before := db.Snapshot();
    var currentLevel := db.details.value.currentLevel;
    var correctAnswer := P.CorrectAnswer(random);
    if currentLevel in db.levels {
      db.levels := db.levels[currentLevel := db.levels[currentLevel].(correct := Some(correctAnswer), resultsRevealed := true)];
    }
    var incorrectVotes := P.LosingVotes(db.votes, currentLevel, correctAnswer);
    if |incorrectVotes| > 0 {
      var userIds := VoterIds(incorrectVotes);
      db.users := map id | id in db.users :: if id in userIds then db.users[id].(isActive := false) else db.users[id];
    } else {
      assert VoterIds(incorrectVotes) == {};
    }
    assert db.Snapshot() == P.AfterRevealResults(before, correctAnswer);
    var eliminatedCount := |incorrectVotes|;
    r := Data(P.Summary(
      "Results revealed! Correct answer: " + correctAnswer + ". " + IntToString(eliminatedCount) + " players eliminated.",
      P.Revealed(correctAnswer, eliminatedCount)));
  }

  method NextLevel(db: Db, caller: Option<User>) returns (r: Response<P.Summary>)
    modifies db
    ensures P.Step(db.Snapshot(), r) == P.Perform(P.NextLevel, old(db.Snapshot()), caller)
  {
    if !P.IsAdmin(caller) { return P.Refusal(caller); }
    if db.details.None? { return Unhandled(MissingDetails); }
    var nextLevel := db.details.value.currentLevel + 1;
    if nextLevel !in db.levels {
      db.levels := db.levels[nextLevel := Level(None, true, false, false, false, None, TIMER_SECONDS)];
    } else {
      db.levels := db.levels[nextLevel := db.levels[nextLevel].(
        correct := None, allowAns := true, votingEnded := false, resultsRevealed := false,
        timerActive := false, timerEndTime := None, timerDuration := TIMER_SECONDS)];
    }
    db.details := Some(db.details.value.(currentLevel := nextLevel));
    return Data(P.Summary("Advanced to level " + IntToString(nextLevel), P.Advanced(nextLevel)));
  }

  method ResetGame(db: Db, caller: Option<User>) returns (r: Response<P.Summary>)
    modifies db
    ensures P.Step(db.Snapshot(), r) == P.Perform(P.ResetGame, old(db.Snapshot()), caller)
  {
    if !P.IsAdmin(caller) { return P.Refusal(caller); }
    db.users := map id | id in db.users :: db.users[id].(isActive := true, disabled := false, level := 1);
    db.votes := [];
    if db.details.Some? {
      db.details := Some(db.details.value.(currentLevel := 1, gameStarted := false));
    }
    if 1 in db.levels {
      db.levels := db.levels[1 := db.levels[1].(
        correct := None, allowAns := false, votingEnded := false, resultsRevealed := false,
        timerActive := false, timerEndTime := None, timerDuration := TIMER_SECONDS)];
    }
    return Data(P.Summary(P.RESET_MESSAGE, P.Plain));
  }

  method ToggleRegistration(db: Db, caller: Option<User>) returns (r: Response<P.Summary>)
    modifies db
    ensures P.Step(db.Snapshot(), r) == P.Perform(P.ToggleRegistration, old(db.Snapshot()), caller)
  {
    if !P.IsAdmin(caller) { return P.Refusal(caller); }
    if db.details.None? { return Unhandled(MissingDetails); }
    var newAllowReg := !db.details.value.allowReg;
    db.details := Some(db.details.value.(allowReg := newAllowReg));
    var message := if newAllowReg then "Registration is now open" else "Registration has been stopped";
    return Data(P.Summary(message, P.Plain));
  }

  method StartGame(db: Db, caller: Option<User>) returns (r: Response<P.Summary>)
    modifies db
    ensures P.Step(db.Snapshot(), r) == P.Perform(P.StartGame, old(db.Snapshot()), caller)
  {
    if !P.IsAdmin(caller) { return P.Refusal(caller); }
    if db.details.None? { return Unhandled(MissingDetails); }
    if db.details.value.gameStarted { return Fail(400, P.STARTED_MESSAGE); }
    db.details := Some(db.details.value.(gameStarted := true, currentLevel := 1));
    if 1 !in db.levels {
      db.levels := db.levels[1 := Level(None, true, false, false, false, None, TIMER_SECONDS)];
    } else {
      db.levels := db.levels[1 := db.levels[1].(
        allowAns := true, votingEnded := false, resultsRevealed := false, correct := None,
        timerActive := false, timerEndTime := None, timerDuration := TIMER_SECONDS)];
    }
    return Data(P.Summary("Game started! Level 1 voting is now open.", P.Plain));
  }

  method StartTimer(db: Db, caller: Option<User>, nowMs: nat) returns (r: Response<P.Summary>)
    modifies db
    ensures P.Step(db.Snapshot(), r) == P.Perform(P.StartTimer(nowMs), old(db.Snapshot()), caller)
  {
    if !P.IsAdmin(caller) { return P.Refusal(caller); }
    if db.details.None? { return Unhandled(MissingDetails); }
    var currentLevel := db.details.value.currentLevel;
    if currentLevel !in db.levels || db.levels[currentLevel].votingEnded {
      return Fail(400, P.TIMER_REFUSED_MESSAGE);
    }
    var timerDuration := TIMER_SECONDS;
    var timerEndTime := nowMs / 1000 + timerDuration;
    db.levels := db.levels[currentLevel := db.levels[currentLevel].(
      timerActive := true, timerEndTime := Some(timerEndTime), timerDuration := timerDuration)];
    return Data(P.Summary("Timer started for " + IntToString(timerDuration) + " seconds!", P.Plain));
  }

  method StopTimer(db: Db, caller: Option<User>) returns (r: Response<P.Summary>)
    modifies db
    ensures P.Step(db.Snapshot(), r) == P.Perform(P.StopTimer, old(db.Snapshot()), caller)
  {
    if !P.IsAdmin(caller) { return P.Refusal(caller); }
    if db.details.None? { return Unhandled(MissingDetails); }
    var currentLevel := db.details.value.currentLevel;
    if currentLevel in db.levels {
      db.levels := db.levels[currentLevel := db.levels[currentLevel].(timerActive := false, timerEndTime := None)];
    }
    return Data(P.Summary("Timer stopped!", P.Plain));
  }
}
