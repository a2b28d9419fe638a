/** The database initialisation endpoint: it clears the game tables, keeps
    the users, and writes the details row and level 1 of a game in its
    pre-game lobby. */
module InitDb {
  import opened Schema
  import opened Database

  /** The JSON body of a successful initialisation. */
  datatype InitReply = InitReply(success: bool, message: string, instructions: seq<string>)

  /** The tables right after initialisation. */
  function Initialized(t: Tables): Tables
  {
    Tables(t.users, map[1 := LOBBY_LEVEL], [], Some(Details(true, 1, false)))
  }

  /** `POST`: delete the votes, the levels and the details, in that order, then
      insert the details row (registration open, level 1, not started) and
      level 1 with answers not yet allowed. */
  method Post(db: Db) returns (r: InitReply)
    modifies db
    ensures db.Snapshot() == Initialized(old(db.Snapshot()))
    ensures db.users == old(db.users)
    ensures db.votes == [] && db.levels.Keys == {1}
    ensures db.levels[1] == Level(None, false, false, false, false, None, TIMER_SECONDS)
    ensures db.details == Some(Details(true, 1, false))
    ensures r.success
  {
    db.votes := [];
    db.levels := map[];
    db.details := None;
    db.details := Some(Details(true, 1, false));
    db.levels := db.levels[1 := Level(None, false, false, false, false, None, TIMER_SECONDS)];
    r := InitReply(true, "Database initialized successfully!", [
      "Game details created",
      "Registration: OPEN",
      "Game state: PRE-GAME LOBBY",
      "Current level: 1 (voting disabled)",
      "",
      "Next steps:",
      "1. Create admin user via Drizzle Studio (npm run db:studio)",
      "2. Go to /admin to control the game",
      "3. Use \"Start Game\" to begin Level 1 voting"]);
  }

  /** Whatever the tables held before, initialisation leaves a consistent
      database as long as the kept users have distinct emails: no vote is
      left to dangle, and the details row points at level 1, which exists. */
  lemma InitializedIsConsistent(t: Tables)
    requires UniqueEmails(t.users)
    ensures var u := Initialized(t);
      Consistent(u) && u.details.value.currentLevel in u.levels
  {
  }
}
