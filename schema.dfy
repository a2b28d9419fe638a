/** The four tables of the game database (`user`, `levels`, `votes`, `details`),
    their column defaults, and one invariant over all tables together: the
    uniqueness and reference constraints that the schema declares, plus the
    existence of level 1 whenever the details row exists. */
module Schema {

  datatype Option<T> = None | Some(value: T)

  /** A row of the `user` table; the `id` primary key is the key of the map
      that holds the rows. */
  datatype User = User(
    email: string,
    name: string,
    level: int,
    role: string,
    session: string,
    disabled: bool,
    isActive: bool)

  /** A row of the `levels` table; the unique `level` number is the key of the
      map that holds the rows. The timer columns are written by the admin
      actions and by initialisation. */
  datatype Level = Level(
    correct: Option<string>,
    allowAns: bool,
    votingEnded: bool,
    resultsRevealed: bool,
    timerActive: bool,
    timerEndTime: Option<int>,
    timerDuration: int)

  /** A row of the `votes` table. Nothing makes (userId, level) unique. */
  datatype Vote = Vote(id: string, userId: string, level: int, answer: string, timestamp: int)

  /** The `details` row. */
  datatype Details = Details(allowReg: bool, currentLevel: int, gameStarted: bool)

  /** The whole database: users by id, levels by level number, the vote rows
      in table order, and the details row if there is one. */
  datatype Tables = Tables(
    users: map<string, User>,
    levels: map<int, Level>,
    votes: seq<Vote>,
    details: Option<Details>)

  const ALIVE := "alive"
  const DEAD := "dead"
  const ADMIN := "admin"
  /** The timer length, in seconds, that every level write uses. */
  const TIMER_SECONDS := 10

  /** A user row inserted with only id, name, email and session given:
      the other columns take their schema defaults. */
  function NewUser(name: string, email: string, session: string): (u: User)
    ensures u.name == name && u.email == email && u.session == session
    ensures u.level == 1 && u.role == "user" && !u.disabled && u.isActive
  {
    User(email, name, 1, "user", session, false, true)
  }

  /** A level open for voting with nothing drawn and the timer cleared. Its
      schema columns are exactly the schema defaults: answers allowed, voting
      not ended, results not revealed, no correct answer. */
  const OPEN_LEVEL: Level := Level(None, true, false, false, false, None, TIMER_SECONDS)

  /** The same fresh level with answers not yet allowed (the pre-game lobby). */
  const LOBBY_LEVEL: Level := OPEN_LEVEL.(allowAns := false)

  /** A user is still in the game. */
  predicate Playing(u: User)
  {
    u.isActive && !u.disabled
  }

  predicate UniqueEmails(users: map<string, User>)
  {
    forall a, b :: a in users && b in users && a != b ==> users[a].email != users[b].email
  }

  predicate VotesReferToRows(t: Tables)
  {
    forall i :: 0 <= i < |t.votes| ==> t.votes[i].userId in t.users && t.votes[i].level in t.levels
  }

  /** The details row points at an existing level, and level 1 (where every
      reset and start returns) exists whenever the details row does. */
  predicate DetailsReferToLevel(t: Tables)
  {
    t.details.Some? ==> t.details.value.currentLevel in t.levels && 1 in t.levels
  }

  /** The invariant the model keeps: the schema's unique emails and foreign
      keys (votes referring to existing users and levels, the details row
      referring to an existing level), and one more condition the schema does
      not declare, that level 1 exists whenever the details row does. The
      reset needs it, since it points the details row at level 1 without
      creating that level. */
  predicate Consistent(t: Tables)
  {
    UniqueEmails(t.users) && VotesReferToRows(t) && DetailsReferToLevel(t)
  }
}
