/** The part of session handling that writes to the tables: storing a
    session's digest on a user row. Token generation, hashing, encoding and
    cookies are outside the model; the digest function is a parameter. */
module Auth {
  import opened Schema
  import opened Database

  /** `update user set session = s where id = userId`: no row changes when
      the id names no user. */
  function SetSession(users: map<string, User>, userId: string, session: string): (r: map<string, User>)
    ensures r.Keys == users.Keys
    ensures forall id :: id in users && id != userId ==> r[id] == users[id]
    ensures userId in users ==> r[userId] == users[userId].(session := session)
    ensures userId !in users ==> r == users
  {
    if userId in users then users[userId := users[userId].(session := session)] else users
  }

  /** `createSession`: compute the session digest of the token, store it on
      the user row with the given id, and return it. */
  method CreateSession(db: Db, token: string, userId: string, digest: string -> string) returns (sessionId: string)
    modifies db
    ensures sessionId == digest(token)
    ensures db.users == SetSession(old(db.users), userId, sessionId)
    ensures db.levels == old(db.levels) && db.votes == old(db.votes) && db.details == old(db.details)
  {
    sessionId := digest(token);
    if userId in db.users {
      db.users := db.users[userId := db.users[userId].(session := sessionId)];
    }
  }
}
