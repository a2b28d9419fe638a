/** The login page: its loader sends a logged-in user on to the game, and its
    `login` action registers a new user while registration is open. */
module LoginPage {
  import opened Schema
  import opened Kit
  import opened Database
  import Auth

  /** What `formData.get(field)` gives: nothing, a text value, or a file. */
  datatype FormValue = Absent | Text(text: string) | Upload

  /** JavaScript falsiness of a form value: a missing field or an empty string. */
  predicate Falsy(v: FormValue)
  {
    v.Absent? || v == Text("")
  }

  const REQUIRED_MESSAGE := "Name and email are required"
  const INVALID_MESSAGE := "Invalid name or email"
  const CLOSED_MESSAGE := "Registration is not available"

  /** `load`: a logged-in visitor is redirected to the game; anyone else gets
      the empty page. */
  function Load(caller: Option<User>): (r: Response<()>)
    ensures caller.Some? <==> r == Redirect(302, "/game")
    ensures caller.None? <==> r == Data(())
  {
    if caller.Some? then Redirect(302, "/game") else Data(())
  }

  predicate EmailTaken(users: map<string, User>, email: string)
  {
    exists id :: id in users && users[id].email == email
  }

  /** The tables after `login`, and its response. */
  datatype Outcome = Outcome(after: Tables, response: Response<()>)

  /** `login` with the submitted name and email, the session token it
      generates, the fresh id it generates for the new user, and the session
      digest function. The unique email column turns a second registration
      with the same email into an exception. */
  function LoginOutcome(t: Tables, name: FormValue, email: FormValue, token: string, userId: string, digest: string -> string): (o: Outcome)
    requires userId !in t.users
    ensures !o.response.Redirect? ==> o.after == t
    ensures o.response == Fail(400, REQUIRED_MESSAGE) <==> Falsy(name) || Falsy(email)
    ensures o.response == Fail(400, INVALID_MESSAGE) <==> !Falsy(name) && !Falsy(email) && (name.Upload? || email.Upload?)
    ensures o.response == Unhandled(MissingDetails) <==>
      name.Text? && email.Text? && name != Text("") && email != Text("") && t.details.None?
    ensures o.response == Fail(400, CLOSED_MESSAGE) <==>
      name.Text? && email.Text? && name != Text("") && email != Text("") && t.details.Some? && !t.details.value.allowReg
    ensures o.response == Unhandled(DuplicateEmail) <==>
      name.Text? && email.Text? && name != Text("") && email != Text("") && t.details.Some? && t.details.value.allowReg
      && EmailTaken(t.users, email.text)
    ensures o.response.Redirect? <==>
      name.Text? && email.Text? && name != Text("") && email != Text("") && t.details.Some? && t.details.value.allowReg
      && !EmailTaken(t.users, email.text)
    ensures o.response.Redirect? ==>
      && o.response == Redirect(302, "/game/1")
      && name.Text? && email.Text? && !EmailTaken(t.users, email.text)
      && o.after == t.(users := t.users[userId := NewUser(name.text, email.text, digest(token))])
    ensures Consistent(t) ==> Consistent(o.after)
  {
    if Falsy(name) || Falsy(email) then Outcome(t, Fail(400, REQUIRED_MESSAGE))
    else if !name.Text? || !email.Text? then Outcome(t, Fail(400, INVALID_MESSAGE))
    else if t.details.None? then Outcome(t, Unhandled(MissingDetails))
    else if !t.details.value.allowReg then Outcome(t, Fail(400, CLOSED_MESSAGE))
    else
      var session := digest(token);
      var users := Auth.SetSession(t.users, userId, session);
      if EmailTaken(users, email.text) then Outcome(t.(users := users), Unhandled(DuplicateEmail))
      else
        var after := t.(users := users[userId := NewUser(name.text, email.text, session)]);
        assert Consistent(t) ==> UniqueEmails(after.users) by {
          if Consistent(t) {
            forall a, b | a in after.users && b in after.users && a != b
              ensures after.users[a].email != after.users[b].email
            {
              if a != userId && b != userId {
                assert after.users[a] == t.users[a] && after.users[b] == t.users[b];
              }
            }
          }
        }
        Outcome(after, Redirect(302, "/game/1"))
  }

  /** The `login` action, statement by statement. The session cookie it sets
      is not modelled. */
  method Login(db: Db, name: FormValue, email: FormValue, token: string, userId: string, digest: string -> string)
    returns (r: Response<()>)
    requires userId !in db.users
    modifies db
    ensures Outcome(db.Snapshot(), r) == LoginOutcome(old(db.Snapshot()), name, email, token, userId, digest)
  {
    if Falsy(name) || Falsy(email) { return Fail(400, REQUIRED_MESSAGE); }
    if !name.Text? || !email.Text? { return Fail(400, INVALID_MESSAGE); }
    if db.details.None? { return Unhandled(MissingDetails); }
    if !db.details.value.allowReg { return Fail(400, CLOSED_MESSAGE); }
    var sessionId := token;
    var store := Auth.CreateSession(db, sessionId, userId, digest);
    if EmailTaken(db.users, email.text) { return Unhandled(DuplicateEmail); }
    db.users := db.users[userId := NewUser(name.text, email.text, store)];
    return Redirect(302, "/game/1");
  }
}
