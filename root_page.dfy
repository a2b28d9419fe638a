/** The home page: the game's state from the details row, or defaults that
    ask for initialisation when there is none. */
module RootPage {
  import opened Schema

  /** The `userrole` key: left out of the defaults, null for a visitor who is
      not logged in, or the user's role. */
  datatype RoleField = Omitted | NoRole | Role(name: string)

  datatype HomeData = HomeData(
    currentLevel: int,
    allowRegistration: bool,
    gameStarted: bool,
    needsInitialization: bool,
    userrole: RoleField)

  /** The data of a database that has no details row. */
  const DEFAULTS := HomeData(1, false, false, true, Omitted)

  /** `load`: the defaults when there is no details row; otherwise the details
      row's level, registration flag and start flag, and the caller's role. */
  function Load(t: Tables, caller: Option<User>): (r: HomeData)
    ensures r.needsInitialization <==> t.details.None?
    ensures t.details.None? ==> r == DEFAULTS
    ensures t.details.Some? ==>
      && r.currentLevel == t.details.value.currentLevel
      && r.allowRegistration == t.details.value.allowReg
      && r.gameStarted == t.details.value.gameStarted
      && (caller.None? <==> r.userrole == NoRole)
      && (caller.Some? ==> r.userrole == Role(caller.value.role))
  {
    if t.details.None? then DEFAULTS
    else
      var d := t.details.value;
      HomeData(d.currentLevel, d.allowReg, d.gameStarted, false, if caller.Some? then Role(caller.value.role) else NoRole)
  }
}
