/** The game entry page: the lobby before the game starts, and a redirect to
    the current level once it has. */
module GamePage {
  import opened Schema
  import opened Kit
  import opened Queries

  datatype LobbyData = LobbyData(gameStarted: bool, playerCount: nat, allowRegistration: bool)

  /** `load`: a visitor who is not logged in goes to the login page. Otherwise
      (the details row being read, and its absence throwing) a game not yet
      started shows the lobby with the number of players still in the game
      and whether registration is open, and a started game redirects to its
      current level. */
  function Load(t: Tables, caller: Option<User>): (r: Response<LobbyData>)
    ensures caller.None? <==> r == Redirect(302, "/login")
    ensures caller.Some? && t.details.None? ==> r == Unhandled(MissingDetails)
    ensures r.Data? <==> caller.Some? && t.details.Some? && !t.details.value.gameStarted
    ensures r.Data? ==> r.value == LobbyData(false, |ActiveIds(t.users)|, t.details.value.allowReg)
    ensures caller.Some? && t.details.Some? && t.details.value.gameStarted ==>
      r == Redirect(302, GamePath(t.details.value.currentLevel))
  {
    if caller.None? then Redirect(302, "/login")
    else if t.details.None? then Unhandled(MissingDetails)
    else if !t.details.value.gameStarted then
      Data(LobbyData(false, |ActiveIds(t.users)|, t.details.value.allowReg))
    else Redirect(302, GamePath(t.details.value.currentLevel))
  }
}
