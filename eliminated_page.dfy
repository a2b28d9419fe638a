/** The page an eliminated player sees: how many players remain and, once
    only one does, who won. Players still in the game are sent back to it. */
module EliminatedPage {
  import opened Schema
  import opened Kit
  import opened Queries

  datatype Contact = Contact(name: string, email: string)

  datatype EliminatedData = EliminatedData(
    user: User,
    currentLevel: int,
    activePlayersCount: nat,
    eliminatedPlayersCount: nat,
    winner: Option<Contact>)

  lemma SingletonMembers(s: set<string>)
    requires |s| == 1
    ensures forall a :: a in s ==> s == {a}
  {
    forall a | a in s ensures s == {a} {
      assert |s - {a}| == 0;
    }
  }

  /** The winner: present exactly when one player is still in the game, and
      then that player. */
  function Winner(users: map<string, User>): (w: Option<Contact>)
    ensures w.Some? <==> |ActiveIds(users)| == 1
    ensures w.Some? ==> exists id :: ActiveIds(users) == {id} && w.value == Contact(users[id].name, users[id].email)
  {
    var active := ActiveIds(users);
    if |active| == 1 then
      SingletonMembers(active);
      var id :| id in active;
      Some(Contact(users[id].name, users[id].email))
    else None
  }

  /** `load`: a visitor who is not logged in goes to the login page; a player
      still in the game goes to the current level; an eliminated or disabled
      player sees the counts and the winner. The details row is read on both
      of the last two paths, and its absence throws. */
  function Load(t: Tables, caller: Option<User>): (r: Response<EliminatedData>)
    ensures caller.None? ==> r == Redirect(302, "/login")
    ensures caller.Some? && t.details.None? ==> r == Unhandled(MissingDetails)
    ensures caller.Some? && t.details.Some? && Playing(caller.value) ==>
      r == Redirect(302, GamePath(t.details.value.currentLevel))
    ensures r.Data? <==> caller.Some? && t.details.Some? && !Playing(caller.value)
    ensures r.Data? ==>
      && r.value.user == caller.value
      && r.value.currentLevel == t.details.value.currentLevel
      && r.value.activePlayersCount == |ActiveIds(t.users)|
      && r.value.eliminatedPlayersCount == |EliminatedIds(t.users)|
      && r.value.activePlayersCount + r.value.eliminatedPlayersCount <= |t.users|
      && (r.value.winner.Some? <==> r.value.activePlayersCount == 1)
      && r.value.winner == Winner(t.users)
  {
    if caller.None? then Redirect(302, "/login")
    else if t.details.None? then Unhandled(MissingDetails)
    else if Playing(caller.value) then Redirect(302, GamePath(t.details.value.currentLevel))
    else
      ActiveEliminatedDisjoint(t.users);
      Data(EliminatedData(
        caller.value,
        t.details.value.currentLevel,
        |ActiveIds(t.users)|,
        |EliminatedIds(t.users)|,
        Winner(t.users)))
  }
}
