/** Properties that span several handlers: an action followed by what the
    pages then show, and one round of the game played through. */
module Scenarios {
  import opened Schema
  import opened Kit
  import opened Queries
  import opened Progression
  import InitDb
  import RootPage
  import GamePage
  import EliminatedPage

  /** Right after initialisation the home page needs no initialisation and
      shows level 1, registration open and the game not started. */
  lemma HomeAfterInit(t: Tables, caller: Option<User>)
    ensures var home := RootPage.Load(InitDb.Initialized(t), caller);
      && !home.needsInitialization
      && home.currentLevel == 1 && home.allowRegistration && !home.gameStarted
  {
  }

  /** After a reset every registered user waits in the lobby: the game page
      shows the lobby and counts all of them. */
  lemma LobbyAfterReset(t: Tables, admin: Option<User>, visitor: User)
    requires IsAdmin(admin) && t.details.Some?
    ensures var u := Perform(ResetGame, t, admin).after;
      GamePage.Load(u, Some(visitor)) == Data(GamePage.LobbyData(false, |t.users|, t.details.value.allowReg))
  {
    var u := Perform(ResetGame, t, admin).after;
    ResetGameRestoresAllPlayers(t, admin);
    assert |ActiveIds(u.users)| == |t.users.Keys|;
  }

  /** After the game starts, the game page sends every logged-in user to level 1. */
  lemma GameStartsAtLevelOne(t: Tables, admin: Option<User>, visitor: User)
    requires Perform(StartGame, t, admin).response.Data?
    ensures GamePage.Load(Perform(StartGame, t, admin).after, Some(visitor)) == Redirect(302, GamePath(1))
  {
  }

  /** Advancing the level moves the game page's redirect to the next level,
      which is open for voting. */
  lemma NextLevelMovesPlayers(t: Tables, admin: Option<User>, visitor: User)
    requires IsAdmin(admin) && t.details.Some? && t.details.value.gameStarted
    ensures var u := Perform(NextLevel, t, admin).after;
      var next := t.details.value.currentLevel + 1;
      && GamePage.Load(u, Some(visitor)) == Redirect(302, GamePath(next))
      && u.levels[next].allowAns && !u.levels[next].votingEnded && u.levels[next].correct.None?
  {
  }

  const ADMIN_USER := User("admin@example.org", "Admin", 1, ADMIN, "s0", false, false)
  const ALICE := User("alice@example.org", "Alice", 1, "user", "s1", false, true)
  const BOB := User("bob@example.org", "Bob", 1, "user", "s2", false, true)

  /** Two players in a started game, Alice having voted "alive" and Bob "dead"
      at level 1. */
  function TwoVoters(): Tables
  {
    Tables(
      map["a" := ALICE, "b" := BOB],
      map[1 := OPEN_LEVEL],
      [Vote("v1", "a", 1, ALIVE, 1000), Vote("v2", "b", 1, DEAD, 2000)],
      Some(Details(false, 1, true)))
  }

  /** The same tables once voting on level 1 has ended. */
  function TwoVotersEnded(): Tables
  {
    TwoVoters().(levels := map[1 := OPEN_LEVEL.(votingEnded := true, allowAns := false)])
  }

  /** A round played through: voting ends, the coin comes up "dead", Alice is
      eliminated, Bob stays in, one elimination is reported, and Bob is
      announced as the winner. */
  lemma RoundWithTwoVoters(random: real)
    requires 0.5 <= random < 1.0
    ensures var admin := Some(ADMIN_USER);
      var ended := Perform(EndVoting, TwoVoters(), admin).after;
      var revealed := Perform(RevealResults(random), ended, admin);
      && revealed.response.Data?
      && revealed.response.value.payload == Revealed(DEAD, 1)
      && !revealed.after.users["a"].isActive
      && revealed.after.users["b"].isActive
      && EliminatedPage.Winner(revealed.after.users) == Some(EliminatedPage.Contact("Bob", "bob@example.org"))
  {
    assert Perform(EndVoting, TwoVoters(), Some(ADMIN_USER)).after == TwoVotersEnded();
    RevealWithTwoVoters(random);
    BobWins();
  }

  lemma RevealWithTwoVoters(random: real)
    requires 0.5 <= random < 1.0
    ensures var revealed := Perform(RevealResults(random), TwoVotersEnded(), Some(ADMIN_USER));
      && revealed.response.Data?
      && revealed.response.value.payload == Revealed(DEAD, 1)
      && revealed.after.users == map["a" := ALICE.(isActive := false), "b" := BOB]
  {
    var t := TwoVotersEnded();
    AliceLoses();
    assert CorrectAnswer(random) == DEAD;
    var u := AfterRevealResults(t, DEAD);
    assert Perform(RevealResults(random), t, Some(ADMIN_USER)).after == u;
    assert u.users.Keys == {"a", "b"};
    assert u.users["a"] == ALICE.(isActive := false);
    assert u.users["b"] == BOB;
  }

  /** Only Alice's vote loses when "dead" is drawn. */
  lemma AliceLoses()
    ensures var losing := LosingVotes(TwoVotersEnded().votes, 1, DEAD);
      losing == [Vote("v1", "a", 1, ALIVE, 1000)] && VoterIds(losing) == {"a"}
  {
    var votes := TwoVotersEnded().votes;
    assert votes == [Vote("v1", "a", 1, ALIVE, 1000)] + [Vote("v2", "b", 1, DEAD, 2000)];
    assert VotesWith([Vote("v2", "b", 1, DEAD, 2000)], 1, ALIVE) == [];
    assert LosingVotes(votes, 1, DEAD) == [Vote("v1", "a", 1, ALIVE, 1000)];
  }

  /** Bob alone still plays, so he is the winner. */
  lemma BobWins()
    ensures EliminatedPage.Winner(map["a" := ALICE.(isActive := false), "b" := BOB])
      == Some(EliminatedPage.Contact("Bob", "bob@example.org"))
  {
    assert ActiveIds(map["a" := ALICE.(isActive := false), "b" := BOB]) == {"b"};
  }
}
