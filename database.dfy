/** The database connection shared by every request handler: the four
    tables as fields that the handlers update in place. */
module Database {
  import opened Schema

  class Db {
    var users: map<string, User>
    var levels: map<int, Level>
    var votes: seq<Vote>
    var details: Option<Details>

    /** A database with every table empty. */
    constructor ()
      ensures Snapshot() == Tables(map[], map[], [], None)
    {
      users, levels, votes, details := map[], map[], [], None;
    }

    /** The current contents of all four tables. */
    function Snapshot(): Tables
      reads this
    {
      Tables(users, levels, votes, details)
    }
  }
}
