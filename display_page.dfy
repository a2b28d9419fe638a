/** The spectator display: the current level, its tally, the active and
    eliminated counts, and the ten newest votes of the current level. */
module DisplayPage {
  import opened Schema
  import opened Kit
  import opened Queries

  /** A vote in the recent-votes feed. */
  datatype FeedEntry = FeedEntry(userName: string, answer: string, timestamp: int)

  datatype DisplayData = DisplayData(
    gameDetails: Details,
    levelData: Option<Level>,
    voteStats: VoteStats,
    activeUsersCount: nat,
    eliminatedUsersCount: nat,
    currentLevel: int,
    recentVotes: seq<FeedEntry>)

  const FEED_LIMIT := 10

  /** The sort key of `orderBy(timestamp DESC)`. */
  function NewerFirst(row: VoterRow): int
  {
    -row.vote.timestamp
  }

  /** The joined current-level rows, newest first, at most ten of them. They
      are among the joined rows, and every joined row left out is no newer
      than any row kept. */
  function RecentRows(t: Tables, level: int): (r: seq<VoterRow>)
    ensures var joined := Join(t.votes, t.users, level);
      && |r| == (if |joined| < FEED_LIMIT then |joined| else FEED_LIMIT)
      && multiset(r) <= multiset(joined)
      && (forall i, j :: 0 <= i < j < |r| ==> r[i].vote.timestamp >= r[j].vote.timestamp)
      && (forall x :: x in multiset(joined) - multiset(r) ==>
            forall k :: 0 <= k < |r| ==> x.vote.timestamp <= r[k].vote.timestamp)
  {
    var joined := Join(t.votes, t.users, level);
    var r := SmallestBy(joined, NewerFirst, FEED_LIMIT);
    forall i, j | 0 <= i < j < |r| ensures r[i].vote.timestamp >= r[j].vote.timestamp {
      assert NewerFirst(r[i]) <= NewerFirst(r[j]);
    }
    forall x, k | x in multiset(joined) - multiset(r) && 0 <= k < |r|
      ensures x.vote.timestamp <= r[k].vote.timestamp
    {
      assert NewerFirst(r[k]) <= NewerFirst(x);
    }
    r
  }

  /** The columns the feed selects from a joined row. */
  function Entry(row: VoterRow): FeedEntry
  {
    FeedEntry(row.voter.name, row.vote.answer, row.vote.timestamp)
  }

  /** `load`: throws when there is no details row; otherwise reports the
      current level's tally, the active and eliminated counts (disjoint, so
      together at most the number of users), and a feed of at most ten
      current-level votes by existing users, newest first. */
  function Load(t: Tables): (r: Response<DisplayData>)
    ensures r.Unhandled? <==> t.details.None?
    ensures r.Unhandled? || r.Data?
    ensures r.Data? ==> Some(r.value.gameDetails) == t.details && Shows(r.value, t)
  {
    if t.details.None? then Unhandled(MissingDetails)
    else Data(Screen(t, t.details.value))
  }

  /** What the display shows, given its details row. */
  ghost predicate Shows(d: DisplayData, t: Tables)
  {
    && d.currentLevel == d.gameDetails.currentLevel
    && (d.levelData.Some? <==> d.currentLevel in t.levels)
    && (d.levelData.Some? ==> d.levelData.value == t.levels[d.currentLevel])
    && d.voteStats == Tally(t.votes, d.currentLevel)
    && d.activeUsersCount == |ActiveIds(t.users)|
    && d.eliminatedUsersCount == |EliminatedIds(t.users)|
    && d.activeUsersCount + d.eliminatedUsersCount <= |t.users|
    && IsFeed(d.recentVotes, t, d.currentLevel)
  }

  /** The recent-votes feed of `level`: ten entries, or every joined row when
      there are fewer; newest first; each entry describes a current-level vote
      by an existing user, and no joined row appears more often than it
      occurs; and every entry the joined rows give more often than the feed
      holds it is no newer than any entry in the feed. */
  ghost predicate IsFeed(feed: seq<FeedEntry>, t: Tables, level: int)
  {
    var joined := Join(t.votes, t.users, level);
    && |feed| == (if |joined| < FEED_LIMIT then |joined| else FEED_LIMIT)
    && (forall i, j :: 0 <= i < j < |feed| ==> feed[i].timestamp >= feed[j].timestamp)
    && (forall k :: 0 <= k < |feed| ==> FromCurrentVote(feed[k], t, level))
    && multiset(feed) <= multiset(Project(joined, Entry))
    && (forall y :: y in multiset(Project(joined, Entry)) - multiset(feed) ==>
          forall k :: 0 <= k < |feed| ==> y.timestamp <= feed[k].timestamp)
  }

  /** A feed entry describes a vote at `level` by an existing user. */
  ghost predicate FromCurrentVote(e: FeedEntry, t: Tables, level: int)
  {
    exists v :: v in t.votes && AtLevel(v, level) && v.userId in t.users
      && e == FeedEntry(t.users[v.userId].name, v.answer, v.timestamp)
  }

  function Screen(t: Tables, gameDetails: Details): (d: DisplayData)
    ensures d.gameDetails == gameDetails && Shows(d, t)
  {
    var cur := gameDetails.currentLevel;
    var feed := Project(RecentRows(t, cur), Entry);
    RecentFeed(t, cur);
    ActiveEliminatedDisjoint(t.users);
    DisplayData(
      gameDetails,
      if cur in t.levels then Some(t.levels[cur]) else None,
      Tally(t.votes, cur),
      |ActiveIds(t.users)|,
      |EliminatedIds(t.users)|,
      cur,
      feed)
  }

  /** The ten newest joined rows, projected to feed entries, are the feed. */
  lemma RecentFeed(t: Tables, level: int)
    ensures IsFeed(Project(RecentRows(t, level), Entry), t, level)
  {
    var rows := RecentRows(t, level);
    var feed := Project(rows, Entry);
    var joined := Join(t.votes, t.users, level);
    FeedFromCurrentVotes(t, level, rows, feed);
    ProjectSubMultiset(rows, joined, Entry);
    FeedNewestFirst(rows, feed);
    FeedKeepsNewest(t, level, rows, feed);
  }

  /** Projecting rows that are newest first gives entries that are newest first. */
  lemma FeedNewestFirst(rows: seq<VoterRow>, feed: seq<FeedEntry>)
    requires forall i, j :: 0 <= i < j < |rows| ==> rows[i].vote.timestamp >= rows[j].vote.timestamp
    requires feed == Project(rows, Entry)
    ensures forall i, j :: 0 <= i < j < |feed| ==> feed[i].timestamp >= feed[j].timestamp
  {
  }

  lemma FeedKeepsNewest(t: Tables, level: int, rows: seq<VoterRow>, feed: seq<FeedEntry>)
    requires rows == RecentRows(t, level) && feed == Project(rows, Entry)
    ensures forall y :: y in multiset(Project(Join(t.votes, t.users, level), Entry)) - multiset(feed) ==>
      forall k :: 0 <= k < |feed| ==> y.timestamp <= feed[k].timestamp
  {
    var joined := Join(t.votes, t.users, level);
    forall y | y in multiset(Project(joined, Entry)) - multiset(feed)
      ensures forall k :: 0 <= k < |feed| ==> y.timestamp <= feed[k].timestamp
    {
      ProjectDifference(rows, joined, Entry, y);
      var row :| row in multiset(joined) - multiset(rows) && Entry(row) == y;
      forall k | 0 <= k < |feed| ensures y.timestamp <= feed[k].timestamp {
        assert feed[k] == Entry(rows[k]);
      }
    }
  }

  lemma FeedFromCurrentVotes(t: Tables, level: int, rows: seq<VoterRow>, feed: seq<FeedEntry>)
    requires multiset(rows) <= multiset(Join(t.votes, t.users, level))
    requires feed == Project(rows, Entry)
    ensures forall k :: 0 <= k < |feed| ==> FromCurrentVote(feed[k], t, level)
  {
    forall k | 0 <= k < |feed| ensures FromCurrentVote(feed[k], t, level) {
      assert rows[k] in multiset(rows);
      var row := rows[k];
      assert row in Join(t.votes, t.users, level);
      assert feed[k] == FeedEntry(t.users[row.vote.userId].name, row.vote.answer, row.vote.timestamp);
    }
  }
}
