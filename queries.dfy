/** The selects, counts, joins and orderings that the page loaders and the
    admin actions run against the tables. Each query is a function of the
    rows it reads, so running it changes nothing. */
module Queries {
  import opened Schema

  /** `where p(row)` over a table, keeping table order. Every row that
      satisfies `p` is kept exactly as many times as it occurs. */
  function Filter<T(!new)>(s: seq<T>, p: T -> bool): (r: seq<T>)
    ensures |r| <= |s|
    ensures forall x :: multiset(r)[x] == if p(x) then multiset(s)[x] else 0
    ensures forall x :: x in r <==> x in s && p(x)
  {
    if s == [] then []
    else
      var rest := Filter(s[1..], p);
      assert s == [s[0]] + s[1..];
      if p(s[0]) then [s[0]] + rest else rest
  }

  predicate AtLevel(v: Vote, level: int)
  {
    v.level == level
  }

  /** The vote rows at a level. */
  function VotesAt(votes: seq<Vote>, level: int): seq<Vote>
  {
    Filter(votes, (v: Vote) => AtLevel(v, level))
  }

  /** The vote rows at a level with a given answer:
      `select ... from votes where level = n and answer = a`. */
  function VotesWith(votes: seq<Vote>, level: int, answer: string): seq<Vote>
  {
    Filter(votes, (v: Vote) => AtLevel(v, level) && v.answer == answer)
  }

  /** The `count` of one answer's group in
      `select answer, count(*) from votes where level = n group by answer`,
      or 0 when that group is absent (`find(...)?.count || 0`). */
  function AnswerCount(votes: seq<Vote>, level: int, answer: string): nat
  {
    |VotesWith(votes, level, answer)|
  }

  /** The ids of the users who still play: `where isActive and not disabled`. */
  function ActiveIds(users: map<string, User>): set<string>
  {
    set id | id in users && Playing(users[id])
  }

  /** The ids of the eliminated users: `where not isActive`. */
  function EliminatedIds(users: map<string, User>): set<string>
  {
    set id | id in users && !users[id].isActive
  }

  /** The ids named by a list of vote rows. */
  function VoterIds(votes: seq<Vote>): set<string>
  {
    set i | 0 <= i < |votes| :: votes[i].userId
  }

  /** A vote row joined with the user row it refers to. */
  datatype VoterRow = VoterRow(vote: Vote, voter: User)

  /** `from votes inner join user on votes.userId = user.id where votes.level = n`,
      in vote table order: a vote whose user row is missing is dropped. */
  function Join(votes: seq<Vote>, users: map<string, User>, level: int): (r: seq<VoterRow>)
    ensures |r| <= |votes|
    ensures forall row :: row in r ==>
      row.vote in votes && AtLevel(row.vote, level) && row.vote.userId in users && row.voter == users[row.vote.userId]
    ensures forall v :: v in votes && AtLevel(v, level) && v.userId in users ==> VoterRow(v, users[v.userId]) in r
    ensures Project(r, (row: VoterRow) => row.vote) == Filter(votes, (v: Vote) => AtLevel(v, level) && v.userId in users)
  {
    if votes == [] then []
    else
      var rest := Join(votes[1..], users, level);
      assert votes == [votes[0]] + votes[1..];
      var v := votes[0];
      if AtLevel(v, level) && v.userId in users then
        var r := [VoterRow(v, users[v.userId])] + rest;
        assert r[1..] == rest;
        r
      else rest
  }

  /** The column list of a `select`: each row turned into the record the
      query returns, in row order. */
  function Project<A, B>(s: seq<A>, f: A -> B): (r: seq<B>)
    ensures |r| == |s|
    ensures forall k :: 0 <= k < |s| ==> r[k] == f(s[k])
  {
    if s == [] then [] else [f(s[0])] + Project(s[1..], f)
  }

  /** Projecting some of the rows of `big` gives some of the records of
      projecting `big`, each at most as often. */
  lemma {:induction false} ProjectSubMultiset<A, B>(small: seq<A>, big: seq<A>, f: A -> B)
    requires multiset(small) <= multiset(big)
    ensures multiset(Project(small, f)) <= multiset(Project(big, f))
    decreases |small|
  {
    if small != [] {
      var front, back := SplitAtFirst(small, big);
      ProjectRemove(front, small[0], back, f);
      ProjectSubMultiset(small[1..], front + back, f);
      assert small == [small[0]] + small[1..];
      ProjectConcat([small[0]], small[1..], f);
    }
  }

  /** A record that projecting `big` yields more often than projecting
      `small` comes from a row that `big` holds more often than `small`. */
  lemma {:induction false} ProjectDifference<A, B>(small: seq<A>, big: seq<A>, f: A -> B, y: B)
    requires multiset(small) <= multiset(big)
    requires y in multiset(Project(big, f)) - multiset(Project(small, f))
    ensures exists x :: x in multiset(big) - multiset(small) && f(x) == y
    decreases |small|
  {
    if small == [] {
      var k :| 0 <= k < |big| && Project(big, f)[k] == y;
      assert big[k] in multiset(big);
    } else {
      var front, back := SplitAtFirst(small, big);
      var x0, rest := small[0], front + back;
      ProjectRemove(front, x0, back, f);
      ProjectFirst(small, f);
      MinusCommon(multiset(Project(rest, f)), multiset(Project(small[1..], f)), f(x0));
      ProjectDifference(small[1..], rest, f, y);
      var x :| x in multiset(rest) - multiset(small[1..]) && f(x) == y;
      SplitMultiset(front, x0, back);
      FirstMultiset(small);
      MinusCommon(multiset(rest), multiset(small[1..]), x0);
    }
  }

  lemma ProjectFirst<A, B>(s: seq<A>, f: A -> B)
    requires s != []
    ensures multiset(Project(s, f)) == multiset(Project(s[1..], f)) + multiset{f(s[0])}
  {
  }

  lemma FirstMultiset<A>(s: seq<A>)
    requires s != []
    ensures multiset(s) == multiset(s[1..]) + multiset{s[0]}
  {
    assert s == [s[0]] + s[1..];
  }

  lemma SplitMultiset<A>(front: seq<A>, x: A, back: seq<A>)
    ensures multiset(front + [x] + back) == multiset(front + back) + multiset{x}
  {
  }

  /** Taking the same element away from both sides leaves their difference. */
  lemma MinusCommon<T>(m: multiset<T>, n: multiset<T>, x: T)
    ensures (m + multiset{x}) - (n + multiset{x}) == m - n
  {
  }

  /** `big` holds the first row of `small` somewhere, and the rest of `small`
      within the rows around it. */
  lemma SplitAtFirst<A>(small: seq<A>, big: seq<A>) returns (front: seq<A>, back: seq<A>)
    requires small != [] && multiset(small) <= multiset(big)
    ensures big == front + [small[0]] + back
    ensures multiset(small[1..]) <= multiset(front + back)
  {
    assert small[0] in multiset(big);
    var i :| 0 <= i < |big| && big[i] == small[0];
    front, back := big[..i], big[i + 1..];
    RestIsSubMultiset(small, big, i);
    assert big == front + [small[0]] + back;
  }

  /** Taking the first row of `small` out of `big` keeps the rest of `small`
      within what remains. */
  lemma RestIsSubMultiset<A>(small: seq<A>, big: seq<A>, i: nat)
    requires multiset(small) <= multiset(big)
    requires small != [] && i < |big| && big[i] == small[0]
    ensures multiset(small[1..]) <= multiset(big[..i] + big[i + 1..])
  {
    RemoveOne(big, i);
    RemoveOne(small, 0);
    forall y ensures multiset(small[1..])[y] <= multiset(big[..i] + big[i + 1..])[y] {
      assert multiset(small)[y] <= multiset(big)[y];
    }
  }

  /** Taking a row out of the middle takes its record out of the projection. */
  lemma ProjectRemove<A, B>(front: seq<A>, x: A, back: seq<A>, f: A -> B)
    ensures multiset(Project(front + [x] + back, f)) == multiset(Project(front + back, f)) + multiset{f(x)}
  {
    ProjectConcat(front + [x], back, f);
    ProjectConcat(front, [x], f);
    ProjectConcat(front, back, f);
  }

  lemma {:induction false} ProjectConcat<A, B>(a: seq<A>, b: seq<A>, f: A -> B)
    ensures Project(a + b, f) == Project(a, f) + Project(b, f)
  {
    if a == [] {
      assert a + b == b;
    } else {
      assert (a + b)[1..] == a[1..] + b;
      ProjectConcat(a[1..], b, f);
    }
  }

  lemma RemoveOne<T>(s: seq<T>, i: nat)
    requires i < |s|
    ensures multiset(s) == multiset(s[..i] + s[i + 1..]) + multiset{s[i]}
  {
    assert s == s[..i] + [s[i]] + s[i + 1..];
  }

  /** `s` is ordered by nondecreasing `key`. */
  predicate SortedBy<T>(s: seq<T>, key: T -> int)
  {
    forall i, j :: 0 <= i < j < |s| ==> key(s[i]) <= key(s[j])
  }

  function Insert<T>(x: T, s: seq<T>, key: T -> int): (r: seq<T>)
    requires SortedBy(s, key)
    ensures SortedBy(r, key)
    ensures multiset(r) == multiset(s) + multiset{x}
    ensures |r| == |s| + 1 && (r[0] == x || (s != [] && r[0] == s[0]))
  {
    if s == [] then [x]
    else if key(x) <= key(s[0]) then
      SortedCons(x, s, key);
      [x] + s
    else
      assert s == [s[0]] + s[1..];
      var rest := Insert(x, s[1..], key);
      assert key(s[0]) <= key(rest[0]);
      SortedCons(s[0], rest, key);
      [s[0]] + rest
  }

  /** A head no larger than the first element of a sorted list keeps it sorted. */
  lemma SortedCons<T>(h: T, t: seq<T>, key: T -> int)
    requires SortedBy(t, key) && (t != [] ==> key(h) <= key(t[0]))
    ensures SortedBy([h] + t, key)
  {
    var r := [h] + t;
    forall i, j | 0 <= i < j < |r| ensures key(r[i]) <= key(r[j]) {
      if i == 0 && j > 1 { assert key(t[0]) <= key(t[j - 1]); }
    }
  }

  /** `orderBy(key)`: the same rows, ordered by nondecreasing `key`. SQL leaves
      the order of rows with equal keys open; this sort keeps a fixed one. */
  function SortBy<T>(s: seq<T>, key: T -> int): (r: seq<T>)
    ensures SortedBy(r, key)
    ensures multiset(r) == multiset(s)
  {
    if s == [] then []
    else
      assert s == [s[0]] + s[1..];
      Insert(s[0], SortBy(s[1..], key), key)
  }

  /** `limit(n)`. */
  function Take<T>(s: seq<T>, n: nat): (r: seq<T>)
    ensures |r| == if |s| < n then |s| else n
    ensures r == s[..|r|]
  {
    if |s| <= n then s else s[..n]
  }

  /** The vote tally of a level as the pages show it. */
  datatype VoteStats = VoteStats(alive: nat, dead: nat, total: nat)

  /** `{ alive, dead, total: alive + dead }` from the grouped count at a level.
      The total counts only the two answers and never exceeds the votes cast
      at that level. */
  function Tally(votes: seq<Vote>, level: int): (r: VoteStats)
    ensures r.alive == AnswerCount(votes, level, ALIVE) && r.dead == AnswerCount(votes, level, DEAD)
    ensures r.total == r.alive + r.dead
    ensures r.total <= |VotesAt(votes, level)|
  {
    TallyBound(votes, level);
    var alive := AnswerCount(votes, level, ALIVE);
    var dead := AnswerCount(votes, level, DEAD);
    VoteStats(alive, dead, alive + dead)
  }

  /** `orderBy(key).limit(n)`: the at most `n` rows with the smallest keys,
      in order. Every row left out has a key at least as large as every row
      kept. */
  function SmallestBy<T>(s: seq<T>, key: T -> int, n: nat): (r: seq<T>)
    ensures |r| == if |s| < n then |s| else n
    ensures multiset(r) <= multiset(s)
    ensures SortedBy(r, key)
    ensures forall x :: x in multiset(s) - multiset(r) ==> forall k :: 0 <= k < |r| ==> key(r[k]) <= key(x)
  {
    var sorted := SortBy(s, key);
    SortedPrefix(sorted, key, n);
    Take(sorted, n)
  }

  lemma SortedPrefix<T>(s: seq<T>, key: T -> int, n: nat)
    requires SortedBy(s, key)
    ensures var r := Take(s, n);
      && multiset(r) <= multiset(s)
      && SortedBy(r, key)
      && forall x :: x in multiset(s) - multiset(r) ==> forall k :: 0 <= k < |r| ==> key(r[k]) <= key(x)
  {
    var r := Take(s, n);
    assert s == r + s[|r|..];
    assert multiset(s) == multiset(r) + multiset(s[|r|..]);
    PrefixHoldsSmallest(s, key, |r|);
  }

  /** Talking only about "alive" and "dead" answers, the two tallies at a
      level never exceed the votes cast at that level. */
  lemma TallyBound(votes: seq<Vote>, level: int)
    ensures AnswerCount(votes, level, ALIVE) + AnswerCount(votes, level, DEAD) <= |VotesAt(votes, level)|
  {
    var a := VotesWith(votes, level, ALIVE);
    var d := VotesWith(votes, level, DEAD);
    var all := VotesAt(votes, level);
    forall x ensures (multiset(a) + multiset(d))[x] <= multiset(all)[x] {
    }
    MultisetSubsetSize(multiset(a) + multiset(d), multiset(all));
  }

  lemma MultisetSubsetSize<T>(a: multiset<T>, b: multiset<T>)
    requires forall x :: a[x] <= b[x]
    ensures |a| <= |b|
  {
    assert a <= b;
    var rest := b - a;
    assert b == a + rest;
  }

  /** Nobody is both still playing and eliminated, so the two counts together
      never exceed the number of users. */
  lemma ActiveEliminatedDisjoint(users: map<string, User>)
    ensures ActiveIds(users) !! EliminatedIds(users)
    ensures |ActiveIds(users)| + |EliminatedIds(users)| <= |users|
  {
    var a, e := ActiveIds(users), EliminatedIds(users);
    assert a + e <= users.Keys;
    SubsetSize(a + e, users.Keys);
  }

  lemma SubsetSize<T>(a: set<T>, b: set<T>)
    requires a <= b
    ensures |a| <= |b|
  {
    assert b == a + (b - a);
  }

  /** A list of vote rows names at most as many users as it has rows: users
      who voted twice are named once. */
  lemma {:induction false} VoterIdsSize(votes: seq<Vote>)
    ensures |VoterIds(votes)| <= |votes|
  {
    if votes != [] {
      var rest := votes[1..];
      VoterIdsSize(rest);
      assert VoterIds(votes) <= VoterIds(rest) + {votes[0].userId} by {
        forall id | id in VoterIds(votes) ensures id in VoterIds(rest) + {votes[0].userId} {
          var i :| 0 <= i < |votes| && votes[i].userId == id;
          if i > 0 { assert rest[i - 1].userId == id; }
        }
      }
      SubsetSize(VoterIds(votes), VoterIds(rest) + {votes[0].userId});
    }
  }

  /** In a sorted list, every element past the first `m` has a key at least as
      large as each of the first `m`: a sorted prefix holds the smallest keys. */
  lemma PrefixHoldsSmallest<T>(s: seq<T>, key: T -> int, m: nat)
    requires SortedBy(s, key) && m <= |s|
    ensures forall x :: x in multiset(s) - multiset(s[..m]) ==>
      forall k :: 0 <= k < m ==> key(s[k]) <= key(x)
  {
    assert s == s[..m] + s[m..];
    assert multiset(s) - multiset(s[..m]) == multiset(s[m..]);
    forall x | x in multiset(s) - multiset(s[..m]) ensures forall k :: 0 <= k < m ==> key(s[k]) <= key(x) {
      assert x in s[m..];
      var j :| 0 <= j < |s[m..]| && s[m..][j] == x;
      assert s[m + j] == x;
    }
  }
}
