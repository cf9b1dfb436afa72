/**
 The user search of the search page: the directory entries whose name or
 username contains the query, ignoring case, in directory order.
 */
module Search {
  import opened Text
  import opened Seqs
  import opened Feed

  /** What the search test means: the lowered query occurs in the lowered
      name or in the lowered username. */
  ghost predicate MatchesSpec(query: string, u: User)
  {
    ContainsSubstring(Lower(u.name), Lower(query)) || ContainsSubstring(Lower(u.username), Lower(query))
  }

  /** The search test as written, `u.name.toLowerCase().includes(q.toLowerCase())`
      or the same on `u.username`; it holds exactly when `MatchesSpec` does. */
  predicate Matches(query: string, u: User): (b: bool)
    ensures b <==> MatchesSpec(query, u)
  {
    Includes(Lower(u.name), Lower(query)) || Includes(Lower(u.username), Lower(query))
  }

  /** `filteredUsers`: an order-preserving subsequence of the directory that
      holds a user exactly when the query occurs, ignoring case, in the
      user's name or username. */
  function FilteredUsers(users: seq<User>, query: string): (r: seq<User>)
    ensures IsSubsequence(r, users)
    ensures forall u :: u in r <==> u in users && MatchesSpec(query, u)
    ensures forall u :: multiset(r)[u] == if MatchesSpec(query, u) then multiset(users)[u] else 0
  {
    var keep := u => Matches(query, u);
    FilterIsSubsequence(keep, users);
    Filter(keep, users)
  }

  /** An empty query lists the whole directory, in order. */
  lemma EmptyQueryListsEveryone(users: seq<User>)
    ensures FilteredUsers(users, "") == users
  {
    forall u | u in users ensures Matches("", u) {
      assert Lower("") == "";
      IncludesEmpty(Lower(u.name));
    }
    FilterAll(u => Matches("", u), users);
  }

  /** The search ignores case: queries that lower to the same string give the
      same result. */
  lemma SearchIgnoresQueryCase(users: seq<User>, q1: string, q2: string)
    requires Lower(q1) == Lower(q2)
    ensures FilteredUsers(users, q1) == FilteredUsers(users, q2)
  {
    assert forall u :: Matches(q1, u) == Matches(q2, u);
    FilterSameKeep(users, q1, q2);
  }

  lemma {:induction false} FilterSameKeep(users: seq<User>, q1: string, q2: string)
    requires forall u :: Matches(q1, u) == Matches(q2, u)
    ensures Filter(u => Matches(q1, u), users) == Filter(u => Matches(q2, u), users)
    decreases |users|
  {
    if users != [] {
      FilterSameKeep(users[1..], q1, q2);
    }
  }
}
