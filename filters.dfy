/** The dashboard's list filter (src/hooks/useFilters.ts): the users the client
    received, kept in order when they match a case-insensitive search on name or
    email and the optional service and status selections.  The React state and
    memoisation around it are left out; the three criteria are parameters. */
module Filters {
  import opened Common
  import opened Text
  import opened UserModel

  /** The three inputs of the filter; "" stands for "no selection". */
  datatype Criteria = Criteria(searchTerm: string, serviceFilter: string, statusFilter: string)

  const NoCriteria: Criteria := Criteria("", "", "")

  /** The search matches when the lowercased term occurs in the lowercased name
      or in the lowercased email. */
  predicate MatchesSearch(u: UserJson, term: string) {
    Includes(Lower(u.name), Lower(term)) || Includes(Lower(u.email), Lower(term))
  }

  /** An empty selection matches every service; otherwise the names must agree. */
  predicate MatchesService(u: UserJson, serviceFilter: string) {
    serviceFilter == "" || ServiceName(u.service) == serviceFilter
  }

  predicate MatchesStatus(u: UserJson, statusFilter: string) {
    statusFilter == "" || StatusName(u.status) == statusFilter
  }

  /** The callback given to `users.filter`. */
  predicate Keep(u: UserJson, c: Criteria) {
    MatchesSearch(u, c.searchTerm) && MatchesService(u, c.serviceFilter)
    && MatchesStatus(u, c.statusFilter)
  }

  /** `users.filter(Keep)`: never longer than its input. */
  function FilterUsers(users: seq<UserJson>, c: Criteria): (r: seq<UserJson>)
    ensures |r| <= |users|
  {
    if users == [] then []
    else (if Keep(users[0], c) then [users[0]] else []) + FilterUsers(users[1..], c)
  }

  /** r can be obtained from s by deleting elements, without reordering. */
  predicate Subsequence(r: seq<UserJson>, s: seq<UserJson>)
    decreases |s|
  {
    if r == [] then true
    else if s == [] then false
    else (r[0] == s[0] && Subsequence(r[1..], s[1..])) || Subsequence(r, s[1..])
  }

  /** A user is in the result exactly when it is in the input and the filter
      keeps it. */
  lemma {:induction false} FilterMembers(users: seq<UserJson>, c: Criteria, u: UserJson)
    ensures u in FilterUsers(users, c) <==> u in users && Keep(u, c)
  {
    if users != [] {
      FilterMembers(users[1..], c, u);
      assert users == [users[0]] + users[1..];
    }
  }

  /** The filter keeps every copy of a kept user and no copy of any other. */
  lemma {:induction false} FilterMultiplicity(users: seq<UserJson>, c: Criteria, u: UserJson)
    ensures multiset(FilterUsers(users, c))[u] == if Keep(u, c) then multiset(users)[u] else 0
  {
    if users != [] {
      FilterMultiplicity(users[1..], c, u);
      assert users == [users[0]] + users[1..];
    }
  }

  /** The result keeps the input's order: it is a subsequence of it. */
  lemma {:induction false} FilterSubsequence(users: seq<UserJson>, c: Criteria)
    ensures Subsequence(FilterUsers(users, c), users)
  {
    if users != [] {
      var rest := FilterUsers(users[1..], c);
      FilterSubsequence(users[1..], c);
      if Keep(users[0], c) {
        var r := [users[0]] + rest;
        assert r[0] == users[0] && r[1..] == rest;
      } else {
        assert FilterUsers(users, c) == rest;
      }
    }
  }

  /** Every user of s passes the filter. */
  predicate AllKept(s: seq<UserJson>, c: Criteria) {
    forall i :: 0 <= i < |s| ==> Keep(s[i], c)
  }

  lemma AllKeptCons(s: seq<UserJson>, c: Criteria)
    requires s != []
    ensures AllKept(s, c) <==> Keep(s[0], c) && AllKept(s[1..], c)
  {
    if Keep(s[0], c) && AllKept(s[1..], c) {
      forall i | 0 <= i < |s| ensures Keep(s[i], c) {
        if i > 0 { assert s[i] == s[1..][i - 1]; }
      }
    }
  }

  /** The filter returns the whole list if and only if it keeps every user. */
  lemma {:induction false} FilterKeepsAllIff(users: seq<UserJson>, c: Criteria)
    ensures FilterUsers(users, c) == users <==> AllKept(users, c)
  {
    if users != [] {
      var rest := FilterUsers(users[1..], c);
      FilterKeepsAllIff(users[1..], c);
      AllKeptCons(users, c);
      if Keep(users[0], c) {
        var r := FilterUsers(users, c);
        assert r == [users[0]] + rest;
        assert r[1..] == rest;
        assert users == [users[0]] + users[1..];
      } else {
        assert |FilterUsers(users, c)| < |users|;
      }
    }
  }

  /** Filtering a filtered list with the same criteria changes nothing. */
  lemma FilterIdempotent(users: seq<UserJson>, c: Criteria)
    ensures FilterUsers(FilterUsers(users, c), c) == FilterUsers(users, c)
  {
    var r := FilterUsers(users, c);
    forall i | 0 <= i < |r| ensures Keep(r[i], c) {
      FilterMembers(users, c, r[i]);
    }
    FilterKeepsAllIff(r, c);
  }

  /** With the search box empty and nothing selected, every user is shown. */
  lemma NoCriteriaKeepsAll(users: seq<UserJson>)
    ensures FilterUsers(users, NoCriteria) == users
  {
    assert Lower("") == "";
    forall i | 0 <= i < |users| ensures Keep(users[i], NoCriteria) {
      IncludesIff(Lower(users[i].name), "");
    }
    FilterKeepsAllIff(users, NoCriteria);
  }

  /** With a service selected, every user shown has exactly that service, and the
      selection is the name of a service; likewise for the status. */
  lemma SelectionsAreExact(users: seq<UserJson>, c: Criteria, u: UserJson)
    requires u in FilterUsers(users, c)
    ensures c.serviceFilter != "" ==> ServiceName(u.service) == c.serviceFilter
                                       && ParseService(c.serviceFilter) == Some(u.service)
    ensures c.statusFilter != "" ==> StatusName(u.status) == c.statusFilter
  {
    FilterMembers(users, c, u);
    ParseServiceName(u.service);
  }

  /** Lowercasing commutes with taking a slice. */
  lemma LowerSlice(s: string, i: int, j: int)
    requires 0 <= i <= j <= |s|
    ensures Lower(s)[i..j] == Lower(s[i..j])
  {
  }

  /** The search ignores case in the term: two terms equal up to case select the
      same users, and a name or email that contains the term verbatim matches. */
  lemma SearchIgnoresCase(u: UserJson, term: string, other: string)
    ensures Lower(term) == Lower(other) ==> (MatchesSearch(u, term) <==> MatchesSearch(u, other))
    ensures Includes(u.name, term) || Includes(u.email, term) ==> MatchesSearch(u, term)
  {
    if Includes(u.name, term) {
      IncludesIff(u.name, term);
      var i :| OccursAt(u.name, term, i);
      LowerSlice(u.name, i, i + |term|);
      assert OccursAt(Lower(u.name), Lower(term), i);
      IncludesIff(Lower(u.name), Lower(term));
    } else if Includes(u.email, term) {
      IncludesIff(u.email, term);
      var i :| OccursAt(u.email, term, i);
      LowerSlice(u.email, i, i + |term|);
      assert OccursAt(Lower(u.email), Lower(term), i);
      IncludesIff(Lower(u.email), Lower(term));
    }
  }
}
