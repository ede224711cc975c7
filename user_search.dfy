/** The user search: usernames containing the query, case-insensitively, other than
    the requesting user, at most ten, each with its relationship status. */
module UserSearch {
  import opened Seqs
  import opened Text
  import opened Models
  import opened Serializers

  const ResultLimit: nat := 10

  /** One entry of `SearchResultUserSerializer`: `{id, username, status}`. */
  datatype SearchResult = SearchResult(id: UserId, username: string, status: Status)

  /** `Q(username__icontains=query)` followed by `.exclude(id=request.user.id)`. */
  function Matches(users: seq<User>, query: string, caller: UserId): seq<User> {
    Filter(users, (u: User) => ContainsIgnoreCase(u.username, query) && u.id != caller)
  }

  /** `UserSearchView.get`; `q` is the query parameter, absent when not sent. The
      view is only reachable signed in, so the status has a signed-in viewer. */
  function Search(s: State, caller: User, q: Option<string>): seq<SearchResult> {
    var query := if q.Some? then q.value else "";
    if query == "" then []
    else
      var found := Take(Matches(s.users, query, caller.id), ResultLimit);
      seq(|found|, i requires 0 <= i < |found| =>
        SearchResult(found[i].id, found[i].username, SearchStatus(Some(SignedIn(caller.id)), found[i].id, s)))
  }

  /** An empty or absent query gives no results. */
  lemma EmptyQuery(s: State, caller: User, q: Option<string>)
    requires q.None? || q == Some("")
    ensures Search(s, caller, q) == []
  {
  }

  /** Every result is a user other than the caller whose username contains the
      query ignoring case, shown with the status the search serializer computes;
      there are at most ten; and no result is marked "self". */
  lemma {:induction false} ResultsSound(s: State, caller: User, q: string)
    ensures |Search(s, caller, Some(q))| <= ResultLimit
    ensures forall x :: x in Search(s, caller, Some(q)) ==>
      exists u :: u in s.users && u.id == x.id && u.username == x.username
        && ContainsIgnoreCase(u.username, q) && u.id != caller.id
    ensures forall x :: x in Search(s, caller, Some(q)) ==>
      x.status == SearchStatus(Some(SignedIn(caller.id)), x.id, s) && x.status != SelfStatus
  {
    var r := Search(s, caller, Some(q));
    if q != "" {
      var found := Take(Matches(s.users, q, caller.id), ResultLimit);
      forall x | x in r
        ensures exists u :: (u in s.users && u.id == x.id && u.username == x.username
                             && ContainsIgnoreCase(u.username, q) && u.id != caller.id)
        ensures x.status == SearchStatus(Some(SignedIn(caller.id)), x.id, s) && x.status != SelfStatus
      {
        var i :| 0 <= i < |r| && r[i] == x;
        assert found[i] in Matches(s.users, q, caller.id);
      }
    }
  }

  /** The caller never appears among the results. */
  lemma CallerExcluded(s: State, caller: User, q: Option<string>)
    ensures forall x :: x in Search(s, caller, q) ==> x.id != caller.id
  {
    if q.Some? {
      ResultsSound(s, caller, q.value);
    }
  }

  /** A matching user is left out only when the ten places are already taken. */
  lemma {:induction false} ResultsComplete(s: State, caller: User, q: string, u: User)
    requires q != "" && u in s.users && u.id != caller.id && ContainsIgnoreCase(u.username, q)
    ensures (forall x :: x in Search(s, caller, Some(q)) ==> x.id != u.id) ==> |Search(s, caller, Some(q))| == ResultLimit
  {
    var m := Matches(s.users, q, caller.id);
    var found := Take(m, ResultLimit);
    var r := Search(s, caller, Some(q));
    assert u in m;
    if |m| <= ResultLimit {
      var i :| 0 <= i < |m| && m[i] == u;
      assert r[i].id == u.id;
    }
  }
}
