/** The friendship workflow: sending, accepting, declining and cancelling friend
    requests, unfriending, the caller's friend list and the relationship status
    shown on a profile. Each view that writes (send, accept, decline, cancel and
    unfriend) is a step function on `State` (what it does) and a method on `Db`
    that performs the same ORM calls in the same order; the two that only read
    (`my_friends` and the profile status) are functions of `State`. */
module FriendViews {
  import opened Seqs
  import opened Models
  import opened Serializers

  /** What a view answers. */
  datatype Reply =
    | Done(status: string)            // 200 with {"status": ...}
    | Created(request: FriendRequest) // 201 with the new request
    | BadRequest(detail: string)      // 400
    | Forbidden                       // 403
    | NotFound(detail: string)        // 404
    | ServerError                     // 500: the database refused the row

  function HttpStatus(r: Reply): nat {
    match r
    case Done(_) => 200
    case Created(_) => 201
    case BadRequest(_) => 400
    case Forbidden => 403
    case NotFound(_) => 404
    case ServerError => 500
  }

  datatype Step = Step(state: State, reply: Reply)

  const NotFoundDetail: string := "Not found."

  // --------------------------------------------------------- the viewset

  /** `FriendRequestViewSet.get_queryset`: the requests addressed to the caller. */
  function Incoming(requests: seq<FriendRequest>, caller: UserId): (r: seq<FriendRequest>)
    ensures forall x :: x in r <==> x in requests && x.toUser == caller
  {
    Filter(requests, (x: FriendRequest) => x.toUser == caller)
  }

  /** `self.get_object()`: the request with primary key `pk` within `get_queryset()`. */
  function GetObject(requests: seq<FriendRequest>, caller: UserId, pk: RequestId): Option<FriendRequest> {
    FindRequest(Incoming(requests, caller), pk)
  }

  /** `create` with `perform_create`: `to_user` must name an existing user, and
      `from_user` is the caller; nothing else is checked. */
  function SendStep(s: State, caller: User, toUser: Option<UserId>): Step {
    if toUser.None? || !HasUser(s.users, toUser.value) then Step(s, BadRequest("to_user"))
    else if PairExists(s.requests, caller.id, toUser.value) then Step(s, ServerError)
    else
      var r := FriendRequest(s.nextRequestId, caller.id, toUser.value);
      Step(s.(requests := s.requests + [r], nextRequestId := s.nextRequestId + 1), Created(r))
  }

  /** `accept`. */
  function AcceptStep(s: State, caller: User, pk: RequestId): Step {
    match GetObject(s.requests, caller.id, pk)
    case None => Step(s, NotFound(NotFoundDetail))
    case Some(r) =>
      if r.toUser != caller.id then Step(s, Forbidden)
      else Step(s.(friendships := Befriend(s.friendships, r.fromUser, r.toUser),
                   requests := WithoutRequest(s.requests, pk)),
                Done("accepted"))
  }

  /** `decline`: only the lookup through `get_queryset` guards it. */
  function DeclineStep(s: State, caller: User, pk: RequestId): Step {
    match GetObject(s.requests, caller.id, pk)
    case None => Step(s, NotFound(NotFoundDetail))
    case Some(_) => Step(s.(requests := WithoutRequest(s.requests, pk)), Done("declined"))
  }

  /** `cancel`: looks the request up in the whole table, then checks the sender. */
  function CancelStep(s: State, caller: User, pk: RequestId): Step {
    match FindRequest(s.requests, pk)
    case None => Step(s, NotFound("Request not found"))
    case Some(r) =>
      if r.fromUser != caller.id then Step(s, Forbidden)
      else Step(s.(requests := WithoutRequest(s.requests, pk)), Done("canceled"))
  }

  /** `unfriend`. */
  function UnfriendStep(s: State, caller: User, target: UserId): Step {
    match FindUser(s.users, target)
    case None => Step(s, NotFound("User not found"))
    case Some(t) =>
      if (caller.id, t.id) in s.friendships then
        Step(s.(friendships := Unfriended(s.friendships, caller.id, t.id)), Done("unfriended"))
      else Step(s, BadRequest("Not friends"))
  }

  /** `my_friends`: the caller's friends as `{id, username}`, in table order. */
  function MyFriends(s: State, caller: User): seq<UserSummary> {
    var friends := Filter(s.users, (u: User) => (caller.id, u.id) in s.friendships);
    seq(|friends|, i requires 0 <= i < |friends| => Summary(friends[i]))
  }

  /** Status and request id of `FriendshipStatusView.get`. */
  datatype Profile = Profile(status: Status, requestId: Option<RequestId>)

  /** `FriendshipStatusView.get`; `None` is the 404 of `get_object_or_404`. */
  function ProfileStatus(s: State, caller: User, target: UserId): Option<Profile> {
    match FindUser(s.users, target)
    case None => None
    case Some(t) =>
      var sent := FirstRequest(s.requests, caller.id, t.id);
      var received := FirstRequest(s.requests, t.id, caller.id);
      if (caller.id, t.id) in s.friendships then Some(Profile(FriendsStatus, None))
      else if sent.Some? then Some(Profile(SentStatus, Some(sent.value.id)))
      else if received.Some? then Some(Profile(ReceivedStatus, Some(received.value.id)))
      else Some(Profile(NoStatus, None))
  }

  // ------------------------------------------------------------ lemmas

  /** Sending checks only that the target exists and that this ordered pair has no
      request yet; a request to oneself, one against an opposite request and one
      between friends all go through. */
  lemma SendOutcomes(s: State, caller: User, toUser: Option<UserId>)
    ensures toUser.None? || !HasUser(s.users, toUser.value) ==>
      SendStep(s, caller, toUser) == Step(s, BadRequest("to_user"))
    ensures toUser.Some? && HasUser(s.users, toUser.value) && PairExists(s.requests, caller.id, toUser.value) ==>
      SendStep(s, caller, toUser) == Step(s, ServerError)
    ensures toUser.Some? && HasUser(s.users, toUser.value) && !PairExists(s.requests, caller.id, toUser.value) ==>
      var t := SendStep(s, caller, toUser);
      && t.reply.Created?
      && t.reply.request.fromUser == caller.id
      && t.reply.request.toUser == toUser.value
      && t.reply.request.id == s.nextRequestId
      && t.state == s.(requests := s.requests + [t.reply.request], nextRequestId := s.nextRequestId + 1)
    ensures SendStep(s, caller, toUser).reply.Created? ==> SendStep(s, caller, toUser).reply.request.fromUser == caller.id
  {
  }

  lemma SendPreservesWellFormed(s: State, caller: User, toUser: Option<UserId>)
    requires WellFormed(s) && caller in s.users
    ensures WellFormed(SendStep(s, caller, toUser).state)
  {
    var t := SendStep(s, caller, toUser);
    if t.reply.Created? {
      var r := t.reply.request;
      assert r !in s.requests;
      AppendDistinct(s.requests, r);
      assert HasUser(s.users, caller.id);
    }
  }

  /** After the recipient accepts, each party is in the other's friends, the request
      is gone and nothing else changed. */
  lemma AcceptAddressed(s: State, caller: User, r: FriendRequest)
    requires WellFormed(s) && r in s.requests && r.toUser == caller.id
    ensures AcceptStep(s, caller, r.id).reply == Done("accepted")
    ensures var t := AcceptStep(s, caller, r.id).state;
      && t.friendships == Befriend(s.friendships, r.fromUser, caller.id)
      && r.fromUser in FriendIds(t.friendships, caller.id)
      && caller.id in FriendIds(t.friendships, r.fromUser)
      && (forall x :: x in t.requests <==> x in s.requests && x != r)
      && t == s.(friendships := t.friendships, requests := t.requests)
  {
    var found := GetObject(s.requests, caller.id, r.id);
    assert r in Incoming(s.requests, caller.id);
    assert found == Some(r);
    var t := AcceptStep(s, caller, r.id).state;
    assert (caller.id, r.fromUser) in t.friendships;
    assert (r.fromUser, caller.id) in t.friendships;
  }

  /** Accept reaches only requests addressed to the caller: any other id is not
      found and leaves the state as it was. */
  lemma AcceptNotAddressed(s: State, caller: User, pk: RequestId)
    requires forall x :: x in s.requests && x.id == pk ==> x.toUser != caller.id
    ensures AcceptStep(s, caller, pk) == Step(s, NotFound(NotFoundDetail))
  {
  }

  /** The 403 branch of accept cannot be taken, because the lookup already keeps
      only requests addressed to the caller. */
  lemma AcceptNeverForbidden(s: State, caller: User, pk: RequestId)
    ensures AcceptStep(s, caller, pk).reply != Forbidden
  {
    var found := GetObject(s.requests, caller.id, pk);
    if found.Some? {
      assert found.value in Incoming(s.requests, caller.id);
    }
  }

  lemma AcceptPreservesWellFormed(s: State, caller: User, pk: RequestId)
    requires WellFormed(s)
    ensures WellFormed(AcceptStep(s, caller, pk).state)
  {
    var found := GetObject(s.requests, caller.id, pk);
    if found.Some? && found.value.toUser == caller.id {
      var r := found.value;
      assert r in s.requests;
      assert HasUser(s.users, r.fromUser) && HasUser(s.users, r.toUser);
      var s1 := s.(requests := WithoutRequest(s.requests, pk));
      DeleteRequestPreservesValid(s, pk);
      BefriendPreservesValid(s1, r.fromUser, r.toUser);
      assert AcceptStep(s, caller, pk).state == s1.(friendships := Befriend(s1.friendships, r.fromUser, r.toUser));
    }
  }

  /** Decline deletes exactly the request addressed to the caller and leaves the
      friendships alone. */
  lemma DeclineAddressed(s: State, caller: User, r: FriendRequest)
    requires WellFormed(s) && r in s.requests && r.toUser == caller.id
    ensures DeclineStep(s, caller, r.id).reply == Done("declined")
    ensures var t := DeclineStep(s, caller, r.id).state;
      && (forall x :: x in t.requests <==> x in s.requests && x != r)
      && t == s.(requests := t.requests)
  {
    assert r in Incoming(s.requests, caller.id);
  }

  lemma DeclineNotAddressed(s: State, caller: User, pk: RequestId)
    requires forall x :: x in s.requests && x.id == pk ==> x.toUser != caller.id
    ensures DeclineStep(s, caller, pk) == Step(s, NotFound(NotFoundDetail))
  {
  }

  lemma DeclinePreservesWellFormed(s: State, caller: User, pk: RequestId)
    requires WellFormed(s)
    ensures WellFormed(DeclineStep(s, caller, pk).state)
  {
    DeleteRequestPreservesValid(s, pk);
  }

  /** Cancel: not found when no request has the id, forbidden when the caller did
      not send it, and otherwise exactly that request is deleted. */
  lemma CancelOutcomes(s: State, caller: User, pk: RequestId)
    requires WellFormed(s)
    ensures (forall x :: x in s.requests ==> x.id != pk) ==>
      CancelStep(s, caller, pk) == Step(s, NotFound("Request not found"))
    ensures forall r :: r in s.requests && r.id == pk && r.fromUser != caller.id ==>
      CancelStep(s, caller, pk) == Step(s, Forbidden)
    ensures forall r :: r in s.requests && r.id == pk && r.fromUser == caller.id ==>
      var t := CancelStep(s, caller, pk);
      && t.reply == Done("canceled")
      && (forall x :: x in t.state.requests <==> x in s.requests && x != r)
      && t.state == s.(requests := t.state.requests)
  {
    FilterDistinct(s.requests, (x: FriendRequest) => x.id != pk);
  }

  /** Unfriend: not found for an unknown user, 400 when the two are not friends, and
      otherwise both directions are removed. */
  lemma UnfriendOutcomes(s: State, caller: User, target: UserId)
    requires WellFormed(s)
    ensures !HasUser(s.users, target) ==> UnfriendStep(s, caller, target) == Step(s, NotFound("User not found"))
    ensures HasUser(s.users, target) && (caller.id, target) !in s.friendships ==>
      UnfriendStep(s, caller, target) == Step(s, BadRequest("Not friends"))
    ensures HasUser(s.users, target) && (caller.id, target) in s.friendships ==>
      var t := UnfriendStep(s, caller, target);
      && t.reply == Done("unfriended")
      && t.state == s.(friendships := Unfriended(s.friendships, caller.id, target))
      && target !in FriendIds(t.state.friendships, caller.id)
      && caller.id !in FriendIds(t.state.friendships, target)
  {
  }

  lemma UnfriendPreservesWellFormed(s: State, caller: User, target: UserId)
    requires WellFormed(s)
    ensures WellFormed(UnfriendStep(s, caller, target).state)
  {
    var found := FindUser(s.users, target);
    if found.Some? {
      UnfriendPreservesValid(s, caller.id, target);
    }
  }

  /** `my_friends` lists exactly the caller's friends. */
  lemma MyFriendsExactly(s: State, caller: User)
    requires WellFormed(s)
    ensures forall x :: x in MyFriends(s, caller) <==>
      exists u :: u in s.users && (caller.id, u.id) in s.friendships && x == Summary(u)
    ensures (set x | x in MyFriends(s, caller) :: x.id) == FriendIds(s.friendships, caller.id)
  {
    var friends := Filter(s.users, (u: User) => (caller.id, u.id) in s.friendships);
    var r := MyFriends(s, caller);
    forall x | x in r ensures exists u :: u in s.users && (caller.id, u.id) in s.friendships && x == Summary(u) {
      var i :| 0 <= i < |r| && r[i] == x;
      assert friends[i] in friends;
    }
    forall u | u in s.users && (caller.id, u.id) in s.friendships ensures Summary(u) in r {
      assert u in friends;
      var i :| 0 <= i < |friends| && friends[i] == u;
      assert r[i] == Summary(u);
    }
    forall id | id in FriendIds(s.friendships, caller.id) ensures id in (set x | x in r :: x.id) {
      assert (caller.id, id) in s.friendships;
      var u :| u in s.users && u.id == id;
      assert Summary(u) in r;
    }
  }

  /** The profile status, case by case in the order the view checks, with the id
      of the request that decided it. */
  lemma ProfileStatusCheckOrder(s: State, caller: User, target: UserId)
    ensures ProfileStatus(s, caller, target).None? <==> !HasUser(s.users, target)
    ensures HasUser(s.users, target) ==>
      var p := ProfileStatus(s, caller, target).value;
      && ((caller.id, target) in s.friendships ==> p == Profile(FriendsStatus, None))
      && ((caller.id, target) !in s.friendships && PairExists(s.requests, caller.id, target) ==>
            p == Profile(SentStatus, Some(FirstRequest(s.requests, caller.id, target).value.id)))
      && (((caller.id, target) !in s.friendships && !PairExists(s.requests, caller.id, target)
            && PairExists(s.requests, target, caller.id)) ==>
            p == Profile(ReceivedStatus, Some(FirstRequest(s.requests, target, caller.id).value.id)))
      && (((caller.id, target) !in s.friendships && !PairExists(s.requests, caller.id, target)
            && !PairExists(s.requests, target, caller.id)) ==> p == Profile(NoStatus, None))
  {
  }

  /** The profile status takes only the values of `FriendshipStatusSerializer`'s
      choices (never "self", even on one's own profile), and a request id is given
      exactly for "sent" and "received", naming a request between the two users
      in the direction the status says. */
  lemma ProfileRequestIdMatches(s: State, caller: User, target: UserId)
    requires WellFormed(s) && HasUser(s.users, target)
    ensures var p := ProfileStatus(s, caller, target).value;
      && StatusLabel(p.status) in ProfileStatusChoices
      && (p.requestId.Some? <==> p.status in {SentStatus, ReceivedStatus})
      && (p.status == SentStatus ==>
            var r := FindRequest(s.requests, p.requestId.value);
            r.Some? && r.value.fromUser == caller.id && r.value.toUser == target)
      && (p.status == ReceivedStatus ==>
            var r := FindRequest(s.requests, p.requestId.value);
            r.Some? && r.value.fromUser == target && r.value.toUser == caller.id)
  {
    var p := ProfileStatus(s, caller, target).value;
    if p.requestId.Some? {
      var r := FindRequest(s.requests, p.requestId.value);
      assert r.Some?;
    }
  }

  /** For another user the two variants agree: the profile status is the status the
      search shows for a signed-in viewer. */
  lemma SearchAgreesWithProfile(s: State, caller: User, target: UserId)
    requires HasUser(s.users, target) && target != caller.id
    ensures ProfileStatus(s, caller, target).value.status == SearchStatus(Some(SignedIn(caller.id)), target, s)
  {
  }

  /** After a sends b a request (a and b distinct, unrelated so far), a sees "sent"
      and b sees "received", both with the new request's id. */
  lemma SendThenStatus(s: State, a: User, b: User)
    requires WellFormed(s) && a in s.users && b in s.users && a.id != b.id
    requires (a.id, b.id) !in s.friendships
    requires !PairExists(s.requests, a.id, b.id) && !PairExists(s.requests, b.id, a.id)
    ensures var t := SendStep(s, a, Some(b.id));
      && t.reply.Created?
      && ProfileStatus(t.state, a, b.id) == Some(Profile(SentStatus, Some(t.reply.request.id)))
      && ProfileStatus(t.state, b, a.id) == Some(Profile(ReceivedStatus, Some(t.reply.request.id)))
  {
    var t := SendStep(s, a, Some(b.id));
    assert HasUser(s.users, b.id) && HasUser(s.users, a.id);
    var r := t.reply.request;
    FirstRequestAppend(s.requests, r, a.id, b.id);
    FirstRequestAppend(s.requests, r, b.id, a.id);
    FriendIdsSymmetric(s.friendships, a.id, b.id);
  }

  // ------------------------------------------- every sequence of calls

  datatype Action =
    | Sending(toUser: Option<UserId>)
    | Accepting(pk: RequestId)
    | Declining(pk: RequestId)
    | Cancelling(pk: RequestId)
    | Unfriending(target: UserId)

  function Apply(s: State, caller: User, a: Action): Step {
    match a
    case Sending(u) => SendStep(s, caller, u)
    case Accepting(pk) => AcceptStep(s, caller, pk)
    case Declining(pk) => DeclineStep(s, caller, pk)
    case Cancelling(pk) => CancelStep(s, caller, pk)
    case Unfriending(u) => UnfriendStep(s, caller, u)
  }

  /** The state after a sequence of calls, each by an authenticated user. */
  function Run(s: State, calls: seq<(User, Action)>): State
    decreases |calls|
  {
    if calls == [] then s else Run(Apply(s, calls[0].0, calls[0].1).state, calls[1..])
  }

  /** No friendship call adds or removes users. */
  lemma ApplyKeepsUsers(s: State, caller: User, a: Action)
    ensures Apply(s, caller, a).state.users == s.users
  {
  }

  lemma ApplyPreservesWellFormed(s: State, caller: User, a: Action)
    requires WellFormed(s) && caller in s.users
    ensures WellFormed(Apply(s, caller, a).state)
  {
    match a
    case Sending(u) => SendPreservesWellFormed(s, caller, u);
    case Accepting(pk) => AcceptPreservesWellFormed(s, caller, pk);
    case Declining(pk) => DeclinePreservesWellFormed(s, caller, pk);
    case Cancelling(pk) => DeleteRequestPreservesValid(s, pk);
    case Unfriending(u) => UnfriendPreservesWellFormed(s, caller, u);
  }

  /** Friendship stays symmetric, and requests unique per ordered pair, whatever
      sequence of friendship calls authenticated users make. */
  lemma {:induction false} RunPreservesWellFormed(s: State, calls: seq<(User, Action)>)
    requires WellFormed(s)
    requires forall c :: c in calls ==> c.0 in s.users
    ensures WellFormed(Run(s, calls))
    ensures Symmetric(Run(s, calls).friendships)
    ensures Run(s, calls).users == s.users
    decreases |calls|
  {
    if calls != [] {
      ApplyPreservesWellFormed(s, calls[0].0, calls[0].1);
      ApplyKeepsUsers(s, calls[0].0, calls[0].1);
      assert forall c :: c in calls[1..] ==> c in calls;
      RunPreservesWellFormed(Apply(s, calls[0].0, calls[0].1).state, calls[1..]);
    }
  }

  // -------------------------------------------------------- the views

  /** `perform_create`. */
  method Send(db: Db, caller: User, toUser: Option<UserId>) returns (reply: Reply)
    requires db.Valid() && caller in db.users
    modifies db
    ensures db.Valid()
    ensures Step(db.Snapshot(), reply) == SendStep(old(db.Snapshot()), caller, toUser)
  {
    ghost var s := db.Snapshot();
    SendPreservesWellFormed(s, caller, toUser);
    if toUser.None? || FindUser(db.users, toUser.value).None? {
      return BadRequest("to_user");
    }
    var created := db.InsertRequest(caller.id, toUser.value);
    if created.None? {
      return ServerError;
    }
    reply := Created(created.value);
  }

  /** `accept`. */
  method Accept(db: Db, caller: User, pk: RequestId) returns (reply: Reply)
    requires db.Valid()
    modifies db
    ensures db.Valid()
    ensures Step(db.Snapshot(), reply) == AcceptStep(old(db.Snapshot()), caller, pk)
  {
    ghost var s := db.Snapshot();
    var found := GetObject(db.requests, caller.id, pk);
    if found.None? {
      return NotFound(NotFoundDetail);
    }
    var r := found.value;
    if r.toUser != caller.id {
      return Forbidden;
    }
    ghost var after := s.(friendships := Befriend(s.friendships, r.fromUser, r.toUser),
                          requests := WithoutRequest(s.requests, pk));
    assert AcceptStep(s, caller, pk) == Step(after, Done("accepted"));
    AcceptPreservesWellFormed(s, caller, pk);
    BefriendReverse(s.friendships, r.fromUser, r.toUser);
    db.AddFriend(r.fromUser, r.toUser);
    db.AddFriend(r.toUser, r.fromUser);
    db.DeleteRequest(pk);
    reply := Done("accepted");
  }

  /** `decline`. */
  method Decline(db: Db, caller: User, pk: RequestId) returns (reply: Reply)
    requires db.Valid()
    modifies db
    ensures db.Valid()
    ensures Step(db.Snapshot(), reply) == DeclineStep(old(db.Snapshot()), caller, pk)
  {
    ghost var s := db.Snapshot();
    DeclinePreservesWellFormed(s, caller, pk);
    var found := GetObject(db.requests, caller.id, pk);
    if found.None? {
      return NotFound(NotFoundDetail);
    }
    db.DeleteRequest(pk);
    reply := Done("declined");
  }

  /** `cancel`. */
  method Cancel(db: Db, caller: User, pk: RequestId) returns (reply: Reply)
    requires db.Valid()
    modifies db
    ensures db.Valid()
    ensures Step(db.Snapshot(), reply) == CancelStep(old(db.Snapshot()), caller, pk)
  {
    ghost var s := db.Snapshot();
    DeleteRequestPreservesValid(s, pk);
    var found := FindRequest(db.requests, pk);
    if found.None? {
      return NotFound("Request not found");
    }
    if found.value.fromUser != caller.id {
      return Forbidden;
    }
    db.DeleteRequest(pk);
    reply := Done("canceled");
  }

  /** `unfriend`. */
  method Unfriend(db: Db, caller: User, target: UserId) returns (reply: Reply)
    requires db.Valid()
    modifies db
    ensures db.Valid()
    ensures Step(db.Snapshot(), reply) == UnfriendStep(old(db.Snapshot()), caller, target)
  {
    ghost var s := db.Snapshot();
    UnfriendPreservesWellFormed(s, caller, target);
    var found := FindUser(db.users, target);
    if found.None? {
      return NotFound("User not found");
    }
    var t := found.value;
    if (caller.id, t.id) !in db.friendships {
      return BadRequest("Not friends");
    }
    BefriendReverse(s.friendships, caller.id, t.id);
    db.RemoveFriend(caller.id, t.id);
    db.RemoveFriend(t.id, caller.id);
    reply := Done("unfriended");
  }
}
