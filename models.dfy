/** The PerfectSpot data model: users with a type and a staff flag, the symmetric
    friends relation, events with a creator and a set of attendees, reviews, and
    friend requests unique per ordered pair. Tables are kept in primary-key order.
    `Db` is the store the views change in place; `State` is a snapshot of it. */
module Models {
  import opened Seqs

  type UserId = nat
  type EventId = nat
  type RequestId = nat
  type ReviewId = nat

  // ---------------------------------------------------------------- users

  datatype UserType = Individual | Organization

  /** The default of `CustomUser.user_type`. */
  const DefaultUserType: UserType := Individual

  /** The stored value of a user type (the first element of each choice pair). */
  function UserTypeValue(t: UserType): string {
    match t
    case Individual => "individual"
    case Organization => "organization"
  }

  /** Reads a stored value back; anything but the two choices is rejected. */
  function ParseUserType(s: string): (r: Option<UserType>)
    ensures r.Some? ==> UserTypeValue(r.value) == s
    ensures r.None? <==> s != "individual" && s != "organization"
  {
    if s == "individual" then Some(Individual)
    else if s == "organization" then Some(Organization)
    else None
  }

  lemma UserTypeRoundTrip(t: UserType)
    ensures ParseUserType(UserTypeValue(t)) == Some(t)
  {
  }

  datatype User = User(id: UserId, username: string, userType: UserType, isStaff: bool, isActive: bool)

  /** Summary of a user as the API shows it: `{id, username}`. */
  datatype UserSummary = UserSummary(id: UserId, username: string)

  function Summary(u: User): UserSummary {
    UserSummary(u.id, u.username)
  }

  predicate HasUser(users: seq<User>, id: UserId) {
    exists u :: u in users && u.id == id
  }

  /** `CustomUser.objects.get(id=...)`. */
  function FindUser(users: seq<User>, id: UserId): (r: Option<User>)
    ensures r.Some? ==> r.value in users && r.value.id == id
    ensures r.None? <==> !HasUser(users, id)
  {
    if users == [] then None
    else if users[0].id == id then Some(users[0])
    else FindUser(users[1..], id)
  }

  /** `CustomUser.objects.get(username=...)`; a missing value (`None`) matches nobody. */
  function FindByUsername(users: seq<User>, name: Option<string>): (r: Option<User>)
    ensures r.Some? ==> r.value in users && name == Some(r.value.username)
    ensures r.None? <==> name.None? || forall u :: u in users ==> u.username != name.value
  {
    if name.None? || users == [] then None
    else if users[0].username == name.value then Some(users[0])
    else FindByUsername(users[1..], name)
  }

  /** The `OrganizationManager` queryset: users whose type is organization. */
  function Organizations(users: seq<User>): seq<User> {
    Filter(users, (u: User) => u.userType == Organization)
  }

  /** The `IndividualUserManager` queryset: users whose type is individual. */
  function Individuals(users: seq<User>): seq<User> {
    Filter(users, (u: User) => u.userType == Individual)
  }

  /** The two proxy managers yield only users of their own type, and between them
      every user exactly once. */
  lemma {:induction false} ProxyManagersPartition(users: seq<User>)
    ensures forall u :: u in Organizations(users) <==> u in users && u.userType == Organization
    ensures forall u :: u in Individuals(users) <==> u in users && u.userType == Individual
    ensures |Organizations(users)| + |Individuals(users)| == |users|
  {
    if users != [] {
      ProxyManagersPartition(users[1..]);
    }
  }

  // --------------------------------------------------------------- events

  /** A minute-precision timestamp, as `strptime("%Y-%m-%d %H:%M")` yields it. */
  datatype DateTime = DateTime(year: nat, month: nat, day: nat, hour: nat, minute: nat)

  datatype Event = Event(
    id: EventId,
    title: string,
    description: string,
    location: string,
    date: DateTime,
    creator: UserId,
    isPromoted: bool,
    attendees: set<UserId>)

  /** What is stored for a new event besides its id; it starts with no attendees. */
  datatype EventFields = EventFields(
    title: string,
    description: string,
    location: string,
    date: DateTime,
    creator: UserId,
    isPromoted: bool)

  function NewEvent(id: EventId, f: EventFields): (e: Event)
    ensures e.id == id && e.creator == f.creator && e.isPromoted == f.isPromoted
    ensures e.attendees == {}
  {
    Event(id, f.title, f.description, f.location, f.date, f.creator, f.isPromoted, {})
  }

  /** `Event.is_promoted` when the caller does not supply it. */
  function PromotedOrDefault(supplied: Option<bool>): (r: bool)
    ensures supplied.None? ==> !r
    ensures supplied.Some? ==> r == supplied.value
  {
    if supplied.Some? then supplied.value else false
  }

  predicate HasEvent(events: seq<Event>, id: EventId) {
    exists e :: e in events && e.id == id
  }

  /** `Event.objects.get(pk=...)`. */
  function FindEvent(events: seq<Event>, id: EventId): (r: Option<Event>)
    ensures r.Some? ==> r.value in events && r.value.id == id
    ensures r.None? <==> !HasEvent(events, id)
  {
    if events == [] then None
    else if events[0].id == id then Some(events[0])
    else FindEvent(events[1..], id)
  }

  // -------------------------------------------------------------- reviews

  /** `PositiveSmallIntegerField`: 0 through 32767. */
  type Rating = r: int | 0 <= r <= 32767

  datatype Review = Review(id: ReviewId, event: EventId, reviewer: UserId, rating: Rating, comment: string)

  // ------------------------------------------------------ friend requests

  datatype FriendRequest = FriendRequest(id: RequestId, fromUser: UserId, toUser: UserId)

  predicate PairExists(requests: seq<FriendRequest>, a: UserId, b: UserId) {
    exists r :: r in requests && r.fromUser == a && r.toUser == b
  }

  /** `FriendRequest.objects.filter(from_user=a, to_user=b).first()`. */
  function FirstRequest(requests: seq<FriendRequest>, a: UserId, b: UserId): (r: Option<FriendRequest>)
    ensures r.Some? ==> r.value in requests && r.value.fromUser == a && r.value.toUser == b
    ensures r.None? <==> !PairExists(requests, a, b)
  {
    if requests == [] then None
    else if requests[0].fromUser == a && requests[0].toUser == b then Some(requests[0])
    else FirstRequest(requests[1..], a, b)
  }

  /** A new row for a pair that had none is what `.first()` then finds; for a pair
      that had one, the earlier row still wins. */
  lemma {:induction false} FirstRequestAppend(requests: seq<FriendRequest>, x: FriendRequest, a: UserId, b: UserId)
    ensures !PairExists(requests, a, b) && x.fromUser == a && x.toUser == b ==>
      FirstRequest(requests + [x], a, b) == Some(x)
    ensures PairExists(requests, a, b) ==> FirstRequest(requests + [x], a, b) == FirstRequest(requests, a, b)
    ensures !PairExists(requests, a, b) && !(x.fromUser == a && x.toUser == b) ==>
      FirstRequest(requests + [x], a, b) == None
  {
    if requests == [] {
      assert requests + [x] == [x];
    } else {
      assert (requests + [x])[1..] == requests[1..] + [x];
      FirstRequestAppend(requests[1..], x, a, b);
    }
  }

  /** `FriendRequest.objects.get(pk=...)`. */
  function FindRequest(requests: seq<FriendRequest>, id: RequestId): (r: Option<FriendRequest>)
    ensures r.Some? ==> r.value in requests && r.value.id == id
    ensures r.None? <==> forall x :: x in requests ==> x.id != id
  {
    if requests == [] then None
    else if requests[0].id == id then Some(requests[0])
    else FindRequest(requests[1..], id)
  }

  /** The request table after `request_obj.delete()`. */
  function WithoutRequest(requests: seq<FriendRequest>, id: RequestId): seq<FriendRequest> {
    Filter(requests, (x: FriendRequest) => x.id != id)
  }

  // ------------------------------------------------------------ friendships

  /** The through table of the self-referential `friends` relation: one row per
      direction, `(a, b)` meaning `b` is in `a.friends`. */
  type Friendships = set<(UserId, UserId)>

  ghost predicate Symmetric(f: Friendships) {
    forall p :: p in f ==> (p.1, p.0) in f
  }

  /** `a.friends.add(b)` on a symmetrical relation stores both directions. */
  function Befriend(f: Friendships, a: UserId, b: UserId): Friendships {
    f + {(a, b), (b, a)}
  }

  /** `a.friends.remove(b)` on a symmetrical relation deletes both directions. */
  function Unfriended(f: Friendships, a: UserId, b: UserId): Friendships {
    f - {(a, b), (b, a)}
  }

  /** The ids in `u.friends`. */
  function FriendIds(f: Friendships, u: UserId): set<UserId> {
    set p | p in f && p.0 == u :: p.1
  }

  lemma BefriendSymmetric(f: Friendships, a: UserId, b: UserId)
    requires Symmetric(f)
    ensures Symmetric(Befriend(f, a, b)) && Symmetric(Unfriended(f, a, b))
  {
  }

  /** On a symmetric relation, membership reads the same from either side. */
  lemma {:induction false} FriendIdsSymmetric(f: Friendships, a: UserId, b: UserId)
    requires Symmetric(f)
    ensures b in FriendIds(f, a) <==> a in FriendIds(f, b)
  {
    if b in FriendIds(f, a) {
      assert (a, b) in f;
      assert (b, a) in f;
    }
    if a in FriendIds(f, b) {
      assert (b, a) in f;
      assert (a, b) in f;
    }
  }

  // ----------------------------------------------------------------- state

  datatype State = State(
    users: seq<User>,
    friendships: Friendships,
    requests: seq<FriendRequest>,
    events: seq<Event>,
    reviews: seq<Review>,
    nextRequestId: RequestId,
    nextEventId: EventId)

  /** Primary key and `username` are unique. */
  ghost predicate UsersValid(users: seq<User>) {
    && Distinct(users)
    && (forall u, v :: u in users && v in users && u.id == v.id ==> u == v)
    && (forall u, v :: u in users && v in users && u.username == v.username ==> u == v)
  }

  /** Friendship is symmetric and joins existing users. */
  ghost predicate FriendshipsValid(s: State) {
    && Symmetric(s.friendships)
    && forall p :: p in s.friendships ==> HasUser(s.users, p.0) && HasUser(s.users, p.1)
  }

  /** `unique_together = ('from_user', 'to_user')`, a unique primary key, and both
      ends existing users. */
  ghost predicate RequestsValid(s: State) {
    && Distinct(s.requests)
    && (forall x, y :: x in s.requests && y in s.requests && x.id == y.id ==> x == y)
    && (forall x, y :: x in s.requests && y in s.requests && x.fromUser == y.fromUser && x.toUser == y.toUser ==> x == y)
    && forall x :: x in s.requests ==> x.id < s.nextRequestId && HasUser(s.users, x.fromUser) && HasUser(s.users, x.toUser)
  }

  /** Each event has a unique primary key, exactly one existing creator and existing attendees. */
  ghost predicate EventsValid(s: State) {
    && Distinct(s.events)
    && (forall x, y :: x in s.events && y in s.events && x.id == y.id ==> x == y)
    && forall e :: e in s.events ==>
         && e.id < s.nextEventId
         && HasUser(s.users, e.creator)
         && forall a :: a in e.attendees ==> HasUser(s.users, a)
  }

  /** Each review belongs to one existing event and one existing reviewer. */
  ghost predicate ReviewsValid(s: State) {
    forall rv :: rv in s.reviews ==> HasEvent(s.events, rv.event) && HasUser(s.users, rv.reviewer)
  }

  ghost predicate WellFormed(s: State) {
    UsersValid(s.users) && FriendshipsValid(s) && RequestsValid(s) && EventsValid(s) && ReviewsValid(s)
  }

  /** Befriending two existing users keeps the state well formed. */
  lemma BefriendPreservesValid(s: State, a: UserId, b: UserId)
    requires WellFormed(s) && HasUser(s.users, a) && HasUser(s.users, b)
    ensures WellFormed(s.(friendships := Befriend(s.friendships, a, b)))
  {
    BefriendSymmetric(s.friendships, a, b);
  }

  /** Unfriending keeps the state well formed. */
  lemma UnfriendPreservesValid(s: State, a: UserId, b: UserId)
    requires WellFormed(s)
    ensures WellFormed(s.(friendships := Unfriended(s.friendships, a, b)))
  {
    BefriendSymmetric(s.friendships, a, b);
  }

  /** Deleting a friend request keeps the state well formed. */
  lemma DeleteRequestPreservesValid(s: State, id: RequestId)
    requires WellFormed(s)
    ensures WellFormed(s.(requests := WithoutRequest(s.requests, id)))
  {
    FilterDistinct(s.requests, (x: FriendRequest) => x.id != id);
  }

  /** Adding the reverse direction after `Befriend` changes nothing. */
  lemma BefriendReverse(f: Friendships, a: UserId, b: UserId)
    ensures Befriend(Befriend(f, a, b), b, a) == Befriend(f, a, b)
    ensures Unfriended(Unfriended(f, a, b), b, a) == Unfriended(f, a, b)
  {
  }

  /** The state after inserting one event row for `f` under the next primary key. */
  function AddEventRow(s: State, f: EventFields): State {
    s.(events := s.events + [NewEvent(s.nextEventId, f)], nextEventId := s.nextEventId + 1)
  }

  /** A new event whose creator exists keeps the state well formed. */
  lemma AddEventPreservesValid(s: State, f: EventFields)
    requires WellFormed(s) && HasUser(s.users, f.creator)
    ensures WellFormed(AddEventRow(s, f))
  {
    var e := NewEvent(s.nextEventId, f);
    assert e !in s.events;
    AppendDistinct(s.events, e);
    var t := AddEventRow(s, f);
    forall rv | rv in t.reviews ensures HasEvent(t.events, rv.event) {
      var x :| x in s.events && x.id == rv.event;
      assert x in t.events;
    }
  }

  /** Deleting an event cascades to its reviews and its attendance rows. */
  function DeleteEventRows(s: State, id: EventId): State {
    s.(events := Filter(s.events, (e: Event) => e.id != id),
       reviews := Filter(s.reviews, (rv: Review) => rv.event != id))
  }

  lemma DeleteEventPreservesValid(s: State, id: EventId)
    requires WellFormed(s)
    ensures WellFormed(DeleteEventRows(s, id))
    ensures !HasEvent(DeleteEventRows(s, id).events, id)
    ensures forall e :: e in s.events && e.id != id ==> e in DeleteEventRows(s, id).events
    ensures forall rv :: rv in DeleteEventRows(s, id).reviews <==> rv in s.reviews && rv.event != id
  {
    var t := DeleteEventRows(s, id);
    FilterDistinct(s.events, (e: Event) => e.id != id);
    forall rv | rv in t.reviews ensures HasEvent(t.events, rv.event) {
      var e :| e in s.events && e.id == rv.event;
      assert e in t.events;
    }
  }

  /** The events left when user `u` is deleted: `Event.creator` cascades, and `u`
      leaves every attendee set. */
  function EventsWithoutUser(events: seq<Event>, u: UserId): seq<Event> {
    var kept := Filter(events, (e: Event) => e.creator != u);
    seq(|kept|, i requires 0 <= i < |kept| => kept[i].(attendees := kept[i].attendees - {u}))
  }

  lemma EventsWithoutUserFacts(events: seq<Event>, u: UserId)
    requires Distinct(events)
    requires forall x, y :: x in events && y in events && x.id == y.id ==> x == y
    ensures Distinct(EventsWithoutUser(events, u))
    ensures forall e :: e in EventsWithoutUser(events, u) <==>
      exists x :: x in events && x.creator != u && e == x.(attendees := x.attendees - {u})
  {
    var kept := Filter(events, (e: Event) => e.creator != u);
    var r := EventsWithoutUser(events, u);
    FilterDistinct(events, (e: Event) => e.creator != u);
    forall i, j | 0 <= i < j < |r| ensures r[i] != r[j] {
      assert kept[i] in events && kept[j] in events;
      assert kept[i] != kept[j];
    }
    forall e | e in r ensures exists x :: x in events && x.creator != u && e == x.(attendees := x.attendees - {u}) {
      var i :| 0 <= i < |r| && r[i] == e;
      assert kept[i] in kept;
    }
    forall x | x in events && x.creator != u ensures x.(attendees := x.attendees - {u}) in r {
      assert x in kept;
      var i :| 0 <= i < |kept| && kept[i] == x;
      assert r[i] == x.(attendees := x.attendees - {u});
    }
  }

  /** Deleting a user cascades to their events (and those events' reviews), their
      reviews, their friend requests in both directions, their friendships and
      their attendance. */
  function DeleteUserRows(s: State, u: UserId): State {
    var events := EventsWithoutUser(s.events, u);
    s.(users := Filter(s.users, (x: User) => x.id != u),
       friendships := (set p | p in s.friendships && p.0 != u && p.1 != u),
       requests := Filter(s.requests, (r: FriendRequest) => r.fromUser != u && r.toUser != u),
       events := events,
       reviews := Filter(s.reviews, (rv: Review) => rv.reviewer != u && HasEvent(events, rv.event)))
  }

  /** Every user other than the deleted one is still there. */
  lemma DeleteUserKeepsOthers(s: State, u: UserId)
    ensures forall id :: id != u && HasUser(s.users, id) ==> HasUser(DeleteUserRows(s, u).users, id)
    ensures !HasUser(DeleteUserRows(s, u).users, u)
  {
    var t := DeleteUserRows(s, u);
    forall id | id != u && HasUser(s.users, id) ensures HasUser(t.users, id) {
      var x :| x in s.users && x.id == id;
      assert x in t.users;
    }
  }

  /** The events left after deleting a user satisfy the event invariant. */
  lemma DeleteUserEventsValid(s: State, u: UserId)
    requires WellFormed(s)
    ensures EventsValid(DeleteUserRows(s, u))
    ensures forall e :: e in s.events && e.creator != u ==> HasEvent(DeleteUserRows(s, u).events, e.id)
  {
    var t := DeleteUserRows(s, u);
    EventsWithoutUserFacts(s.events, u);
    DeleteUserKeepsOthers(s, u);
    forall e | e in s.events && e.creator != u ensures HasEvent(t.events, e.id) {
      assert e.(attendees := e.attendees - {u}) in t.events;
    }
    forall e | e in t.events
      ensures e.id < t.nextEventId && HasUser(t.users, e.creator)
      ensures forall a :: a in e.attendees ==> HasUser(t.users, a)
    {
      var x :| x in s.events && x.creator != u && e == x.(attendees := x.attendees - {u});
    }
    forall x, y | x in t.events && y in t.events && x.id == y.id ensures x == y {
      var x0 :| x0 in s.events && x0.creator != u && x == x0.(attendees := x0.attendees - {u});
      var y0 :| y0 in s.events && y0.creator != u && y == y0.(attendees := y0.attendees - {u});
    }
  }

  lemma DeleteUserPreservesValid(s: State, u: UserId)
    requires WellFormed(s)
    ensures WellFormed(DeleteUserRows(s, u))
    ensures !HasUser(DeleteUserRows(s, u).users, u)
    ensures forall e :: e in DeleteUserRows(s, u).events ==> e.creator != u && u !in e.attendees
    ensures forall e :: e in s.events && e.creator != u ==> HasEvent(DeleteUserRows(s, u).events, e.id)
    ensures forall rv :: rv in DeleteUserRows(s, u).reviews ==> rv.reviewer != u && rv in s.reviews
    ensures forall p :: p in DeleteUserRows(s, u).friendships ==> p.0 != u && p.1 != u
    ensures forall id :: id != u && HasUser(s.users, id) ==> HasUser(DeleteUserRows(s, u).users, id)
    ensures forall p :: p in s.friendships && p.0 != u && p.1 != u ==> p in DeleteUserRows(s, u).friendships
    ensures forall r :: r in s.requests && r.fromUser != u && r.toUser != u ==> r in DeleteUserRows(s, u).requests
    ensures forall rv, e :: rv in s.reviews && rv.reviewer != u && e in s.events && e.id == rv.event && e.creator != u ==>
      rv in DeleteUserRows(s, u).reviews
  {
    EventsWithoutUserFacts(s.events, u);
    FilterDistinct(s.users, (x: User) => x.id != u);
    FilterDistinct(s.requests, (r: FriendRequest) => r.fromUser != u && r.toUser != u);
    DeleteUserKeepsOthers(s, u);
    DeleteUserEventsValid(s, u);
  }

  // -------------------------------------------------------------- the store

  /** The database the views change in place, one field per table. */
  class Db {
    var users: seq<User>
    var friendships: Friendships
    var requests: seq<FriendRequest>
    var events: seq<Event>
    var reviews: seq<Review>
    var nextRequestId: RequestId
    var nextEventId: EventId

    constructor Load(s: State)
      ensures Snapshot() == s
    {
      users, friendships, requests := s.users, s.friendships, s.requests;
      events, reviews := s.events, s.reviews;
      nextRequestId, nextEventId := s.nextRequestId, s.nextEventId;
    }

    function Snapshot(): State
      reads this
    {
      State(users, friendships, requests, events, reviews, nextRequestId, nextEventId)
    }

    ghost predicate Valid()
      reads this
    {
      WellFormed(Snapshot())
    }

    /** `a.friends.add(b)`. */
    method AddFriend(a: UserId, b: UserId)
      modifies this`friendships
      ensures Snapshot() == old(Snapshot()).(friendships := Befriend(old(friendships), a, b))
    {
      friendships := friendships + {(a, b), (b, a)};
    }

    /** `a.friends.remove(b)`. */
    method RemoveFriend(a: UserId, b: UserId)
      modifies this`friendships
      ensures Snapshot() == old(Snapshot()).(friendships := Unfriended(old(friendships), a, b))
    {
      friendships := friendships - {(a, b), (b, a)};
    }

    /** `request_obj.delete()`. */
    method DeleteRequest(id: RequestId)
      modifies this`requests
      ensures Snapshot() == old(Snapshot()).(requests := WithoutRequest(old(requests), id))
    {
      requests := WithoutRequest(requests, id);
    }

    /** Inserting a friend request; the unique constraint on the ordered pair makes
        the database refuse a second row for the same pair. */
    method InsertRequest(a: UserId, b: UserId) returns (created: Option<FriendRequest>)
      modifies this`requests, this`nextRequestId
      ensures PairExists(old(requests), a, b) ==>
        created.None? && requests == old(requests) && nextRequestId == old(nextRequestId)
      ensures !PairExists(old(requests), a, b) ==>
        && created == Some(FriendRequest(old(nextRequestId), a, b))
        && requests == old(requests) + [created.value]
        && nextRequestId == old(nextRequestId) + 1
    {
      if PairExists(requests, a, b) {
        created := None;
      } else {
        var r := FriendRequest(nextRequestId, a, b);
        requests := requests + [r];
        nextRequestId := nextRequestId + 1;
        created := Some(r);
      }
    }

    /** `Event.objects.create(...)` / `serializer.save(...)`. */
    method InsertEvent(f: EventFields) returns (e: Event)
      modifies this`events, this`nextEventId
      ensures e == NewEvent(old(nextEventId), f)
      ensures Snapshot() == AddEventRow(old(Snapshot()), f)
    {
      e := NewEvent(nextEventId, f);
      events := events + [e];
      nextEventId := nextEventId + 1;
    }

    /** `event.delete()`, with the cascade to reviews and attendance. */
    method DeleteEvent(id: EventId)
      modifies this`events, this`reviews
      ensures Snapshot() == DeleteEventRows(old(Snapshot()), id)
    {
      events := Filter(events, (e: Event) => e.id != id);
      reviews := Filter(reviews, (rv: Review) => rv.event != id);
    }
  }
}
