/** Serializer rules: the per-viewer flags of an event, the relationship status
    shown beside a search result, and the registration and login checks. */
module Serializers {
  import opened Seqs
  import opened Text
  import opened Models

  /** The requesting user as a serializer's context sees it. */
  datatype Viewer = Anonymous | SignedIn(id: UserId)

  // ------------------------------------------------------------ events

  /** `EventSerializer.get_is_owner`; `request` is absent when the serializer is
      used outside a view. */
  function IsOwner(request: Option<Viewer>, e: Event): (r: bool)
    ensures r <==> request == Some(SignedIn(e.creator))
  {
    if request.None? || request.value.Anonymous? then false
    else e.creator == request.value.id
  }

  /** `EventSerializer.get_is_attending`. */
  function IsAttending(viewer: Viewer, e: Event): bool {
    viewer.SignedIn? && viewer.id in e.attendees
  }

  /** `EventSerializer.get_attendees_count`: one attendance row per attendee. */
  function AttendeesCount(e: Event): nat {
    |e.attendees|
  }

  /** The fields `EventSerializer` shows (coordinates and image left out). */
  datatype EventData = EventData(
    id: EventId,
    title: string,
    description: string,
    location: string,
    date: DateTime,
    isPromoted: bool,
    isOwner: bool,
    attendeesCount: nat,
    isAttending: bool)

  function SerializeEvent(e: Event, viewer: Viewer): EventData {
    EventData(e.id, e.title, e.description, e.location, e.date, e.isPromoted,
              IsOwner(Some(viewer), e), AttendeesCount(e), IsAttending(viewer, e))
  }

  /** The flags agree with the event: ownership is the creator test, attendance is
      membership of the attendee set, the count is that set's size, and so an
      attending viewer is always counted. */
  lemma SerializedEventFlags(e: Event, viewer: Viewer)
    ensures SerializeEvent(e, viewer).isOwner <==> viewer == SignedIn(e.creator)
    ensures SerializeEvent(e, viewer).isAttending <==> viewer.SignedIn? && viewer.id in e.attendees
    ensures SerializeEvent(e, viewer).attendeesCount == |e.attendees|
    ensures SerializeEvent(e, viewer).isAttending ==> SerializeEvent(e, viewer).attendeesCount >= 1
    ensures viewer.Anonymous? ==> !SerializeEvent(e, viewer).isOwner && !SerializeEvent(e, viewer).isAttending
  {
    if IsAttending(viewer, e) {
      assert viewer.id in e.attendees;
      assert e.attendees != {};
    }
  }

  // --------------------------------------------------- relationship status

  datatype Status = NoStatus | SelfStatus | FriendsStatus | SentStatus | ReceivedStatus

  /** The value the API sends for a status. */
  function StatusLabel(st: Status): string {
    match st
    case NoStatus => "none"
    case SelfStatus => "self"
    case FriendsStatus => "friends"
    case SentStatus => "sent"
    case ReceivedStatus => "received"
  }

  /** The choices of `FriendshipStatusSerializer.status`. */
  const ProfileStatusChoices: seq<string> := ["none", "sent", "received", "friends"]

  /** Different statuses are sent as different strings. */
  lemma StatusLabelInjective(a: Status, b: Status)
    ensures StatusLabel(a) == StatusLabel(b) ==> a == b
  {
  }

  /** `SearchResultUserSerializer.get_status`: how `subject` relates to the requesting user. */
  function SearchStatus(request: Option<Viewer>, subject: UserId, s: State): Status {
    if request.None? || request.value.Anonymous? then NoStatus
    else
      var user := request.value.id;
      if subject == user then SelfStatus
      else if (user, subject) in s.friendships then FriendsStatus
      else if PairExists(s.requests, user, subject) then SentStatus
      else if PairExists(s.requests, subject, user) then ReceivedStatus
      else NoStatus
  }

  /** The search status, case by case in the order the serializer checks. */
  lemma SearchStatusCheckOrder(request: Option<Viewer>, subject: UserId, s: State)
    ensures (request.None? || request == Some(Anonymous)) ==> SearchStatus(request, subject, s) == NoStatus
    ensures forall u :: request == Some(SignedIn(u)) ==>
      && (SearchStatus(request, subject, s) == SelfStatus <==> subject == u)
      && (SearchStatus(request, subject, s) == FriendsStatus <==> subject != u && (u, subject) in s.friendships)
      && (SearchStatus(request, subject, s) == SentStatus <==>
            subject != u && (u, subject) !in s.friendships && PairExists(s.requests, u, subject))
      && (SearchStatus(request, subject, s) == ReceivedStatus <==>
            subject != u && (u, subject) !in s.friendships && !PairExists(s.requests, u, subject)
            && PairExists(s.requests, subject, u))
    ensures StatusLabel(SearchStatus(request, subject, s)) in {"none", "self", "friends", "sent", "received"}
  {
  }

  // ----------------------------------------------------------- registration

  datatype FieldError = Required | Blank | TooShort | NullCharacter | InvalidChoice

  const MinPasswordLength: nat := 6

  /** The validators a `CharField` with `min_length` runs on its stripped value:
      `MinLengthValidator`, then `ProhibitNullCharactersValidator`. Every one of
      them runs, and the errors of all that fail are reported together. (The
      surrogate-character validator that follows them can never fail here, since
      a Dafny `char` is never a surrogate.) */
  function PasswordValidators(v: string): (errors: seq<FieldError>)
    ensures TooShort in errors <==> |v| < MinPasswordLength
    ensures NullCharacter in errors <==> '\0' in v
    ensures forall e :: e in errors ==> e == TooShort || e == NullCharacter
  {
    (if |v| < MinPasswordLength then [TooShort] else [])
    + (if '\0' in v then [NullCharacter] else [])
  }

  /** The `password` field of `UserRegistrationSerializer`: a `CharField` with
      `min_length=6`, which strips surrounding whitespace first, refuses a blank
      value outright, and otherwise runs its validators on the stripped text and
      keeps it. */
  function ValidatePassword(raw: Option<string>): (r: Result<string, seq<FieldError>>)
    ensures r.Ok? <==> raw.Some? && |Strip(raw.value)| >= MinPasswordLength && '\0' !in Strip(raw.value)
    ensures r.Ok? ==> r.value == Strip(raw.value)
    ensures raw.None? ==> r == Err([Required])
    ensures raw.Some? && Strip(raw.value) == "" ==> r == Err([Blank])
    ensures raw.Some? && Strip(raw.value) != "" && r.Err? ==>
      && (TooShort in r.error <==> |Strip(raw.value)| < MinPasswordLength)
      && (NullCharacter in r.error <==> '\0' in Strip(raw.value))
  {
    if raw.None? then Err([Required])
    else
      var v := Strip(raw.value);
      if v == "" then Err([Blank])
      else
        var errors := PasswordValidators(v);
        if errors == [] then Ok(v) else Err(errors)
  }

  /** A password without surrounding whitespace is accepted exactly when it has at
      least six characters and no NUL character. */
  lemma PasswordLengthRule(p: string)
    requires p == [] || (!IsSpace(p[0]) && !IsSpace(p[|p| - 1]))
    ensures ValidatePassword(Some(p)).Ok? <==> |p| >= 6 && '\0' !in p
  {
    StripUnpadded(p);
  }

  lemma StripUnpadded(p: string)
    requires p == [] || (!IsSpace(p[0]) && !IsSpace(p[|p| - 1]))
    ensures Strip(p) == p
  {
    var i, j :| 0 <= i <= j <= |p| && Strip(p) == p[i..j] && AllSpace(p[..i]) && AllSpace(p[j..]);
    if p != [] {
      if i > 0 {
        assert p[..i][0] == p[0];
      }
      if j < |p| {
        assert p[j..][|p| - 1 - j] == p[|p| - 1];
      }
    }
  }

  /** The `user_type` field: optional, defaulting to individual, and limited to the
      two choices. */
  function RegistrationUserType(raw: Option<string>): (r: Result<UserType, FieldError>)
    ensures raw.None? ==> r == Ok(DefaultUserType)
    ensures raw.Some? ==> (r.Ok? <==> raw.value in {"individual", "organization"})
    ensures raw.Some? && r.Ok? ==> UserTypeValue(r.value) == raw.value
  {
    if raw.None? then Ok(DefaultUserType)
    else match ParseUserType(raw.value)
      case Some(t) => Ok(t)
      case None => Err(InvalidChoice)
  }

  // ------------------------------------------------------------------ login

  datatype Credentials = Credentials(username: string, password: string)

  /** The validated data: the submitted fields plus the attached user. */
  datatype LoginData = LoginData(username: string, password: string, user: User)

  const InvalidCredentials: string := "Invalid credentials."
  const AccountDisabled: string := "User account is disabled."

  /** `UserLoginSerializer.validate`; `authenticated` is what the authentication
      backend returned for the submitted credentials. */
  function ValidateLogin(data: Credentials, authenticated: Option<User>): (r: Result<LoginData, string>)
    ensures authenticated.None? ==> r == Err(InvalidCredentials)
    ensures authenticated.Some? && !authenticated.value.isActive ==> r == Err(AccountDisabled)
    ensures r.Ok? <==> authenticated.Some? && authenticated.value.isActive
    ensures r.Ok? ==> r.value.user == authenticated.value
    ensures r.Ok? ==> r.value.username == data.username && r.value.password == data.password
  {
    if authenticated.None? then Err(InvalidCredentials)
    else if !authenticated.value.isActive then Err(AccountDisabled)
    else Ok(LoginData(data.username, data.password, authenticated.value))
  }
}
