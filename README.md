# PerfectSpot backend core in Dafny

PerfectSpot is a Django REST backend for an events and social app. Users are
individuals or organisations. They send, accept, decline and cancel friend
requests and unfriend each other, search for other users by name, and create
and delete events that other users attend. Staff import events from a CSV file
in the admin site and see, on a user's admin page, the events that user attends.

This project models that core as Dafny data and proves its rules:

- `Models` (models.dfy): the tables as a `State` value, with the invariants the
  schema enforces (`WellFormed`). It also holds `Db`, a class with one field per
  table that the views change in place, and the ORM calls they make.
- `Serializers` (serializers.dfy): the per-viewer event flags, the relationship
  status of a search result, and the registration password, user-type and login
  checks.
- `FriendViews` (friends.dfy): the friend-request viewset, the profile status
  view, `unfriend` and `my_friends`. Each view that writes (send, accept,
  decline, cancel, unfriend) is a step function on `State`, plus a method on
  `Db` that makes the same ORM calls in the same order and is proved to reach
  the state the step function gives. The two views that only read (`my_friends`
  and the profile status) are functions of `State`.
- `EventViews` (events.dfy): event creation and deletion, with the
  `{success, message, data}` envelope.
- `UserSearch` (user_search.dfy): the user search.
- `Dates` (dates.dfy): `datetime.strptime(value, "%Y-%m-%d %H:%M")`, modelled on
  the regular expression Python's `_strptime` builds for that format.
- `Admin` (admin.dfy): the CSV import of events, with `csv.DictReader`'s row
  building and the row-by-row error handling, and the "Attending Events" field of
  the user admin page.
- `Seqs` and `Text` (seqs.dfy, text.dfy): filtering, slicing and joining
  sequences; Python's whitespace, `str.strip`, case folding and `str(int)`.

Environment inputs are parameters:

- the outcome of serializer validation (`EventViews.Validation`);
- what the authentication backend returned for a login (`Serializers.ValidateLogin`);
- the CSV records of the uploaded file (`Admin.ImportCsv`);
- the path where the admin site is mounted (`Admin.Display`).

Tables are sequences in primary-key order. Where the source reads a queryset
without `order_by`, the model takes rows in that order.

## Model

| member | source | states |
|---|---|---|
| Models.ParseUserType | PerfectSpot/models.py:7-17 | a stored user type is read back as one of the two choices exactly when it is "individual" or "organization" |
| Models.UserTypeRoundTrip | PerfectSpot/models.py:7-17 | every user type is read back from the value stored for it |
| Models.FindUser | PerfectSpot/views/friends.py:115 | the lookup by id finds a user with that id, and fails exactly when no user has it |
| Models.FindByUsername | PerfectSpot/admin.py:74 | the lookup by username finds a user with that name, and fails exactly when the value is missing or nobody has that name |
| Models.ProxyManagersPartition | PerfectSpot/models.py:78-94 | the organization manager yields exactly the organisation users and the individual manager exactly the individual users; between them they yield every user once |
| Models.NewEvent | PerfectSpot/models.py:40-56 | a new event keeps its id, creator and promotion flag and has no attendees |
| Models.PromotedOrDefault | PerfectSpot/models.py:46 | `is_promoted` is false when not supplied, and otherwise the supplied value |
| Models.FindEvent | PerfectSpot/views/events.py:66-68 | the lookup by primary key finds the event with that id, and fails exactly when there is none |
| Models.FirstRequest | PerfectSpot/views/friends.py:74-75 | `.first()` returns a request from `a` to `b`, and none exactly when no such request exists |
| Models.FirstRequestAppend | PerfectSpot/views/friends.py:74-75 | after a new row is inserted, `.first()` finds that row for a pair that had none and the earlier row for a pair that had one |
| Models.FindRequest | PerfectSpot/views/friends.py:54-57 | the lookup by primary key finds the request with that id, and fails exactly when there is none |
| Models.BefriendSymmetric | PerfectSpot/models.py:28 | adding or removing a friend on the symmetrical relation keeps it symmetric |
| Models.BefriendReverse | PerfectSpot/models.py:28 | adding (or removing) the reverse direction right after adding (or removing) a friend changes nothing, so the second `add` of a pair is a no-op |
| Models.BefriendPreservesValid | PerfectSpot/views/friends.py:38-39 | making two existing users friends keeps every invariant |
| Models.UnfriendPreservesValid | PerfectSpot/views/friends.py:117-118 | ending a friendship keeps every invariant |
| Models.DeleteRequestPreservesValid | PerfectSpot/views/friends.py:42 | deleting a friend request keeps every invariant |
| Models.FriendIdsSymmetric | PerfectSpot/models.py:28 | on a symmetric relation, A is among B's friends exactly when B is among A's |
| Models.AddEventPreservesValid | PerfectSpot/models.py:40-56 | inserting an event whose creator exists keeps every table invariant: unique keys, an existing creator, attendees drawn from the users |
| Models.DeleteEventPreservesValid | PerfectSpot/models.py:63 | deleting an event removes it and exactly its reviews, keeps every other event and keeps the invariants |
| Models.EventsWithoutUserFacts | PerfectSpot/models.py:45 | when a user is deleted, the events they created go and the others stay, without that user among their attendees |
| Models.DeleteUserKeepsOthers | PerfectSpot/models.py:63-64 | after deleting a user, that user is gone and every other user is still there |
| Models.DeleteUserEventsValid | PerfectSpot/models.py:63-64 | after deleting a user, the remaining events (those the user did not create, without the user among their attendees) keep the event invariant, and each event the user did not create is still there |
| Models.DeleteUserPreservesValid | PerfectSpot/models.py:63-64 | deleting a user removes them, their events, their reviews, their friendships and their attendance, and keeps the invariants. Every other user stays, and so do the friendships and friend requests between other users and the other users' reviews of events the deleted user did not create |
| Models.Db.AddFriend | PerfectSpot/views/friends.py:38-39 | `a.friends.add(b)` stores both directions |
| Models.Db.RemoveFriend | PerfectSpot/views/friends.py:117-118 | `a.friends.remove(b)` deletes both directions |
| Models.Db.DeleteRequest | PerfectSpot/views/friends.py:42 | deleting a request removes exactly the rows with that id |
| Models.Db.InsertRequest | PerfectSpot/models.py:109-110 | a second request for the same ordered pair is refused and changes nothing; otherwise the new row takes the next id |
| Models.Db.InsertEvent | PerfectSpot/views/events.py:31 | a saved event takes the next primary key and is appended to the table |
| Models.Db.DeleteEvent | PerfectSpot/views/events.py:83 | `event.delete()` removes the event and cascades to its reviews |
| Serializers.IsOwner | PerfectSpot/serializers.py:61-69 | `is_owner` is true exactly when there is a request, its user is signed in and that user created the event |
| Serializers.SerializedEventFlags | PerfectSpot/serializers.py:54-59 | `is_attending` is true exactly when the viewer is signed in and attends; `attendees_count` is the size of the attendee set; an anonymous viewer neither owns nor attends |
| Serializers.StatusLabelInjective | PerfectSpot/serializers.py:106-123 | different statuses are sent as different strings |
| Serializers.SearchStatusCheckOrder | PerfectSpot/serializers.py:106-123 | the search status is "none" without a signed-in user and "self" for that user; otherwise "friends", then "sent", then "received", then "none", each exactly under its condition; the value is always one of the five labels |
| Serializers.PasswordValidators | PerfectSpot/serializers.py:10 | the field's validators report the short-value error exactly when the value has fewer than 6 characters and the NUL error exactly when it holds a NUL character, both together when both apply |
| Serializers.ValidatePassword | PerfectSpot/serializers.py:10 | once surrounding whitespace is stripped, a password is accepted exactly when it has at least 6 characters and no NUL character, and the stripped text is kept; a missing one and a blank one are refused with their own single error; otherwise every failing rule is reported |
| Serializers.PasswordLengthRule | PerfectSpot/serializers.py:10 | a password without surrounding whitespace is accepted exactly when it is at least 6 characters long and holds no NUL character |
| Serializers.RegistrationUserType | PerfectSpot/models.py:13-17 | an omitted user type defaults to individual; a given one is accepted exactly when it is one of the two choices, as that choice |
| Serializers.ValidateLogin | PerfectSpot/serializers.py:26-37 | failed authentication gives "Invalid credentials.", an inactive user "User account is disabled.", and success attaches exactly the authenticated user to the submitted data |
| FriendViews.Incoming | PerfectSpot/views/friends.py:21-22 | the viewset sees exactly the requests addressed to the caller |
| FriendViews.SendOutcomes | PerfectSpot/views/friends.py:24-25 | creating a request fails with 400 for a missing or unknown `to_user` and with 500 for an existing ordered pair, changing nothing; otherwise exactly one request from the caller to that user is added |
| FriendViews.SendPreservesWellFormed | PerfectSpot/models.py:109-110 | sending keeps at most one request per ordered pair, and the other invariants |
| FriendViews.AcceptAddressed | PerfectSpot/views/friends.py:34-44 | after the recipient accepts, each party is in the other's friends, the request is gone and nothing else changed |
| FriendViews.AcceptNotAddressed | PerfectSpot/views/friends.py:28-29 | accepting a request that is not addressed to the caller is not found and changes nothing |
| FriendViews.AcceptNeverForbidden | PerfectSpot/views/friends.py:31-32 | the 403 branch of accept is never taken |
| FriendViews.AcceptPreservesWellFormed | PerfectSpot/views/friends.py:38-42 | accepting keeps friendship symmetric and the other invariants |
| FriendViews.DeclineAddressed | PerfectSpot/views/friends.py:47-50 | declining deletes exactly that request and leaves friendships and everything else alone |
| FriendViews.DeclineNotAddressed | PerfectSpot/views/friends.py:48 | declining a request that is not addressed to the caller is not found and changes nothing |
| FriendViews.DeclinePreservesWellFormed | PerfectSpot/views/friends.py:49 | declining keeps the invariants |
| FriendViews.CancelOutcomes | PerfectSpot/views/friends.py:53-61 | cancel gives 404 when no request has the id and 403 when the caller did not send it, changing nothing in both; otherwise it deletes exactly that request |
| FriendViews.UnfriendOutcomes | PerfectSpot/views/friends.py:112-123 | unfriend gives 404 for an unknown user and 400 when the two are not friends, changing nothing in both; otherwise it removes both directions and nothing else |
| FriendViews.UnfriendPreservesWellFormed | PerfectSpot/views/friends.py:117-118 | unfriending keeps friendship symmetric and the other invariants |
| FriendViews.MyFriendsExactly | PerfectSpot/views/friends.py:127-131 | the list holds exactly the caller's friends as `{id, username}`, and its ids are the caller's friend ids |
| FriendViews.ProfileStatusCheckOrder | PerfectSpot/views/friends.py:66-90 | the profile status is 404 exactly for an unknown user; otherwise it is "friends", then "sent", then "received", then "none", each exactly under its condition, with the id of the first matching request |
| FriendViews.ProfileRequestIdMatches | PerfectSpot/views/friends.py:78-105 | the profile status is one of the `FriendshipStatusSerializer` choices; a request id is present exactly for "sent" and "received" and names a request between the two users in that direction |
| FriendViews.SearchAgreesWithProfile | PerfectSpot/serializers.py:113-123 | for another user, the profile status equals the status the search shows |
| FriendViews.SendThenStatus | PerfectSpot/views/friends.py:74-87 | after a sends b a request, a sees "sent" and b sees "received", both with the new request's id |
| FriendViews.ApplyKeepsUsers | PerfectSpot/views/friends.py:24-61 | no friendship call adds or removes a user |
| FriendViews.ApplyPreservesWellFormed | PerfectSpot/views/friends.py:24-61 | every friendship call keeps the invariants |
| FriendViews.RunPreservesWellFormed | PerfectSpot/models.py:28 | after any sequence of friendship calls, friendship is still symmetric and requests are still unique per ordered pair |
| FriendViews.Send | PerfectSpot/views/friends.py:24-25 | the view reaches the state and reply of `SendStep` and keeps the invariants |
| FriendViews.Accept | PerfectSpot/views/friends.py:28-44 | the two `add` calls and the delete reach the state and reply of `AcceptStep` and keep the invariants |
| FriendViews.Decline | PerfectSpot/views/friends.py:47-50 | the view reaches the state and reply of `DeclineStep` |
| FriendViews.Cancel | PerfectSpot/views/friends.py:53-61 | the view reaches the state and reply of `CancelStep` |
| FriendViews.Unfriend | PerfectSpot/views/friends.py:112-123 | the two `remove` calls reach the state and reply of `UnfriendStep` |
| EventViews.CreateOutcomes | PerfectSpot/views/events.py:27-49 | a valid submission appends exactly one event, created by the caller, with no attendees, and answers 201 echoing its fields; an invalid one answers 400 with the errors and saves nothing |
| EventViews.CreatedEventIsOwned | PerfectSpot/views/events.py:31 | the creator sees the new event as theirs, not yet attended, with a count of 0 |
| EventViews.CreatePreservesWellFormed | PerfectSpot/views/events.py:31 | creation keeps the invariants |
| EventViews.DeleteOutcomes | PerfectSpot/views/events.py:65-88 | deleting gives 404 for an unknown id and 403 for a caller who is neither creator nor staff, changing nothing in both; otherwise exactly that event and its reviews go, with 200 |
| EventViews.DeletePreservesWellFormed | PerfectSpot/views/events.py:83 | deletion keeps the invariants |
| EventViews.Create | PerfectSpot/views/events.py:27-49 | the view reaches the state and envelope of `CreateStep` |
| EventViews.Delete | PerfectSpot/views/events.py:65-88 | the view reaches the state and envelope of `DeleteStep` |
| UserSearch.EmptyQuery | PerfectSpot/views/user_search.py:15-17 | an absent or empty query gives no results |
| UserSearch.ResultsSound | PerfectSpot/views/user_search.py:19-23 | there are at most 10 results; each is a user other than the caller whose username contains the query ignoring case, with the search status for the caller, never "self" |
| UserSearch.CallerExcluded | PerfectSpot/views/user_search.py:21 | the caller never appears among the results |
| UserSearch.ResultsComplete | PerfectSpot/views/user_search.py:19-21 | a matching user is left out only when all 10 places are taken |
| Dates.DaysInMonth | PerfectSpot/admin.py:81 | a month has 28 to 31 days |
| Dates.ParseDate | PerfectSpot/admin.py:81 | every value read is a date and time that exists |
| Dates.ParseFormat | PerfectSpot/admin.py:81 | every date and time is read back from its zero-padded `YYYY-MM-DD HH:MM` text |
| Dates.SingleDigitFields | PerfectSpot/admin.py:81 | single-digit month, day and hour are accepted |
| Dates.NonexistentDay | PerfectSpot/admin.py:81 | a day that does not exist in its month is refused |
| Dates.LeapDay | PerfectSpot/admin.py:81 | 29 February of a leap year is accepted |
| Dates.TrailingText | PerfectSpot/admin.py:81 | text after the minutes is refused |
| Text.Strip | PerfectSpot/admin.py:83 | the result is the input without a leading and a trailing run of whitespace, and does not itself start or end with whitespace |
| Text.StripUnique | PerfectSpot/admin.py:83 | whitespace around a core that neither starts nor ends with whitespace is exactly what is stripped |
| Admin.MissingColumns | PerfectSpot/admin.py:63-64 | the missing columns are exactly the expected ones absent from the header, in expected-column order, and none is missing exactly when the header has every expected column |
| Admin.DictRowFacts | PerfectSpot/admin.py:61 | a row has exactly the header names as keys; names past the end of a short record hold None; with distinct names, the others hold their own values |
| Admin.PromotedTextMeaning | PerfectSpot/admin.py:83 | the flag is set exactly when the value, without surrounding whitespace, is "true" in any letter case or "1" |
| Admin.PromotedFlagCases | PerfectSpot/admin.py:83 | an absent `is_promoted` column reads as false, and a None value raises |
| Admin.ProcessRowOutcomes | PerfectSpot/admin.py:73-103 | with every column present, a row is skipped for an unknown creator, for a bad date, or for a missing value, in that order, and is otherwise imported with exactly its own values, creator and flag |
| Admin.NoKeyError | PerfectSpot/admin.py:98-100 | once the header check passes, no row raises `KeyError` |
| Admin.ImportRowsConcat | PerfectSpot/admin.py:95-103 | rows are handled independently: what an import creates from two runs of rows is what each creates, in order |
| Admin.SkippedRow | PerfectSpot/admin.py:95-103 | a row that imports nothing can be dropped: the rows before and after it import as if it were not there |
| Admin.UnknownCreatorSkipped | PerfectSpot/admin.py:73-77 | a row with an unknown creator adds nothing, and the rows around it are imported as they would be without it |
| Admin.ImportedCreatorsExist | PerfectSpot/admin.py:74-90 | every imported event names an existing creator, and no row yields more than one event |
| Admin.AddEventsFacts | PerfectSpot/admin.py:85-92 | importing appends one new row per event, under consecutive keys from the next key on, and changes nothing else |
| Admin.AddEventsPreservesValid | PerfectSpot/admin.py:85-92 | importing events with existing creators keeps the invariants |
| Admin.ImportLoop | PerfectSpot/admin.py:70-93 | for a header that has every expected column, the loop creates exactly the events that `ImportRows` yields, in order, and `success_count` is their number |
| Admin.ImportCsv | PerfectSpot/admin.py:56-106 | an upload the form refuses (a file with no bytes) changes nothing; when the header lacks a column nothing is created and the missing columns are reported; otherwise the events of every surviving row after the header are created and counted; the invariants hold throughout |
| Admin.AttendingEvents | PerfectSpot/admin.py:29 | the events listed are exactly those the user attends |
| Admin.FormatNoArgsPrefix | PerfectSpot/admin.py:38 | a brace-free prefix passes unchanged through `str.format()` without arguments |
| Admin.FormatNoArgsPlain | PerfectSpot/admin.py:38 | brace-free text passes unchanged through `format_html` without arguments |
| Admin.BraceTitleRaises | PerfectSpot/admin.py:36-38 | an attended event titled "{x}" makes the field raise |
| Admin.DoubledBraceTitleAltered | PerfectSpot/admin.py:36-38 | an attended event titled "{{" is shown as "{" |
| Admin.MarkupTitleUnescaped | PerfectSpot/admin.py:36-38 | an attended event titled "<b>" reaches the page as markup, where escaping would have changed it |
| Admin.EscapeRemovesMarkup | PerfectSpot/admin.py:36 | escaped text holds no `<`, `>`, `"` or `'` |
| Admin.EscapePlain | PerfectSpot/admin.py:36 | escaping leaves text without markup characters as it is |
| Admin.EscapeUnchangedIff | PerfectSpot/admin.py:36 | escaping leaves a text unchanged exactly when it holds none of `&`, `<`, `>`, `"`, `'` |
| Admin.EscapeLength | PerfectSpot/admin.py:36 | escaping never shortens a text, and makes it strictly longer when it holds a markup character |
| Admin.RawLinkNoBraces | PerfectSpot/admin.py:36 | a link built from a title and admin root without braces has no braces, so `str.format()` leaves it as it is |
| Admin.SafeAttendingEventsDisplay | PerfectSpot/admin.py:28-38 | the loop that builds the links with each title and URL escaped, followed by the join, gives the intended display (the corrected half of the finding below) |
| Admin.DisplayShape | PerfectSpot/admin.py:29-38 | the display is "No events" exactly when the user attends nothing, and otherwise starts with the link to the first attended event |
| Admin.DisplayAgreesOnPlainTitles | PerfectSpot/admin.py:33-38 | when neither titles nor the admin path hold braces or markup characters, the field as written and the intended display are the same |

## Left out

- The rest of `FriendRequestViewSet` (list, retrieve, update, partial update and destroy): DRF's stock `ModelViewSet` actions over `get_queryset`, only its lookup is modelled (`FriendViews.GetObject`).
- `UserProfileAPIView`, and the profile fields of `FriendDataResponseSerializer` other than `status` and `request_id` (interests, friends, events count, incoming and outgoing requests): plain serialisation of stored rows.
- Event coordinates, image URL and image, and the verification document: they take no part in any rule.
- The field rules of `EventSerializer` and `UserRegistrationSerializer` (such as `EmailField` or the `max_length` of `CharField`): they belong to Django REST framework, so validation is a parameter.
- JWT issuance and password authentication: foreign library calls, passed in as parameters.
- `messages.error`, `message_user`, `redirect`, `render` and `reader.line_num` in `import_csv`: user interface only. The GET path that renders the empty form is also left out.
- CSV decoding and quoting, and the `restkey` entry that `DictReader` adds for a record longer than the header: records arrive as parsed fields.
- Admin pages other than `import_csv` and `attending_events_display` (list displays, filters, search fields, proxy admins): declarative Django configuration.
- Admin.ProcessRow: does not enforce `max_length=255` on title and location. Whether an overlong value fails depends on the database (SQLite does not check it).
- Dates.ParseDate: `\d` in Python's regular expressions also matches non-ASCII decimal digits; the model accepts only ASCII digits.
- Text.Lower: folds ASCII letters only. For the `is_promoted` check this is exact, because no non-ASCII character lowers to an ASCII letter of "true". For `icontains` the database's own folding decides, and ASCII folding is what SQLite's `LIKE` does.
- UserSearch.Search: the queryset has no `order_by`, so the first ten matches are taken in table order.
- Serializers.ValidateLogin: `authenticate` with Django's default backend already refuses inactive users, so "User account is disabled." is reachable only with another backend. The model keeps the branch.
- Admin.Display: the admin URL root is a parameter, where Django's `reverse` would compute it.
- Concurrency between requests, and database errors other than the unique constraint on friend requests.
- Two places where the code is followed rather than the design. First, `is_promoted` is a writable `EventSerializer` field, so a client can set it when creating an event. Second, sending a request rejects only an existing request for the same ordered pair. A self-request, a request against an opposite one and a request between friends all go through.
- FriendViews.SendStep: a request for an existing ordered pair is answered with a 500 (`ServerError`). DRF builds no unique-together validator when `from_user` is read only, so the database raises `IntegrityError`. The model does not give the error body.
- FriendViews.CancelStep: the request id is a number. For `cancel`, `FriendRequest.objects.get(pk=pk)` with a non-numeric id raises `ValueError`, which the `DoesNotExist` handler does not catch, so the answer is a 500. `accept` and `decline` look the request up with `get_object`, which answers 404 for such an id. The model cannot express that difference.
- Serializers.ValidatePassword: the value arrives as text or is absent. A JSON `null` ("may not be null") and values of other JSON types (`CharField` turns numbers into text and refuses the rest) are not modelled.
- Admin.DisplayAsWritten: follows `format_html` as Django versions before 6.0 define it. From 6.0 on, calling it without arguments raises `TypeError` whatever the titles.

## Findings

| source | as written | input that shows it | evidently intended | confidence | as-written member | corrected member |
|---|---|---|---|---|---|---|
| PerfectSpot/admin.py:36-38 | the links, with titles pasted in unescaped, go through `format_html` with no arguments, which runs `str.format()` on them | an attended event titled `{x}` (the field raises); `{{` (shown as `{`); `<b>` (rendered as markup) | each title escaped and shown as is, as `format_html('<a href="{}">{}</a>', url, title)` would give | not executed | Admin.DisplayAsWritten (Admin.BraceTitleRaises, Admin.DoubledBraceTitleAltered, Admin.MarkupTitleUnescaped) | Admin.Display (Admin.SafeAttendingEventsDisplay, Admin.EscapeRemovesMarkup, Admin.DisplayAgreesOnPlainTitles) |
