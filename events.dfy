/** Creating and deleting events. Creation saves the validated input with the caller
    as creator; deletion is allowed to the creator and to staff. Both answer with the
    `{success, message, data}` envelope. */
module EventViews {
  import opened Seqs
  import opened Models
  import opened Serializers

  /** The writable fields of `EventSerializer` once validated; `isPromoted` is
      absent when the client did not send it. */
  datatype EventInput = EventInput(
    title: string,
    description: string,
    location: string,
    date: DateTime,
    isPromoted: Option<bool>)

  /** `serializer.is_valid()`: the validated data or the field errors. The field
      rules themselves belong to Django REST framework. */
  datatype Validation = Passed(input: EventInput) | Failed(errors: seq<(string, string)>)

  /** The `data` member of the envelope. */
  datatype Payload =
    | Nothing
    | Saved(id: EventId, title: string, description: string, location: string, date: DateTime, isPromoted: bool)
    | Errors(errors: seq<(string, string)>)

  datatype Envelope = Envelope(success: bool, message: string, data: Payload, code: nat)

  datatype Outcome = Outcome(state: State, reply: Envelope)

  const CreatedMessage: string := "Event created successfully."
  const CreationFailedMessage: string := "Event creation failed."
  const EventNotFoundMessage: string := "Event not found."
  const NoPermissionMessage: string := "You do not have permission to delete this event."
  const DeletedMessage: string := "Event deleted successfully."

  /** What `serializer.save(creator=request.user)` stores. */
  function FieldsFor(input: EventInput, caller: User): EventFields {
    EventFields(input.title, input.description, input.location, input.date, caller.id,
                PromotedOrDefault(input.isPromoted))
  }

  /** The fields of the saved event that the success envelope echoes. */
  function Echo(e: Event): Payload {
    Saved(e.id, e.title, e.description, e.location, e.date, e.isPromoted)
  }

  /** `CreateEventView.post`. */
  function CreateStep(s: State, caller: User, v: Validation): Outcome {
    match v
    case Failed(errors) => Outcome(s, Envelope(false, CreationFailedMessage, Errors(errors), 400))
    case Passed(input) =>
      Outcome(AddEventRow(s, FieldsFor(input, caller)),
              Envelope(true, CreatedMessage, Echo(NewEvent(s.nextEventId, FieldsFor(input, caller))), 201))
  }

  /** The guard of `DeleteEventView.delete`. */
  predicate MayDelete(caller: User, e: Event) {
    e.creator == caller.id || caller.isStaff
  }

  /** `DeleteEventView.delete`. */
  function DeleteStep(s: State, caller: User, pk: EventId): Outcome {
    match FindEvent(s.events, pk)
    case None => Outcome(s, Envelope(false, EventNotFoundMessage, Nothing, 404))
    case Some(e) =>
      if !MayDelete(caller, e) then Outcome(s, Envelope(false, NoPermissionMessage, Nothing, 403))
      else Outcome(DeleteEventRows(s, pk), Envelope(true, DeletedMessage, Nothing, 200))
  }

  // ------------------------------------------------------------ lemmas

  /** A valid submission adds exactly one event, created by the caller, without
      attendees, and answers 201 echoing the stored fields; an invalid one answers
      400 with the errors and saves nothing. */
  lemma CreateOutcomes(s: State, caller: User, v: Validation)
    ensures v.Failed? ==>
      CreateStep(s, caller, v) == Outcome(s, Envelope(false, CreationFailedMessage, Errors(v.errors), 400))
    ensures v.Passed? ==>
      var o := CreateStep(s, caller, v);
      && |o.state.events| == |s.events| + 1
      && o.state.events[..|s.events|] == s.events
      && o.state == s.(events := o.state.events, nextEventId := s.nextEventId + 1)
      && var e := o.state.events[|s.events|];
      && e.id == s.nextEventId
      && e.creator == caller.id
      && e.title == v.input.title && e.description == v.input.description
      && e.location == v.input.location && e.date == v.input.date
      && e.isPromoted == (v.input.isPromoted == Some(true))
      && e.attendees == {}
      && o.reply == Envelope(true, CreatedMessage, Saved(e.id, e.title, e.description, e.location, e.date, e.isPromoted), 201)
    ensures CreateStep(s, caller, v).reply.success <==> CreateStep(s, caller, v).reply.code == 201
  {
    if v.Passed? {
      var o := CreateStep(s, caller, v);
      assert o.state.events[..|s.events|] == s.events;
    }
  }

  /** The caller sees the event just created as theirs, with nobody attending yet. */
  lemma CreatedEventIsOwned(s: State, caller: User, input: EventInput)
    ensures var o := CreateStep(s, caller, Passed(input));
      var d := SerializeEvent(o.state.events[|s.events|], SignedIn(caller.id));
      d.isOwner && !d.isAttending && d.attendeesCount == 0
  {
    var e := CreateStep(s, caller, Passed(input)).state.events[|s.events|];
    SerializedEventFlags(e, SignedIn(caller.id));
  }

  lemma CreatePreservesWellFormed(s: State, caller: User, v: Validation)
    requires WellFormed(s) && caller in s.users
    ensures WellFormed(CreateStep(s, caller, v).state)
  {
    if v.Passed? {
      assert HasUser(s.users, caller.id);
      AddEventPreservesValid(s, FieldsFor(v.input, caller));
    }
  }

  /** Deletion: 404 for an unknown id, 403 for a caller who is neither the creator
      nor staff, and otherwise exactly that event goes, with its reviews. */
  lemma DeleteOutcomes(s: State, caller: User, pk: EventId)
    requires WellFormed(s)
    ensures !HasEvent(s.events, pk) ==>
      DeleteStep(s, caller, pk) == Outcome(s, Envelope(false, EventNotFoundMessage, Nothing, 404))
    ensures forall e :: e in s.events && e.id == pk && e.creator != caller.id && !caller.isStaff ==>
      DeleteStep(s, caller, pk) == Outcome(s, Envelope(false, NoPermissionMessage, Nothing, 403))
    ensures forall e :: e in s.events && e.id == pk && (e.creator == caller.id || caller.isStaff) ==>
      var o := DeleteStep(s, caller, pk);
      && o.reply == Envelope(true, DeletedMessage, Nothing, 200)
      && (forall x :: x in o.state.events <==> x in s.events && x != e)
      && (forall rv :: rv in o.state.reviews <==> rv in s.reviews && rv.event != pk)
      && o.state == s.(events := o.state.events, reviews := o.state.reviews)
    ensures DeleteStep(s, caller, pk).reply.success <==> DeleteStep(s, caller, pk).reply.code == 200
  {
  }

  lemma DeletePreservesWellFormed(s: State, caller: User, pk: EventId)
    requires WellFormed(s)
    ensures WellFormed(DeleteStep(s, caller, pk).state)
  {
    DeleteEventPreservesValid(s, pk);
  }

  // -------------------------------------------------------- the views

  /** `CreateEventView.post`. */
  method Create(db: Db, caller: User, v: Validation) returns (reply: Envelope)
    requires db.Valid() && caller in db.users
    modifies db
    ensures db.Valid()
    ensures Outcome(db.Snapshot(), reply) == CreateStep(old(db.Snapshot()), caller, v)
  {
    ghost var s := db.Snapshot();
    CreatePreservesWellFormed(s, caller, v);
    if v.Failed? {
      return Envelope(false, CreationFailedMessage, Errors(v.errors), 400);
    }
    var e := db.InsertEvent(FieldsFor(v.input, caller));
    reply := Envelope(true, CreatedMessage, Echo(e), 201);
  }

  /** `DeleteEventView.delete`. */
  method Delete(db: Db, caller: User, pk: EventId) returns (reply: Envelope)
    requires db.Valid()
    modifies db
    ensures db.Valid()
    ensures Outcome(db.Snapshot(), reply) == DeleteStep(old(db.Snapshot()), caller, pk)
  {
    ghost var s := db.Snapshot();
    DeletePreservesWellFormed(s, caller, pk);
    var found := FindEvent(db.events, pk);
    if found.None? {
      return Envelope(false, EventNotFoundMessage, Nothing, 404);
    }
    if found.value.creator != caller.id && !caller.isStaff {
      return Envelope(false, NoPermissionMessage, Nothing, 403);
    }
    db.DeleteEvent(pk);
    reply := Envelope(true, DeletedMessage, Nothing, 200);
  }
}
