/** The access rule of the chat (`_user_is_allowed`): who may join the room of
    an event. */
module Access {
  import opened Wrappers
  import opened Store

  /** The RSVP status that grants access. */
  const GoingStatus: string := "going"

  /** Raised by the check itself: any lookup error other than a missing event,
      including the import of the attendee model failing. */
  datatype AccessError = LookupFault

  predicate IsHost(db: Db, eventId: nat, user: Identity)
    requires eventId in db.events
  {
    user.Authenticated? && db.events[eventId].host == user.account.pk
  }

  /** An attendee record `(event, user, "going")` exists. An anonymous visitor
      has no primary key, so no record names it. */
  predicate IsGoing(attendees: set<Attendance>, eventId: nat, user: Identity) {
    user.Authenticated? && Attendance(eventId, user.account.pk, GoingStatus) in attendees
  }

  /** `_user_is_allowed(user, event_id)`. `fault` stands for an exception raised
      by the lookups, which the caller treats like a refusal. */
  function UserIsAllowed(db: Db, user: Identity, eventId: nat, fault: bool): (r: Result<bool, AccessError>)
    ensures r.Failure? <==> fault
    ensures !fault && eventId !in db.events ==> r == Success(false)
    ensures !fault && eventId in db.events && IsHost(db, eventId, user) ==> r == Success(true)
    ensures !fault && eventId in db.events && !IsHost(db, eventId, user) ==>
              r == Success(IsGoing(db.attendees, eventId, user))
  {
    if fault then Failure(LookupFault)
    else if eventId !in db.events then Success(false)
    else if IsHost(db, eventId, user) then Success(true)
    else Success(IsGoing(db.attendees, eventId, user))
  }

  /** Access is granted exactly to the host and to "going" attendees of an
      existing event. */
  lemma AllowedIffHostOrGoing(db: Db, user: Identity, eventId: nat)
    ensures UserIsAllowed(db, user, eventId, false) == Success(true) <==>
              eventId in db.events && (IsHost(db, eventId, user) || IsGoing(db.attendees, eventId, user))
  {
  }

  /** An anonymous visitor is never let in, whatever the attendee relation holds. */
  lemma AnonymousDenied(db: Db, eventId: nat, fault: bool)
    ensures UserIsAllowed(db, Anonymous, eventId, fault) != Success(true)
  {
  }

  /** A user whose only record for the event has a status other than "going"
      (say "interested") is denied unless they host the event. */
  lemma OtherStatusDenied(db: Db, account: Account, eventId: nat, status: string)
    requires eventId in db.events && db.events[eventId].host != account.pk
    requires status != GoingStatus
    requires forall a :: a in db.attendees && a.event == eventId && a.user == account.pk ==> a.status == status
    ensures UserIsAllowed(db, Authenticated(account), eventId, false) == Success(false)
  {
  }

  /** Adding attendee records never takes access away. */
  lemma MoreAttendeesKeepAccess(db: Db, extra: set<Attendance>, user: Identity, eventId: nat)
    requires UserIsAllowed(db, user, eventId, false) == Success(true)
    ensures UserIsAllowed(db.(attendees := db.attendees + extra), user, eventId, false) == Success(true)
  {
  }
}
