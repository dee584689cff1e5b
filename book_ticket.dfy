/**
 * book_ticket.php: adding tickets for an event to the user's cart. The request checks
 * accumulate their errors; the event checks stop at the first failure; a user who already has
 * the event in the cart gets the ticket count replaced, one who has it booked is refused, and
 * anyone else gets a new cart row. The events table is only read.
 */
module BookTicket {
  import opened Wrappers
  import Text
  import opened Db

  const TokenError := "Invalid security token."
  const EventError := "Invalid event."
  const CountError := "You can book 1-10 tickets maximum."
  const NotFoundError := "Event not found."
  const StartedError := "This event has already started."
  const AlreadyBookedError := "You have already booked tickets for this event. Complete payment to book again."

  function AvailableError(available: int): string {
    "Only " + Text.IntToString(available) + " tickets available."
  }

  /** What the handler stores in the session: the row it added or updated, or its errors. */
  datatype Response = Added(id: int) | Updated(id: int) | Rejected(errors: seq<string>)

  /** The request checks pass: a valid token, a non-zero event id and 1 to 10 tickets. */
  predicate RequestOk(csrfValid: bool, eventId: int, tickets: int) {
    csrfValid && eventId != 0 && 1 <= tickets <= 10
  }

  /** The errors of the request checks, which accumulate in this order. */
  function RequestErrors(csrfValid: bool, eventId: int, tickets: int): (r: seq<string>)
    ensures r == [] <==> RequestOk(csrfValid, eventId, tickets)
    ensures TokenError in r <==> !csrfValid
    ensures EventError in r <==> eventId == 0
    ensures CountError in r <==> !(1 <= tickets <= 10)
  {
    (if csrfValid then [] else [TokenError])
    + (if eventId != 0 then [] else [EventError])
    + (if 1 <= tickets <= 10 then [] else [CountError])
  }

  /** The event checks pass: the event exists, has enough tickets left and lies in the future. */
  predicate Bookable(events: map<int, Event>, now: int, eventId: int, tickets: int) {
    eventId in events && events[eventId].available >= tickets && events[eventId].date > now
  }

  method BookTicket(db: Store, user: int, eventId: int, tickets: int, csrfValid: bool) returns (r: Response)
    requires db.Valid()
    modifies db
    ensures db.Valid()
    // the events table, the images and the clock never change
    ensures db.events == old(db.events) && db.images == old(db.images)
    ensures db.now == old(db.now) && db.nextEvent == old(db.nextEvent)
    // a refused request changes nothing
    ensures r.Rejected? ==> db.bookings == old(db.bookings) && db.nextBooking == old(db.nextBooking)
    ensures !RequestOk(csrfValid, eventId, tickets) ==> r == Rejected(RequestErrors(csrfValid, eventId, tickets))
    ensures RequestOk(csrfValid, eventId, tickets) && eventId !in old(db.events) ==> r == Rejected([NotFoundError])
    ensures RequestOk(csrfValid, eventId, tickets) && eventId in old(db.events)
      && old(db.events)[eventId].available < tickets
      ==> r == Rejected([AvailableError(old(db.events)[eventId].available)])
    ensures RequestOk(csrfValid, eventId, tickets) && eventId in old(db.events)
      && old(db.events)[eventId].available >= tickets && old(db.events)[eventId].date <= old(db.now)
      ==> r == Rejected([StartedError])
    // with the checks passed: a booked row refuses, a cart row is overwritten, otherwise a row is added
    ensures RequestOk(csrfValid, eventId, tickets) && Bookable(old(db.events), old(db.now), eventId, tickets) ==>
      forall id :: ActiveRow(old(db.bookings), id, user, eventId) && old(db.bookings)[id].status == Booked
        ==> r == Rejected([AlreadyBookedError])
    ensures RequestOk(csrfValid, eventId, tickets) && Bookable(old(db.events), old(db.now), eventId, tickets) ==>
      forall id :: ActiveRow(old(db.bookings), id, user, eventId) && old(db.bookings)[id].status == Cart
        ==> (r == Updated(id) && db.nextBooking == old(db.nextBooking)
             && db.bookings == old(db.bookings)[id := old(db.bookings)[id].(tickets := tickets, updatedAt := old(db.now))])
    ensures RequestOk(csrfValid, eventId, tickets) && Bookable(old(db.events), old(db.now), eventId, tickets)
      && (forall id :: !ActiveRow(old(db.bookings), id, user, eventId))
      ==> (r == Added(old(db.nextBooking)) && db.nextBooking == old(db.nextBooking) + 1
           && old(db.nextBooking) !in old(db.bookings)
           && db.bookings == old(db.bookings)[old(db.nextBooking) := Booking(user, eventId, tickets, Cart, None, 0, old(db.now))])
  {
    var errors: seq<string> := [];
    if !csrfValid {
      errors := errors + [TokenError];
    }
    if eventId == 0 {
      errors := errors + [EventError];
    }
    if tickets < 1 || tickets > 10 {
      errors := errors + [CountError];
    }
    if errors == [] {
      if eventId !in db.events {
        errors := errors + [NotFoundError];
      } else if db.events[eventId].available < tickets {
        errors := errors + [AvailableError(db.events[eventId].available)];
      } else if db.events[eventId].date <= db.now {
        errors := errors + [StartedError];
      }
    }
    var existing: Option<int> := None;
    if errors == [] {
      existing := FindActive(db.bookings, user, eventId);
    }
    if errors == [] {
      if existing.Some? {
        var id := existing.value;
        var row := db.bookings[id];
        if row.status == Booked {
          errors := errors + [AlreadyBookedError];
        } else {
          db.bookings := db.bookings[id := row.(tickets := tickets, updatedAt := db.now)];
          return Updated(id);
        }
      } else {
        var id := db.nextBooking;
        InsertKeepsOneActive(db.bookings, id, Booking(user, eventId, tickets, Cart, None, 0, db.now));
        db.bookings := db.bookings[id := Booking(user, eventId, tickets, Cart, None, 0, db.now)];
        db.nextBooking := db.nextBooking + 1;
        return Added(id);
      }
    }
    return Rejected(errors);
  }
}
