/**
 * The transition logic of confirm_booking_debug.php (lines 51-121): a cart row of the user
 * becomes `booked` and, in the same transaction, the event's counter is decreased by the
 * row's tickets under the guard `available_tickets >= tickets_requested`. Any failed check
 * leaves both tables as they were.
 */
module ConfirmBookingDebug {
  import opened Wrappers
  import opened Db

  datatype Response =
    | Confirmed
    | InvalidId
    | NotFound
    | NotInCart(status: Status)
    | NotEnoughTickets(available: int, requested: int)
    | Started

  method ConfirmBookingDebug(db: Store, user: int, bookingId: int) returns (r: Response)
    requires db.Valid()
    modifies db
    ensures db.Valid()
    ensures db.images == old(db.images) && db.now == old(db.now)
    ensures db.nextBooking == old(db.nextBooking) && db.nextEvent == old(db.nextEvent)
    // a failed check rolls everything back
    ensures !r.Confirmed? ==> db.bookings == old(db.bookings) && db.events == old(db.events)
    ensures bookingId == 0 ==> r == InvalidId
    ensures bookingId != 0 && !(bookingId in old(db.bookings) && old(db.bookings)[bookingId].user == user) ==> r == NotFound
    ensures bookingId != 0 && bookingId in old(db.bookings) && old(db.bookings)[bookingId].user == user ==>
      var row := old(db.bookings)[bookingId];
      var ev := old(db.events)[row.event];
      && (row.status != Cart ==> r == NotInCart(row.status))
      && (row.status == Cart && ev.available < row.tickets ==> r == NotEnoughTickets(ev.available, row.tickets))
      && (row.status == Cart && ev.available >= row.tickets && ev.date <= old(db.now) ==> r == Started)
      && (r == Confirmed <==> row.status == Cart && ev.available >= row.tickets && ev.date > old(db.now))
      && (r == Confirmed ==>
            db.bookings == old(db.bookings)[bookingId := row.(status := Booked, updatedAt := old(db.now))]
            && db.events == old(db.events)[row.event := ev.(available := ev.available - row.tickets)])
    // the guarded decrement never drives a counter below zero
    ensures forall e :: e in old(db.events) && old(db.events)[e].available >= 0 ==> db.events[e].available >= 0
    ensures db.events.Keys == old(db.events).Keys
  {
    if bookingId == 0 {
      return InvalidId;
    }
    if !(bookingId in db.bookings && db.bookings[bookingId].user == user) {
      return NotFound;
    }
    var row := db.bookings[bookingId];
    var ev := db.events[row.event];
    if row.status != Cart {
      return NotInCart(row.status);
    }
    if ev.available < row.tickets {
      return NotEnoughTickets(ev.available, row.tickets);
    }
    if ev.date <= db.now {
      return Started;
    }
    // UPDATE user_bookings SET status = 'booked' WHERE id = ? AND status = 'cart'
    UpdateKeepsOneActive(db.bookings, bookingId, row.(status := Booked, updatedAt := db.now));
    db.bookings := db.bookings[bookingId := row.(status := Booked, updatedAt := db.now)];
    // UPDATE events SET available_tickets = available_tickets - ? WHERE id = ? AND available_tickets >= ?
    db.events := db.events[row.event := ev.(available := ev.available - row.tickets)];
    r := Confirmed;
  }
}
