/**
 * cancel_booking.php: deletes one of the user's cart or booked rows. A booked row had taken its
 * tickets from the event, so they are given back; a cart row had not, so nothing else changes.
 */
module CancelBooking {
  import opened Db

  const TokenError := "Invalid security token."
  const InvalidError := "Invalid booking."
  const NotFoundError := "Booking not found."
  /** The page for the user's cart, where a refused request lands. */
  const CartPage := "user/my_cart.php"

  /** Cancelled: the event of the deleted row, whose page event.php?id=... comes next. Rejected: the errors and the page redirected to. */
  datatype Response = Cancelled(event: int) | Rejected(errors: seq<string>, redirect: string)

  /** The request checks, accumulated in this order. */
  function RequestErrors(csrfValid: bool, bookingId: int): (r: seq<string>)
    ensures r == [] <==> csrfValid && bookingId != 0
    ensures TokenError in r <==> !csrfValid
    ensures InvalidError in r <==> bookingId == 0
  {
    (if csrfValid then [] else [TokenError]) + (if bookingId != 0 then [] else [InvalidError])
  }

  /** A row the user may cancel: theirs, and in the cart or booked. */
  predicate Cancellable(b: map<int, Booking>, id: int, user: int) {
    id in b && b[id].user == user && b[id].Active()
  }

  /** Deleting a row keeps every table rule. */
  lemma RemoveKeepsOneActive(b: map<int, Booking>, id: int)
    requires OneActivePerEvent(b)
    ensures OneActivePerEvent(b - {id})
  {
  }

  method CancelBooking(db: Store, user: int, bookingId: int, csrfValid: bool) returns (r: Response)
    requires db.Valid()
    modifies db
    ensures db.Valid()
    ensures db.images == old(db.images) && db.now == old(db.now)
    ensures db.nextBooking == old(db.nextBooking) && db.nextEvent == old(db.nextEvent)
    ensures r.Rejected? ==> db.bookings == old(db.bookings) && db.events == old(db.events)
    ensures !(csrfValid && bookingId != 0) ==> r == Rejected(RequestErrors(csrfValid, bookingId), CartPage)
    // with no row found, $booking is false, which isset() accepts: the redirect has an empty id
    ensures csrfValid && bookingId != 0 && !Cancellable(old(db.bookings), bookingId, user)
      ==> r == Rejected([NotFoundError], "event.php?id=")
    ensures csrfValid && bookingId != 0 && Cancellable(old(db.bookings), bookingId, user) ==>
      var row := old(db.bookings)[bookingId];
      && r == Cancelled(row.event)
      && db.bookings == old(db.bookings) - {bookingId}
      && db.events == if row.status == Booked
                      then old(db.events)[row.event := old(db.events)[row.event].(available := old(db.events)[row.event].available + row.tickets)]
                      else old(db.events)
  {
    var errors: seq<string> := [];
    if !csrfValid {
      errors := errors + [TokenError];
    }
    if bookingId == 0 {
      errors := errors + [InvalidError];
    }
    if errors != [] {
      return Rejected(errors, CartPage);
    }
    if !Cancellable(db.bookings, bookingId, user) {
      return Rejected([NotFoundError], "event.php?id=");
    }
    var row := db.bookings[bookingId];
    if row.status == Booked {
      var ev := db.events[row.event];
      db.events := db.events[row.event := ev.(available := ev.available + row.tickets)];
    }
    RemoveKeepsOneActive(db.bookings, bookingId);
    db.bookings := db.bookings - {bookingId};
    r := Cancelled(row.event);
  }

  /** Cancelling the same row twice: the second request finds no row and changes nothing. */
  method CancelTwice(db: Store, user: int, bookingId: int) returns (first: Response, second: Response)
    requires db.Valid()
    requires bookingId != 0 && Cancellable(db.bookings, bookingId, user)
    modifies db
    ensures first.Cancelled? && second == Rejected([NotFoundError], "event.php?id=")
    ensures bookingId !in db.bookings
    // after both calls the tables are as the first call left them
    ensures db.bookings == old(db.bookings) - {bookingId}
    ensures var row := old(db.bookings)[bookingId];
      db.events == if row.status == Booked
                   then old(db.events)[row.event := old(db.events)[row.event].(available := old(db.events)[row.event].available + row.tickets)]
                   else old(db.events)
  {
    first := CancelBooking(db, user, bookingId, true);
    second := CancelBooking(db, user, bookingId, true);
  }
}
