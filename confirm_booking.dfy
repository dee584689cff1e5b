/**
 * confirm_booking.php: moves one of the user's cart rows to `booked`, giving it a 'BK'
 * reference and its total price. This handler checks availability but does not touch the
 * event's ticket counter.
 */
module ConfirmBooking {
  import opened Wrappers
  import Text
  import opened Db

  const InvalidIdError := "Invalid booking ID."
  const NotFoundError := "Booking not found or already confirmed."

  function AvailableError(available: int): string {
    "Only " + Text.IntToString(available) + " tickets available."
  }

  datatype Response = Confirmed(reference: string) | Rejected(error: string)

  /** 'BK' . strtoupper(uniqid()): the prefix followed by the upper-cased unique id. */
  function Reference(uniqid: string): (r: string)
    ensures Text.StartsWith(r, "BK") && r[2..] == Text.ToUpper(uniqid)
    ensures forall k :: 2 <= k < |r| ==> !('a' <= r[k] <= 'z')
  {
    "BK" + Text.ToUpper(uniqid)
  }

  /** Confirms booking `bookingId` for `user`; `uniqid` is what uniqid() returned. */
  method ConfirmBooking(db: Store, user: int, bookingId: int, uniqid: string) returns (r: Response)
    requires db.Valid()
    modifies db
    ensures db.Valid()
    // no counter, no other table and no other row changes
    ensures db.events == old(db.events) && db.images == old(db.images) && db.now == old(db.now)
    ensures db.nextBooking == old(db.nextBooking) && db.nextEvent == old(db.nextEvent)
    ensures r.Rejected? ==> db.bookings == old(db.bookings)
    ensures bookingId == 0 ==> r == Rejected(InvalidIdError)
    ensures bookingId != 0 && !CartRow(old(db.bookings), bookingId, user) ==> r == Rejected(NotFoundError)
    ensures CartRow(old(db.bookings), bookingId, user) ==>
      var row := old(db.bookings)[bookingId];
      var ev := old(db.events)[row.event];
      if ev.available < row.tickets then
        r == Rejected(AvailableError(ev.available))
      else
        r == Confirmed(Reference(uniqid))
        && db.bookings == old(db.bookings)[bookingId := row.(status := Booked, reference := Some(Reference(uniqid)),
                                                            total := row.tickets * ev.price, updatedAt := old(db.now))]
  {
    if bookingId == 0 {
      return Rejected(InvalidIdError);
    }
    if !CartRow(db.bookings, bookingId, user) {
      return Rejected(NotFoundError);
    }
    var row := db.bookings[bookingId];
    var ev := db.events[row.event];
    if ev.available < row.tickets {
      return Rejected(AvailableError(ev.available));
    }
    var reference := Reference(uniqid);
    var total := row.tickets * ev.price;
    UpdateKeepsOneActive(db.bookings, bookingId, row.(status := Booked, reference := Some(reference), total := total, updatedAt := db.now));
    db.bookings := db.bookings[bookingId := row.(status := Booked, reference := Some(reference), total := total, updatedAt := db.now)];
    r := Confirmed(reference);
  }
}
