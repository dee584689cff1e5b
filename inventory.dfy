/**
 * The handlers disagree about the events' ticket counters, and these two request sequences show
 * it on a store with one event of two (respectively ten) tickets.
 */
module Inventory {
  import opened Wrappers
  import Php
  import opened Db
  import BookTicket
  import ConfirmBooking
  import CancelBooking
  import ProcessPayment

  /** A payment form with every required field filled in. */
  const Form: map<string, Php.Value> := map[
    "full_name" := Php.Str("A. User"), "email" := Php.Str("a@example.com"), "phone" := Php.Str("555"),
    "payment_method" := Php.Str("card"), "terms" := Php.Str("on")]

  /** Two users each put both tickets of a two-ticket event in their carts; book_ticket.php
      lets both through, since a cart row does not take tickets from the counter. */
  method TwoCarts() returns (db: Store)
    ensures fresh(db) && db.Valid()
    ensures db.events == map[1 := Event(500, 2, 2, 100, 7, "", "", "")]
    ensures db.bookings == map[1 := Booking(1, 1, 2, Cart, None, 0, 0), 2 := Booking(2, 1, 2, Cart, None, 0, 0)]
  {
    db := new Store(map[1 := Event(500, 2, 2, 100, 7, "", "", "")], 2, 0);
    assert BookTicket.Bookable(db.events, db.now, 1, 2);
    assert forall id :: !ActiveRow(db.bookings, id, 1, 1);
    var added1 := BookTicket.BookTicket(db, 1, 1, 2, true);
    assert db.bookings == map[1 := Booking(1, 1, 2, Cart, None, 0, 0)];
    assert forall id :: !ActiveRow(db.bookings, id, 2, 1);
    var added2 := BookTicket.BookTicket(db, 2, 1, 2, true);
  }

  /** The form above passes the required-fields check. */
  lemma FormFilled()
    ensures ProcessPayment.FieldsFilled(Form)
  {
    assert forall k :: 0 <= k < |ProcessPayment.RequiredFields| ==> ProcessPayment.RequiredFields[k] in Form;
  }

  /** A user with one cart row for event 1 pays; the counter of event 1 drops by its tickets. */
  method PayFor(db: Store, user: int, id: int, micro: string)
    requires db.Valid() && 1 in db.events
    requires CartIds(db.bookings, user) == {id} && db.bookings[id].event == 1
    modifies db
    ensures db.Valid() && 1 in db.events
    ensures db.events[1].available == old(db.events[1].available) - old(db.bookings[id].tickets)
    ensures db.bookings.Keys == old(db.bookings).Keys
    ensures forall i :: i in old(db.bookings) && i != id ==> db.bookings[i] == old(db.bookings)[i]
    ensures db.bookings[id].status == Paid
  {
    FormFilled();
    assert CartRow(db.bookings, id, user);
    var paid := ProcessPayment.ProcessPayment(db, user, true, Form, "20260101000000", micro, 500);
  }

  /** Both users then pay. Payment does not check the counter, which ends at -2. */
  method PaymentOversells() returns (db: Store)
    ensures 1 in db.events && db.events[1].available == -2
  {
    db := TwoCarts();
    assert CartIds(db.bookings, 2) == {2};
    PayFor(db, 2, 2, "1767225600.1234");
    assert db.bookings[1] == Booking(1, 1, 2, Cart, None, 0, 0);
    assert CartIds(db.bookings, 1) == {1};
    PayFor(db, 1, 1, "1767225600.5678");
  }

  /** A user puts two of ten tickets in the cart, confirms them with confirm_booking.php (which
      does not take them from the counter) and cancels (which gives them back): the event then
      has twelve available tickets out of ten. */
  method ConfirmThenCancelInflates() returns (db: Store)
    ensures 1 in db.events && db.events[1].available == 12 && db.events[1].total == 10
  {
    db := new Store(map[1 := Event(500, 10, 10, 100, 7, "", "", "")], 2, 0);
    assert BookTicket.Bookable(db.events, db.now, 1, 2);
    assert forall id :: !ActiveRow(db.bookings, id, 1, 1);
    var added := BookTicket.BookTicket(db, 1, 1, 2, true);
    assert db.bookings == map[1 := Booking(1, 1, 2, Cart, None, 0, 0)];
    assert CartRow(db.bookings, 1, 1);
    var confirmed := ConfirmBooking.ConfirmBooking(db, 1, 1, "65a1b2c3d4e5f");
    assert db.bookings[1].status == Booked && db.events[1].available == 10;
    assert CancelBooking.Cancellable(db.bookings, 1, 1);
    var cancelled := CancelBooking.CancelBooking(db, 1, 1, true);
  }
}
