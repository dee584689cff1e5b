/**
 * user/clear_cart.php: deletes every cart row of the user in one statement. Booked and paid
 * rows, other users' rows and the events table stay as they are.
 */
module ClearCart {
  import opened Db

  const TokenError := "Security error. Please try again."
  const EmptyError := "Your cart is already empty"

  /** Cleared: the number of deleted rows. */
  datatype Response = Cleared(count: nat) | Rejected(error: string)

  /** The bookings table without the cart rows of `user`. */
  function WithoutCart(b: map<int, Booking>, user: int): (r: map<int, Booking>)
    ensures forall id :: id in r <==> id in b && !CartRow(b, id, user)
    ensures forall id :: id in r ==> r[id] == b[id]
    ensures CartIds(r, user) == {}
  {
    map id | id in b && !CartRow(b, id, user) :: b[id]
  }

  /** Deleting rows keeps every table rule. */
  lemma SubmapKeepsOneActive(b: map<int, Booking>, r: map<int, Booking>)
    requires OneActivePerEvent(b)
    requires forall id :: id in r ==> id in b && r[id] == b[id]
    ensures OneActivePerEvent(r)
  {
  }

  method ClearCart(db: Store, user: int, csrfValid: bool) returns (r: Response)
    requires db.Valid()
    modifies db
    ensures db.Valid()
    // no counter, image or id sequence changes
    ensures db.events == old(db.events) && db.images == old(db.images) && db.now == old(db.now)
    ensures db.nextBooking == old(db.nextBooking) && db.nextEvent == old(db.nextEvent)
    ensures r.Rejected? ==> db.bookings == old(db.bookings)
    ensures !csrfValid ==> r == Rejected(TokenError)
    ensures csrfValid && CartIds(old(db.bookings), user) == {} ==> r == Rejected(EmptyError)
    ensures csrfValid && CartIds(old(db.bookings), user) != {} ==>
      && r == Cleared(|CartIds(old(db.bookings), user)|)
      && db.bookings == WithoutCart(old(db.bookings), user)
  {
    if !csrfValid {
      return Rejected(TokenError);
    }
    var count := |CartIds(db.bookings, user)|;
    if count == 0 {
      return Rejected(EmptyError);
    }
    SubmapKeepsOneActive(db.bookings, WithoutCart(db.bookings, user));
    db.bookings := WithoutCart(db.bookings, user);
    r := Cleared(count);
  }
}
