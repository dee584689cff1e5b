/**
 * payment/process_payment.php: pays for the whole cart at once. After the token and the form
 * fields are checked, every cart row of the user becomes `paid` under one payment reference, and
 * each event's counter drops by the tickets of the row for it, with no check that enough
 * tickets are left.
 */
module ProcessPayment {
  import opened Wrappers
  import Text
  import Php
  import opened Collections
  import opened Db

  const TokenError := "Security error"
  const FieldsError := "Please fill all required fields"
  const EmptyError := "Your cart is empty"

  /** The form fields that must not be empty(), in the order they are checked. */
  const RequiredFields: seq<string> := ["full_name", "email", "phone", "payment_method", "terms"]

  /** Success: the payment reference the user is sent on with. */
  datatype Response = Success(reference: string) | Rejected(error: string)

  /** Every required field of the form is present and not empty(). */
  predicate FieldsFilled(post: map<string, Php.Value>) {
    forall k :: 0 <= k < |RequiredFields| ==> !Php.EmptyAt(post, RequiredFields[k])
  }

  /** The loop over the required fields (lines 23-29): stops at the first empty one. */
  method CheckFields(post: map<string, Php.Value>) returns (ok: bool)
    ensures ok <==> FieldsFilled(post)
  {
    var i := 0;
    while i < |RequiredFields|
      invariant 0 <= i <= |RequiredFields|
      invariant forall k :: 0 <= k < i ==> !Php.EmptyAt(post, RequiredFields[k])
    {
      if Php.EmptyAt(post, RequiredFields[i]) {
        return false;
      }
      i := i + 1;
    }
    return true;
  }

  /** 'PAY_' . date('YmdHis') . '_' . microtime(true) . '_' . user . '_' . rand(100, 999) with the
      dots removed; `stamp`, `micro` and `rnd` are what the three builtins returned. */
  function PaymentReference(stamp: string, micro: string, user: int, rnd: int): (r: string)
    ensures Text.StartsWith(r, "PAY_")
    ensures '.' !in r
    ensures r[4..] == Text.RemoveChar(stamp + "_" + micro + "_" + Text.IntToString(user) + "_" + Text.IntToString(rnd), '.')
  {
    var tail := stamp + "_" + micro + "_" + Text.IntToString(user) + "_" + Text.IntToString(rnd);
    Text.RemoveCharAppend("PAY_", tail, '.');
    assert '.' !in "PAY_";
    Text.RemoveChar("PAY_" + tail, '.')
  }

  /** The bookings table after the cart rows of `user` were paid under `reference`. */
  function PayRows(b: map<int, Booking>, user: int, reference: string): (r: map<int, Booking>)
    ensures r.Keys == b.Keys
    ensures forall id :: id in b && !CartRow(b, id, user) ==> r[id] == b[id]
    ensures forall id :: CartRow(b, id, user) ==> r[id] == b[id].(status := Paid, reference := Some(reference))
    ensures CartIds(r, user) == {}
  {
    map id | id in b :: if CartRow(b, id, user) then b[id].(status := Paid, reference := Some(reference)) else b[id]
  }

  /** The two UPDATE statements on the cart rows (lines 48-53): the first clears their
      reference, the second sets the status and the new reference. */
  method MarkPaid(db: Store, user: int, reference: string)
    requires db.Valid()
    modifies db
    ensures db.Valid()
    ensures db.events == old(db.events) && db.images == old(db.images) && db.now == old(db.now)
    ensures db.nextBooking == old(db.nextBooking) && db.nextEvent == old(db.nextEvent)
    ensures db.bookings == PayRows(old(db.bookings), user, reference)
  {
    ghost var b0 := db.bookings;
    var cleared := map id | id in db.bookings ::
      if CartRow(db.bookings, id, user) then db.bookings[id].(reference := None) else db.bookings[id];
    assert forall id :: id in cleared ==> (CartRow(cleared, id, user) <==> CartRow(b0, id, user));
    var paid := map id | id in cleared ::
      if CartRow(cleared, id, user) then cleared[id].(status := Status.Paid, reference := Some(reference)) else cleared[id];
    assert paid == PayRows(b0, user, reference);
    UpdateAllKeepsOneActive(db.bookings, paid);
    db.bookings := paid;
  }

  /** The loop over the fetched cart rows (lines 57-60): each listed row's event loses its
      tickets, with no guard. `rows` are the rows as the cart query returned them. */
  method DecrementEvents(db: Store, rows: map<int, Booking>, items: seq<int>)
    requires db.Valid()
    requires forall k :: 0 <= k < |items| ==> items[k] in rows
    modifies db
    ensures db.Valid()
    ensures db.bookings == old(db.bookings) && db.images == old(db.images) && db.now == old(db.now)
    ensures db.nextBooking == old(db.nextBooking) && db.nextEvent == old(db.nextEvent)
    ensures db.events == Decrement(old(db.events), rows, items)
  {
    var i := 0;
    while i < |items|
      invariant 0 <= i <= |items|
      invariant db.Valid()
      invariant db.bookings == old(db.bookings) && db.images == old(db.images) && db.now == old(db.now)
      invariant db.nextBooking == old(db.nextBooking) && db.nextEvent == old(db.nextEvent)
      invariant db.events == Decrement(old(db.events), rows, items[..i])
    {
      var row := rows[items[i]];
      if row.event in db.events {
        var ev := db.events[row.event];
        db.events := db.events[row.event := ev.(available := ev.available - row.tickets)];
      }
      assert items[..i + 1][..i] == items[..i];
      i := i + 1;
    }
    assert items[..i] == items;
  }

  /** The success path shared by the cart payment handlers: the two UPDATEs, then the
      unguarded decrement loop over the fetched cart rows. */
  method PayCart(db: Store, user: int, reference: string, items: seq<int>)
    requires db.Valid()
    requires Distinct(items) && CartItems(db.bookings, user, items)
    requires forall id :: id in items <==> CartRow(db.bookings, id, user)
    modifies db
    ensures db.Valid()
    ensures db.images == old(db.images) && db.now == old(db.now)
    ensures db.nextBooking == old(db.nextBooking) && db.nextEvent == old(db.nextEvent)
    ensures db.bookings == PayRows(old(db.bookings), user, reference)
    ensures db.events.Keys == old(db.events).Keys
    ensures forall id :: CartRow(old(db.bookings), id, user) ==>
      var e := old(db.bookings)[id].event;
      db.events[e] == old(db.events)[e].(available := old(db.events)[e].available - old(db.bookings)[id].tickets)
    ensures forall e ::
      (e in old(db.events) && (forall id :: CartRow(old(db.bookings), id, user) ==> old(db.bookings)[id].event != e))
      ==> db.events[e] == old(db.events)[e]
  {
    var rows := db.bookings;
    CartDecrement(rows, db.events, user, items);
    MarkPaid(db, user, reference);
    DecrementEvents(db, rows, items);
  }

  method ProcessPayment(db: Store, user: int, csrfValid: bool, post: map<string, Php.Value>,
                        stamp: string, micro: string, rnd: int) returns (r: Response)
    requires db.Valid()
    modifies db
    ensures db.Valid()
    ensures db.images == old(db.images) && db.now == old(db.now)
    ensures db.nextBooking == old(db.nextBooking) && db.nextEvent == old(db.nextEvent)
    ensures r.Rejected? ==> db.bookings == old(db.bookings) && db.events == old(db.events)
    ensures !csrfValid ==> r == Rejected(TokenError)
    ensures csrfValid && !FieldsFilled(post) ==> r == Rejected(FieldsError)
    ensures csrfValid && FieldsFilled(post) && CartIds(old(db.bookings), user) == {} ==> r == Rejected(EmptyError)
    ensures csrfValid && FieldsFilled(post) && CartIds(old(db.bookings), user) != {} ==>
      && r == Success(PaymentReference(stamp, micro, user, rnd))
      && db.bookings == PayRows(old(db.bookings), user, r.reference)
      && db.events.Keys == old(db.events).Keys
      // each event loses the tickets of the user's cart row for it, however few it had left
      && (forall id :: CartRow(old(db.bookings), id, user) ==>
            var e := old(db.bookings)[id].event;
            db.events[e] == old(db.events)[e].(available := old(db.events)[e].available - old(db.bookings)[id].tickets))
      && (forall e :: e in old(db.events) && (forall id :: CartRow(old(db.bookings), id, user) ==> old(db.bookings)[id].event != e)
            ==> db.events[e] == old(db.events)[e])
  {
    if !csrfValid {
      return Rejected(TokenError);
    }
    var ok := CheckFields(post);
    if !ok {
      return Rejected(FieldsError);
    }
    var reference := PaymentReference(stamp, micro, user, rnd);
    var items := FetchCart(db.bookings, user);
    if |items| == 0 {
      assert CartIds(db.bookings, user) == {};
      return Rejected(EmptyError);
    }
    PayCart(db, user, reference, items);
    r := Success(reference);
  }
}
