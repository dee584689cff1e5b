/**
 * payment/process_payment_simple.php: the same cart payment as process_payment.php, with a
 * reference made of the timestamp and the user id only. Every cart row becomes `paid` and each
 * event's counter drops by the row's tickets, unguarded.
 */
module ProcessPaymentSimple {
  import Text
  import Php
  import opened Db
  import PP = ProcessPayment

  /** Success: the payment reference the user is sent on with. */
  datatype Response = Success(reference: string) | Rejected(error: string)

  /** 'PAY_' . date('YmdHis') . '_' . user, with `stamp` what date() returned. */
  function SimpleReference(stamp: string, user: int): (r: string)
    ensures Text.StartsWith(r, "PAY_")
    ensures Text.EndsWith(r, "_" + Text.IntToString(user))
    ensures |r| == 5 + |stamp| + |Text.IntToString(user)| && r[4..4 + |stamp|] == stamp
  {
    "PAY_" + stamp + "_" + Text.IntToString(user)
  }

  /** Two users paying at the same second get different references. */
  lemma SimpleReferenceInjective(stamp: string, u1: int, u2: int)
    requires u1 != u2
    ensures SimpleReference(stamp, u1) != SimpleReference(stamp, u2)
  {
    var r1, r2 := SimpleReference(stamp, u1), SimpleReference(stamp, u2);
    assert r1[5 + |stamp|..] == Text.IntToString(u1);
    assert r2[5 + |stamp|..] == Text.IntToString(u2);
    Text.IntToStringInjective(u1, u2);
  }

  method ProcessPaymentSimple(db: Store, user: int, csrfValid: bool, post: map<string, Php.Value>, stamp: string)
    returns (r: Response)
    requires db.Valid()
    modifies db
    ensures db.Valid()
    ensures db.images == old(db.images) && db.now == old(db.now)
    ensures db.nextBooking == old(db.nextBooking) && db.nextEvent == old(db.nextEvent)
    ensures r.Rejected? ==> db.bookings == old(db.bookings) && db.events == old(db.events)
    ensures !csrfValid ==> r == Rejected(PP.TokenError)
    ensures csrfValid && !PP.FieldsFilled(post) ==> r == Rejected(PP.FieldsError)
    ensures csrfValid && PP.FieldsFilled(post) && CartIds(old(db.bookings), user) == {} ==> r == Rejected(PP.EmptyError)
    ensures csrfValid && PP.FieldsFilled(post) && CartIds(old(db.bookings), user) != {} ==>
      && r == Success(SimpleReference(stamp, user))
      && db.bookings == PP.PayRows(old(db.bookings), user, r.reference)
      && db.events.Keys == old(db.events).Keys
      && (forall id :: CartRow(old(db.bookings), id, user) ==>
            var e := old(db.bookings)[id].event;
            db.events[e] == old(db.events)[e].(available := old(db.events)[e].available - old(db.bookings)[id].tickets))
      && (forall e :: e in old(db.events) && (forall id :: CartRow(old(db.bookings), id, user) ==> old(db.bookings)[id].event != e)
            ==> db.events[e] == old(db.events)[e])
  {
    if !csrfValid {
      return Rejected(PP.TokenError);
    }
    var ok := PP.CheckFields(post);
    if !ok {
      return Rejected(PP.FieldsError);
    }
    var reference := SimpleReference(stamp, user);
    var items := FetchCart(db.bookings, user);
    if |items| == 0 {
      assert CartIds(db.bookings, user) == {};
      return Rejected(PP.EmptyError);
    }
    PP.PayCart(db, user, reference, items);
    r := Success(reference);
  }
}
