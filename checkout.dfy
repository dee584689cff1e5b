/**
 * payment/checkout.php (lines 11-45 and the demo payment form): looks up one booked row of the
 * user and computes the amount due, which the payment form then carries together with the id.
 */
module Checkout {
  import opened Wrappers
  import Text
  import opened Db
  import Php
  import PPF = ProcessPaymentFixed
  import PP = ProcessPayment

  const NoBookingError := "No booking specified for payment."
  const NotFoundError := "Booking not found or not ready for payment."

  /** The hidden fields of the demo payment form. */
  datatype Form = Form(paymentMethod: string, bookingIds: string, totalAmount: int)

  /** Ready: the row, the amount due and the form; Refused: the message for my_cart.php. */
  datatype Page = Ready(booking: Booking, amount: int, form: Form) | Refused(message: string)

  /** The amount due: the stored total when positive, else tickets times the event's price. */
  function AmountDue(row: Booking, price: int): (amount: int)
    ensures row.total > 0 ==> amount == row.total
    ensures row.total <= 0 ==> amount == row.tickets * price
    ensures row.total > 0 || (row.tickets >= 0 && price >= 0) ==> amount >= 0
  {
    if row.total > 0 then row.total else row.tickets * price
  }

  /** `bookingId` is (int) $_GET['booking_id'], 0 when absent. */
  function Checkout(b: map<int, Booking>, events: map<int, Event>, user: int, bookingId: int): (p: Page)
    ensures bookingId == 0 ==> p == Refused(NoBookingError)
    ensures bookingId != 0 && !(PPF.Payable(b, user, bookingId) && b[bookingId].event in events) ==> p == Refused(NotFoundError)
    ensures p.Ready? <==> bookingId != 0 && PPF.Payable(b, user, bookingId) && b[bookingId].event in events
    ensures p.Ready? ==>
      && p.booking == b[bookingId]
      && p.amount == AmountDue(b[bookingId], events[b[bookingId].event].price)
      && p.form == Form("demo", Text.IntToString(bookingId), p.amount)
  {
    if bookingId == 0 then Refused(NoBookingError)
    else if !(PPF.Payable(b, user, bookingId) && b[bookingId].event in events) then Refused(NotFoundError)
    else
      var row := b[bookingId];
      var amount := AmountDue(row, events[row.event].price);
      Ready(row, amount, Form("demo", Text.IntToString(bookingId), amount))
  }

  /** The form of a ready checkout names exactly its booking, and that booking passes the tests
      of payment/process_payment_fixed.php: a single owned booked row. */
  lemma CheckoutFormPays(b: map<int, Booking>, events: map<int, Event>, user: int, bookingId: int)
    requires Text.MinInt64 <= bookingId <= Text.MaxInt64
    requires Checkout(b, events, user, bookingId).Ready?
    ensures PPF.ParseBookingIds(Checkout(b, events, user, bookingId).form.bookingIds) == [bookingId]
    ensures PPF.AllPayable(b, user, PPF.ParseBookingIds(Checkout(b, events, user, bookingId).form.bookingIds))
    ensures PPF.RequestErrors(true, Checkout(b, events, user, bookingId).form.paymentMethod, [bookingId]) == []
  {
    PPF.ParseOneId(bookingId);
  }

  /** What the page's two payment forms post to payment/process_payment.php: the demo form's
      hidden fields (line 97), or the card form built by processStripePayment (line 155), which
      sends "stripe" as the method and adds a stripe_token. */
  function Posted(f: Form, csrf: string, stripeToken: Option<string>): map<string, Php.Value> {
    var fields := map["payment_method" := Php.Str(if stripeToken.Some? then "stripe" else f.paymentMethod),
                      "booking_ids" := Php.Str(f.bookingIds),
                      "total_amount" := Php.Str(Text.IntToString(f.totalAmount)),
                      "csrf_token" := Php.Str(csrf)];
    if stripeToken.Some? then fields["stripe_token" := Php.Str(stripeToken.value)] else fields
  }

  /** Neither form gets past the required-fields test of payment/process_payment.php, the
      handler both post to: they carry no full_name, email, phone or terms, so that handler
      answers with its "Please fill all required fields" error whatever the booking. */
  lemma CheckoutFormMissesFields(f: Form, csrf: string, stripeToken: Option<string>)
    ensures forall k :: 0 <= k < |PP.RequiredFields| && PP.RequiredFields[k] != "payment_method" ==>
      PP.RequiredFields[k] !in Posted(f, csrf, stripeToken)
    ensures !PP.FieldsFilled(Posted(f, csrf, stripeToken))
  {
    assert Php.EmptyAt(Posted(f, csrf, stripeToken), PP.RequiredFields[0]);
  }
}
