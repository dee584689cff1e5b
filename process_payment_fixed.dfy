/**
 * payment/process_payment_fixed.php: pays for a listed set of booked rows. The comma-separated
 * `booking_ids` field is parsed with intval, dropping zeros; the test methods report success
 * without touching anything; otherwise every listed id must be a booked row of the user, and
 * then exactly those rows become `paid`. The events table is never written.
 */
module ProcessPaymentFixed {
  import Text
  import opened Collections
  import opened Db
  import ConfirmBooking

  const TokenError := "Invalid security token."
  const NoBookingsError := "No bookings to process."
  const NotFoundMessage := "Payment processing failed: Some bookings not found or invalid status."

  function MethodError(paymentMethod: string): string {
    "Invalid payment method: " + paymentMethod
  }

  /** The methods the handler accepts. */
  const Methods: set<string> := {"stripe", "demo", "test", "js_test"}

  /** TestSuccess and Success carry the references stored for the success page. */
  datatype Response =
    | TestSuccess(references: seq<string>)
    | Success(references: seq<string>)
    | Failed(message: string)
    | Rejected(errors: seq<string>)

  // ---------------------------------------------------------------------------------------------
  // array_filter(array_map('intval', explode(',', $booking_ids)))
  // ---------------------------------------------------------------------------------------------

  /** array_filter on integers: drops the zeros and keeps the rest in order. */
  function NonZero(xs: seq<int>): (r: seq<int>)
    ensures 0 !in r
    ensures |r| <= |xs|
    ensures forall x :: x in r <==> x in xs && x != 0
    ensures 0 !in xs ==> r == xs
    decreases |xs|
  {
    if |xs| == 0 then []
    else if xs[0] == 0 then NonZero(xs[1..])
    else [xs[0]] + NonZero(xs[1..])
  }

  /** intval of every piece. */
  function IntVals(parts: seq<string>): (r: seq<int>)
    ensures |r| == |parts| && forall k :: 0 <= k < |parts| ==> r[k] == Text.IntVal(parts[k])
  {
    seq(|parts|, k requires 0 <= k < |parts| => Text.IntVal(parts[k]))
  }

  /** The booking ids a raw `booking_ids` field names. */
  function ParseBookingIds(raw: string): seq<int> {
    NonZero(IntVals(Text.Explode(raw, ',')))
  }

  /** A value is among the intval results exactly when some piece reads as it. */
  lemma IntValsMembers(parts: seq<string>, x: int)
    ensures x in IntVals(parts) <==> exists k :: 0 <= k < |parts| && Text.IntVal(parts[k]) == x
  {
    var vals := IntVals(parts);
    if x in vals {
      var k :| 0 <= k < |vals| && vals[k] == x;
      assert Text.IntVal(parts[k]) == x;
    }
  }

  /** A comma-separated id list, as the payment forms send it in `booking_ids`. */
  function IdsField(ids: seq<int>): string
    requires |ids| >= 1
  {
    Text.Join(seq(|ids|, k requires 0 <= k < |ids| => Text.IntToString(ids[k])), ',')
  }

  /** Parsing a printed list of non-zero 64-bit ids gives the list back. */
  lemma ParseIdsField(ids: seq<int>)
    requires |ids| >= 1
    requires forall k :: 0 <= k < |ids| ==> ids[k] != 0 && Text.MinInt64 <= ids[k] <= Text.MaxInt64
    ensures ParseBookingIds(IdsField(ids)) == ids
  {
    var strs := seq(|ids|, k requires 0 <= k < |ids| => Text.IntToString(ids[k]));
    forall k | 0 <= k < |strs| ensures ',' !in strs[k] {
      Text.IntToStringDigits(ids[k]);
    }
    Text.ExplodeJoin(strs, ',');
    forall k | 0 <= k < |ids| ensures IntVals(strs)[k] == ids[k] {
      Text.IntValIntToString(ids[k]);
    }
    assert IntVals(strs) == ids;
  }

  /** The single id checkout.php puts in its payment form is read back as itself. */
  lemma ParseOneId(id: int)
    requires id != 0 && Text.MinInt64 <= id <= Text.MaxInt64
    ensures ParseBookingIds(Text.IntToString(id)) == [id]
  {
    ParseIdsField([id]);
    assert IdsField([id]) == Text.IntToString(id);
  }

  // ---------------------------------------------------------------------------------------------
  // The handler
  // ---------------------------------------------------------------------------------------------

  /** 'test' and 'js_test' skip the payment. */
  predicate TestMethod(paymentMethod: string) {
    paymentMethod == "test" || paymentMethod == "js_test"
  }

  /** The request checks, accumulated in this order. */
  function RequestErrors(csrfValid: bool, paymentMethod: string, ids: seq<int>): (r: seq<string>)
    ensures r == [] <==> csrfValid && paymentMethod in Methods && ids != []
    ensures TokenError in r <==> !csrfValid
    ensures MethodError(paymentMethod) in r <==> paymentMethod !in Methods
    ensures NoBookingsError in r <==> ids == []
  {
    assert MethodError(paymentMethod)[8] == 'p' && TokenError[8] == 's' && NoBookingsError[8] == 'n';
    (if csrfValid then [] else [TokenError])
    + (if paymentMethod in Methods then [] else [MethodError(paymentMethod)])
    + (if ids != [] then [] else [NoBookingsError])
  }

  /** A booked row of `user`: the rows the handler may pay for. */
  predicate Payable(b: map<int, Booking>, user: int, id: int) {
    id in b && b[id].user == user && b[id].status == Booked
  }

  /** SELECT ... WHERE ub.id IN (...) AND ub.user_id = ? AND ub.status = 'booked', in some order:
      each such row once. */
  method FetchListed(b: map<int, Booking>, user: int, ids: seq<int>) returns (rows: seq<int>)
    ensures forall id :: id in rows <==> id in ids && Payable(b, user, id)
    ensures Distinct(rows)
    ensures |rows| == |set id | id in Elems(ids) && Payable(b, user, id)|
  {
    var wanted := set id | id in Elems(ids) && Payable(b, user, id);
    var rest := wanted;
    rows := [];
    while rest != {}
      invariant rest <= wanted
      invariant forall id :: id in rows || id in rest <==> id in wanted
      invariant forall id :: id in rows ==> id !in rest
      invariant Distinct(rows)
      decreases rest
    {
      var id :| id in rest;
      rows := rows + [id];
      rest := rest - {id};
    }
    assert forall id :: id in rows <==> id in wanted;
    DistinctEnumeration(rows, wanted);
  }

  /** The count test of line 72 passes exactly when the list has no repeated id and every listed
      id is a booked row of the user. */
  lemma CountTest(b: map<int, Booking>, user: int, ids: seq<int>)
    ensures |set id | id in Elems(ids) && Payable(b, user, id)| == |ids| <==> AllPayable(b, user, ids)
  {
    var found := set id | id in Elems(ids) && Payable(b, user, id);
    FoundAll(ids, found);
    if Elems(ids) <= found {
      forall k | 0 <= k < |ids| ensures Payable(b, user, ids[k]) {
        assert ids[k] in Elems(ids);
      }
    }
    if forall k :: 0 <= k < |ids| ==> Payable(b, user, ids[k]) {
      forall id | id in Elems(ids) ensures id in found {
        var k :| 0 <= k < |ids| && ids[k] == id;
      }
    }
  }

  /** The references loop (lines 77-80): one 'BK' reference per fetched row, `uniqid(k)` being
      what the k-th call of uniqid() returned. */
  method References(count: nat, uniqid: nat -> string) returns (refs: seq<string>)
    ensures |refs| == count
    ensures forall k :: 0 <= k < count ==> refs[k] == ConfirmBooking.Reference(uniqid(k))
  {
    refs := [];
    var k := 0;
    while k < count
      invariant 0 <= k <= count && |refs| == k
      invariant forall j :: 0 <= j < k ==> refs[j] == ConfirmBooking.Reference(uniqid(j))
    {
      refs := refs + [ConfirmBooking.Reference(uniqid(k))];
      k := k + 1;
    }
  }

  /** The UPDATE of lines 84-89: the listed booked rows become paid. */
  method MarkListedPaid(db: Store, ids: seq<int>)
    requires db.Valid()
    modifies db
    ensures db.Valid()
    ensures db.events == old(db.events) && db.images == old(db.images) && db.now == old(db.now)
    ensures db.nextBooking == old(db.nextBooking) && db.nextEvent == old(db.nextEvent)
    ensures db.bookings.Keys == old(db.bookings).Keys
    ensures forall id :: id in old(db.bookings) ==>
      db.bookings[id] == if id in ids && old(db.bookings)[id].status == Booked
                         then old(db.bookings)[id].(status := Paid, updatedAt := old(db.now))
                         else old(db.bookings)[id]
  {
    var paid := map id | id in db.bookings ::
      if id in ids && db.bookings[id].status == Booked then db.bookings[id].(status := Paid, updatedAt := db.now)
      else db.bookings[id];
    UpdateAllKeepsOneActive(db.bookings, paid);
    db.bookings := paid;
  }

  /** Every listed id is a booked row of `user`, and none is listed twice. */
  predicate AllPayable(b: map<int, Booking>, user: int, ids: seq<int>) {
    Distinct(ids) && forall k :: 0 <= k < |ids| ==> Payable(b, user, ids[k])
  }

  /** What the handler promises for the parsed id list `ids`, from the rows `b` before and `b'`
      after the request. */
  ghost predicate Outcome(b: map<int, Booking>, b': map<int, Booking>, now: int, user: int, csrfValid: bool,
                          paymentMethod: string, ids: seq<int>, uniqid: nat -> string, r: Response)
  {
    && (!r.Success? ==> b' == b)
    // the test methods succeed whatever else was wrong
    && (TestMethod(paymentMethod) ==> r == TestSuccess(["TEST_" + Text.IntToString(now)]))
    && (!TestMethod(paymentMethod) && RequestErrors(csrfValid, paymentMethod, ids) != [] ==>
          r == Rejected(RequestErrors(csrfValid, paymentMethod, ids)))
    && (!TestMethod(paymentMethod) && RequestErrors(csrfValid, paymentMethod, ids) == [] && !AllPayable(b, user, ids) ==>
          r == Failed(NotFoundMessage))
    && (!TestMethod(paymentMethod) && RequestErrors(csrfValid, paymentMethod, ids) == [] && AllPayable(b, user, ids) ==>
          && r.Success?
          && |r.references| == |ids|
          && (forall k :: 0 <= k < |ids| ==> r.references[k] == ConfirmBooking.Reference(uniqid(k)))
          && b'.Keys == b.Keys
          && (forall id :: id in b ==> b'[id] == if id in ids then b[id].(status := Paid, updatedAt := now) else b[id]))
  }

  /** The handler after the id list was parsed (lines 28-119). */
  method PayListed(db: Store, user: int, csrfValid: bool, paymentMethod: string, ids: seq<int>,
                   uniqid: nat -> string) returns (r: Response)
    requires db.Valid()
    modifies db
    ensures db.Valid()
    // no counter ever changes, and neither does anything but the bookings
    ensures db.events == old(db.events) && db.images == old(db.images) && db.now == old(db.now)
    ensures db.nextBooking == old(db.nextBooking) && db.nextEvent == old(db.nextEvent)
    ensures Outcome(old(db.bookings), db.bookings, old(db.now), user, csrfValid, paymentMethod, ids, uniqid, r)
  {
    var errors: seq<string> := [];
    if !csrfValid {
      errors := errors + [TokenError];
    }
    if paymentMethod !in Methods {
      errors := errors + [MethodError(paymentMethod)];
    }
    if ids == [] {
      errors := errors + [NoBookingsError];
    }
    if TestMethod(paymentMethod) {
      return TestSuccess(["TEST_" + Text.IntToString(db.now)]);
    }
    if errors != [] {
      return Rejected(errors);
    }
    var rows := FetchListed(db.bookings, user, ids);
    CountTest(db.bookings, user, ids);
    if |rows| != |ids| {
      return Failed(NotFoundMessage);
    }
    var refs := References(|rows|, uniqid);
    ghost var b0 := db.bookings;
    MarkListedPaid(db, ids);
    assert forall id :: id in ids ==> Payable(b0, user, id);
    r := Success(refs);
  }

  /** `paymentMethod` and `rawIds` are the form fields (missing ones read as ""). */
  method ProcessPaymentFixed(db: Store, user: int, csrfValid: bool, paymentMethod: string, rawIds: string,
                             uniqid: nat -> string) returns (r: Response)
    requires db.Valid()
    modifies db
    ensures db.Valid()
    ensures db.events == old(db.events) && db.images == old(db.images) && db.now == old(db.now)
    ensures db.nextBooking == old(db.nextBooking) && db.nextEvent == old(db.nextEvent)
    ensures Outcome(old(db.bookings), db.bookings, old(db.now), user, csrfValid, paymentMethod,
                    ParseBookingIds(rawIds), uniqid, r)
  {
    var ids := ParseBookingIds(rawIds);
    r := PayListed(db, user, csrfValid, paymentMethod, ids, uniqid);
  }
}
