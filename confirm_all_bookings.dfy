/**
 * confirm_all_bookings.php: confirms every cart row of the user at once. All items are checked
 * first (enough tickets, event not started); if any fails nothing changes. Otherwise every cart
 * row becomes `booked` and each event's counter drops by the tickets of the row for it.
 */
module ConfirmAllBookings {
  import opened Wrappers
  import opened Collections
  import opened Db

  const TokenError := "Invalid security token."
  const EmptyError := "No cart items to confirm."
  const TicketsError := "Not enough tickets available for some events."
  const StartedError := "One or more events have already started."

  datatype Response = Confirmed(count: nat) | Rejected(error: string)

  /** A cart row that can be confirmed: its event has enough tickets and has not started. */
  predicate Confirmable(b: map<int, Booking>, events: map<int, Event>, now: int, id: int)
    requires id in b && b[id].event in events
  {
    events[b[id].event].available >= b[id].tickets && events[b[id].event].date > now
  }

  /** The bookings table after the listed rows were confirmed at `now`. */
  function ConfirmRows(b: map<int, Booking>, ids: seq<int>, now: int): (r: map<int, Booking>)
    ensures r.Keys == b.Keys
  {
    map id | id in b :: if id in ids then b[id].(status := Booked, updatedAt := now) else b[id]
  }

  /** One more listed row: it becomes booked on top of the earlier ones. */
  lemma ConfirmRowsStep(b: map<int, Booking>, ids: seq<int>, i: nat, now: int)
    requires i < |ids| && ids[i] in b
    ensures ConfirmRows(b, ids[..i + 1], now) == ConfirmRows(b, ids[..i], now)[ids[i] := b[ids[i]].(status := Booked, updatedAt := now)]
  {
    assert ids[..i + 1] == ids[..i] + [ids[i]];
  }

  /** A row of a repeat-free list is not yet confirmed when the loop reaches it. */
  lemma ConfirmRowsUnlisted(b: map<int, Booking>, ids: seq<int>, i: nat, now: int)
    requires Distinct(ids) && i < |ids| && ids[i] in b
    ensures ConfirmRows(b, ids[..i], now)[ids[i]] == b[ids[i]]
  {
    assert ids[i] !in ids[..i];
  }

  /** The validation loop (lines 46-58): the first item that lacks tickets or has started
      decides the error. */
  method CheckItems(db: Store, user: int, items: seq<int>) returns (err: Option<string>)
    requires db.Valid()
    requires CartItems(db.bookings, user, items)
    ensures err.None? <==> forall k :: 0 <= k < |items| ==> Confirmable(db.bookings, db.events, db.now, items[k])
    ensures err.Some? ==> err.value == TicketsError || err.value == StartedError
    ensures err == Some(TicketsError) ==>
      (exists k :: 0 <= k < |items| && db.events[db.bookings[items[k]].event].available < db.bookings[items[k]].tickets)
    ensures err == Some(StartedError) ==>
      (exists k :: 0 <= k < |items| && db.events[db.bookings[items[k]].event].date <= db.now)
  {
    ghost var b, events := db.bookings, db.events;
    assert forall id :: id in b ==> b[id].event in events;
    var i := 0;
    while i < |items|
      invariant 0 <= i <= |items|
      invariant forall k :: 0 <= k < i ==> Confirmable(db.bookings, db.events, db.now, items[k])
    {
      var row := db.bookings[items[i]];
      assert row.event in events;
      if db.events[row.event].available < row.tickets {
        return Some(TicketsError);
      }
      if db.events[row.event].date <= db.now {
        return Some(StartedError);
      }
      i := i + 1;
    }
    return None;
  }

  /** One pass of the update loop: the cart row becomes booked and its event loses its tickets. */
  method ConfirmOne(db: Store, id: int)
    requires db.Valid() && id in db.bookings && db.bookings[id].Active()
    modifies db
    ensures db.Valid()
    ensures db.images == old(db.images) && db.now == old(db.now)
    ensures db.nextBooking == old(db.nextBooking) && db.nextEvent == old(db.nextEvent)
    ensures var row := old(db.bookings)[id];
      && db.bookings == old(db.bookings)[id := row.(status := Booked, updatedAt := old(db.now))]
      && db.events == old(db.events)[row.event := old(db.events)[row.event].(available := old(db.events)[row.event].available - row.tickets)]
  {
    var row := db.bookings[id];
    var confirmed := row.(status := Booked, updatedAt := db.now);
    UpdateKeepsOneActive(db.bookings, id, confirmed);
    db.bookings := db.bookings[id := confirmed];
    var ev := db.events[row.event];
    db.events := db.events[row.event := ev.(available := ev.available - row.tickets)];
  }

  /** The update loop (lines 64-82): each listed cart row becomes booked and its event's
      counter drops by its tickets. */
  method ConfirmItems(db: Store, user: int, items: seq<int>) returns (count: nat)
    requires db.Valid()
    requires Distinct(items) && CartItems(db.bookings, user, items)
    modifies db
    ensures db.Valid()
    ensures count == |items|
    ensures db.images == old(db.images) && db.now == old(db.now)
    ensures db.nextBooking == old(db.nextBooking) && db.nextEvent == old(db.nextEvent)
    ensures db.bookings == ConfirmRows(old(db.bookings), items, old(db.now))
    ensures db.events == Decrement(old(db.events), old(db.bookings), items)
  {
    ghost var b0, e0 := db.bookings, db.events;
    count := 0;
    var i := 0;
    while i < |items|
      invariant 0 <= i <= |items| && count == i
      invariant db.Valid()
      invariant db.images == old(db.images) && db.now == old(db.now)
      invariant db.nextBooking == old(db.nextBooking) && db.nextEvent == old(db.nextEvent)
      invariant db.bookings == ConfirmRows(b0, items[..i], db.now)
      invariant db.events == Decrement(e0, b0, items[..i])
    {
      var id := items[i];
      ConfirmRowsUnlisted(b0, items, i, db.now);
      ConfirmRowsStep(b0, items, i, db.now);
      DecrementStep(e0, b0, items, i);
      ConfirmOne(db, id);
      count := count + 1;
      i := i + 1;
    }
    assert items[..i] == items;
  }

  /** Confirming an enumeration of a cart whose rows all pass the checks: the cart rows and no
      others become booked, and no counter that was not negative becomes negative. */
  lemma CartOutcome(b: map<int, Booking>, events: map<int, Event>, now: int, user: int, items: seq<int>)
    requires OneActivePerEvent(b)
    requires forall id :: id in b ==> b[id].event in events
    requires Distinct(items) && CartItems(b, user, items)
    requires forall id :: id in items <==> CartRow(b, id, user)
    requires forall id :: CartRow(b, id, user) ==> Confirmable(b, events, now, id)
    ensures forall id :: id in b ==>
      ConfirmRows(b, items, now)[id] == if CartRow(b, id, user) then b[id].(status := Booked, updatedAt := now) else b[id]
    ensures forall e :: e in events && events[e].available >= 0 ==> Decrement(events, b, items)[e].available >= 0
  {
    CartDecrement(b, events, user, items);
    var d := Decrement(events, b, items);
    forall e | e in events && events[e].available >= 0 ensures d[e].available >= 0 {
      if k :| 0 <= k < |items| && b[items[k]].event == e {
        assert Confirmable(b, events, now, items[k]);
      }
    }
  }

  /** The success path: every cart row passed the checks, so each becomes booked and each
      event loses the tickets of the cart row for it. */
  method ConfirmCart(db: Store, user: int, items: seq<int>) returns (count: nat)
    requires db.Valid()
    requires Distinct(items) && CartItems(db.bookings, user, items)
    requires forall id :: id in items <==> CartRow(db.bookings, id, user)
    requires forall k :: 0 <= k < |items| ==> Confirmable(db.bookings, db.events, db.now, items[k])
    modifies db
    ensures db.Valid()
    ensures db.images == old(db.images) && db.now == old(db.now)
    ensures db.nextBooking == old(db.nextBooking) && db.nextEvent == old(db.nextEvent)
    ensures count == |CartIds(old(db.bookings), user)|
    ensures db.bookings.Keys == old(db.bookings).Keys && db.events.Keys == old(db.events).Keys
    ensures forall id :: id in old(db.bookings) ==>
      db.bookings[id] == if CartRow(old(db.bookings), id, user)
                         then old(db.bookings)[id].(status := Booked, updatedAt := old(db.now))
                         else old(db.bookings)[id]
    ensures forall id :: CartRow(old(db.bookings), id, user) ==>
      var e := old(db.bookings)[id].event;
      db.events[e] == old(db.events)[e].(available := old(db.events)[e].available - old(db.bookings)[id].tickets)
    ensures forall e ::
      (e in old(db.events) && (forall id :: CartRow(old(db.bookings), id, user) ==> old(db.bookings)[id].event != e))
      ==> db.events[e] == old(db.events)[e]
    ensures forall e :: e in old(db.events) && old(db.events)[e].available >= 0 ==> db.events[e].available >= 0
  {
    ghost var b0, e0, now0 := db.bookings, db.events, db.now;
    forall id | CartRow(b0, id, user) ensures Confirmable(b0, e0, now0, id) {
      var k :| 0 <= k < |items| && items[k] == id;
    }
    DistinctEnumeration(items, CartIds(b0, user));
    CartDecrement(b0, e0, user, items);
    CartOutcome(b0, e0, now0, user, items);
    count := ConfirmItems(db, user, items);
  }

  method ConfirmAllBookings(db: Store, user: int, csrfValid: bool) returns (r: Response)
    requires db.Valid()
    modifies db
    ensures db.Valid()
    ensures db.images == old(db.images) && db.now == old(db.now)
    ensures db.nextBooking == old(db.nextBooking) && db.nextEvent == old(db.nextEvent)
    // all or nothing
    ensures r.Rejected? ==> db.bookings == old(db.bookings) && db.events == old(db.events)
    ensures !csrfValid ==> r == Rejected(TokenError)
    ensures csrfValid && CartIds(old(db.bookings), user) == {} ==> r == Rejected(EmptyError)
    ensures r == Rejected(TicketsError) ==>
      (exists id :: CartRow(old(db.bookings), id, user)
        && old(db.events)[old(db.bookings)[id].event].available < old(db.bookings)[id].tickets)
    ensures r == Rejected(StartedError) ==>
      (exists id :: CartRow(old(db.bookings), id, user)
        && old(db.events)[old(db.bookings)[id].event].date <= old(db.now))
    ensures csrfValid && CartIds(old(db.bookings), user) != {} ==>
      (r.Confirmed? <==> forall id :: CartRow(old(db.bookings), id, user) ==> Confirmable(old(db.bookings), old(db.events), old(db.now), id))
    // on success: the count, the rows and the counters
    ensures r.Confirmed? ==> r.count == |CartIds(old(db.bookings), user)|
    ensures r.Confirmed? ==> db.bookings.Keys == old(db.bookings).Keys && db.events.Keys == old(db.events).Keys
    ensures r.Confirmed? ==> forall id :: id in old(db.bookings) ==>
      db.bookings[id] == if CartRow(old(db.bookings), id, user)
                         then old(db.bookings)[id].(status := Booked, updatedAt := old(db.now))
                         else old(db.bookings)[id]
    ensures r.Confirmed? ==> forall id :: CartRow(old(db.bookings), id, user) ==>
      var e := old(db.bookings)[id].event;
      db.events[e] == old(db.events)[e].(available := old(db.events)[e].available - old(db.bookings)[id].tickets)
    ensures r.Confirmed? ==> forall e ::
      (e in old(db.events) && (forall id :: CartRow(old(db.bookings), id, user) ==> old(db.bookings)[id].event != e))
      ==> db.events[e] == old(db.events)[e]
    // the checks keep every counter that was not negative from becoming negative
    ensures forall e :: e in old(db.events) && old(db.events)[e].available >= 0 ==> db.events[e].available >= 0
  {
    if !csrfValid {
      return Rejected(TokenError);
    }
    var items := FetchCart(db.bookings, user);
    if |items| == 0 {
      assert CartIds(db.bookings, user) == {};
      return Rejected(EmptyError);
    }
    var err := CheckItems(db, user, items);
    if err.Some? {
      return Rejected(err.value);
    }
    var count := ConfirmCart(db, user, items);
    r := Confirmed(count);
  }
}
