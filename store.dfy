/**
 * The two tables the booking handlers work on, `user_bookings` and `events`, with the
 * `event_images` table that event creation fills, held in one object whose fields the handlers
 * update in place. Money is in integer cents and times are Unix seconds.
 */
module Db {
  import opened Wrappers
  import opened Collections

  /** The life cycle of a user_bookings row: cart, then booked, then paid (or deleted). */
  datatype Status = Cart | Booked | Paid

  /** A user_bookings row. A NULL reference is None; a NULL total_amount is 0. */
  datatype Booking = Booking(
    user: int,
    event: int,
    tickets: int,
    status: Status,
    reference: Option<string>,
    total: int,
    updatedAt: int)
  {
    /** In the cart or booked: a row that a user may hold only one of per event. */
    predicate Active() {
      status == Cart || status == Booked
    }
  }

  /** An events row: price in cents, total and available ticket counts, date, organizer, and
      the descriptive columns. */
  datatype Event = Event(price: int, total: int, available: int, date: int, organizer: int,
                         title: string, description: string, venue: string)

  /** An event_images row. */
  datatype EventImage = EventImage(event: int, url: string, displayOrder: int)

  /** `id` is a row of `user` for `event` that is in the cart or booked. */
  predicate ActiveRow(b: map<int, Booking>, id: int, user: int, event: int) {
    id in b && b[id].user == user && b[id].event == event && b[id].Active()
  }

  /** `id` is a cart row of `user`. */
  predicate CartRow(b: map<int, Booking>, id: int, user: int) {
    id in b && b[id].user == user && b[id].status == Cart
  }

  /** Every listed id is a cart row of `user`. */
  predicate CartItems(b: map<int, Booking>, user: int, items: seq<int>) {
    forall k :: 0 <= k < |items| ==> items[k] in b && b[items[k]].user == user && b[items[k]].status == Cart
  }

  /** The ids of the cart rows of `user`. */
  function CartIds(b: map<int, Booking>, user: int): (r: set<int>)
    ensures forall id :: id in r <==> CartRow(b, id, user)
  {
    set id | id in b && CartRow(b, id, user)
  }

  /** No user holds two cart-or-booked rows for the same event. */
  ghost predicate OneActivePerEvent(b: map<int, Booking>) {
    forall i, j :: i in b && j in b && i != j && b[i].user == b[j].user && b[i].event == b[j].event
      ==> !(b[i].Active() && b[j].Active())
  }

  /** Adding a row keeps the rule when its user has no cart-or-booked row for its event yet. */
  lemma InsertKeepsOneActive(b: map<int, Booking>, id: int, row: Booking)
    requires OneActivePerEvent(b) && id !in b
    requires forall j :: !ActiveRow(b, j, row.user, row.event)
    ensures OneActivePerEvent(b[id := row])
  {
    var b' := b[id := row];
    forall i, j | i in b' && j in b' && i != j && b'[i].user == b'[j].user && b'[i].event == b'[j].event
      ensures !(b'[i].Active() && b'[j].Active())
    {
      if i == id {
        assert !ActiveRow(b, j, row.user, row.event);
      } else if j == id {
        assert !ActiveRow(b, i, row.user, row.event);
      }
    }
  }

  /** Changing a row without changing its user or event, and without making it active, keeps the rule. */
  lemma UpdateKeepsOneActive(b: map<int, Booking>, id: int, row: Booking)
    requires OneActivePerEvent(b) && id in b
    requires row.user == b[id].user && row.event == b[id].event
    requires row.Active() ==> b[id].Active()
    ensures OneActivePerEvent(b[id := row])
  {
  }

  /** Changing rows without changing their users or events, and without making any of them
      active, keeps the rule. */
  lemma UpdateAllKeepsOneActive(b: map<int, Booking>, r: map<int, Booking>)
    requires OneActivePerEvent(b) && r.Keys == b.Keys
    requires forall id :: id in r ==> r[id].user == b[id].user && r[id].event == b[id].event
    requires forall id :: id in r && r[id].Active() ==> b[id].Active()
    ensures OneActivePerEvent(r)
  {
  }

  /** The tables of the application, updated in place by the handlers. */
  class Store {
    var bookings: map<int, Booking>
    var events: map<int, Event>
    var images: seq<EventImage>
    /** The clock, time() and CURRENT_TIMESTAMP. */
    var now: int
    /** The next values of the id sequences of user_bookings and events. */
    var nextBooking: int
    var nextEvent: int

    /** What every handler keeps: ids below their sequences, every booking's event exists, and
        at most one cart-or-booked row per user and event. */
    ghost predicate Valid()
      reads this
    {
      && 1 <= nextBooking && 1 <= nextEvent
      && (forall id :: id in bookings ==> 1 <= id < nextBooking)
      && (forall id :: id in events ==> 1 <= id < nextEvent)
      && (forall id :: id in bookings ==> bookings[id].event in events)
      && OneActivePerEvent(bookings)
    }

    /** A database holding the given events and no bookings yet. */
    constructor (events: map<int, Event>, nextEvent: int, now: int)
      requires 1 <= nextEvent
      requires forall id :: id in events ==> 1 <= id < nextEvent
      ensures Valid()
      ensures this.bookings == map[] && this.events == events && this.images == []
      ensures this.now == now && this.nextEvent == nextEvent && this.nextBooking == 1
    {
      this.bookings := map[];
      this.events := events;
      this.images := [];
      this.now := now;
      this.nextBooking := 1;
      this.nextEvent := nextEvent;
    }
  }

  /** SELECT * FROM user_bookings WHERE user_id = ? AND event_id = ? AND status IN ('cart','booked'):
      the row, if there is one. */
  method FindActive(b: map<int, Booking>, user: int, event: int) returns (r: Option<int>)
    ensures r.Some? ==> ActiveRow(b, r.value, user, event)
    ensures r.None? ==> forall id :: !ActiveRow(b, id, user, event)
  {
    var ids := set id | id in b && ActiveRow(b, id, user, event);
    assert forall id :: ActiveRow(b, id, user, event) ==> id in ids;
    if ids == {} {
      r := None;
    } else {
      var id :| id in ids;
      r := Some(id);
    }
  }

  /** SELECT ... WHERE user_id = ? AND status = 'cart', fetched in some order: each cart row of
      `user` exactly once. */
  method FetchCart(b: map<int, Booking>, user: int) returns (items: seq<int>)
    ensures forall id :: id in items <==> CartRow(b, id, user)
    ensures CartItems(b, user, items)
    ensures Distinct(items)
    ensures |items| == |CartIds(b, user)|
  {
    var rest := CartIds(b, user);
    items := [];
    while rest != {}
      invariant forall id :: id in items || id in rest <==> CartRow(b, id, user)
      invariant forall id :: id in items ==> id !in rest
      invariant forall i, j :: 0 <= i < j < |items| ==> items[i] != items[j]
      invariant CartItems(b, user, items)
      decreases rest
    {
      var id :| id in rest;
      items := items + [id];
      rest := rest - {id};
    }
    assert forall id :: id in items <==> id in CartIds(b, user);
    DistinctEnumeration(items, CartIds(b, user));
  }

  /** The events table after each listed row's event lost that row's tickets, one row after the
      other: the effect of a loop of `UPDATE events SET available_tickets = available_tickets - ?`. */
  function Decrement(events: map<int, Event>, b: map<int, Booking>, ids: seq<int>): (r: map<int, Event>)
    requires forall k :: 0 <= k < |ids| ==> ids[k] in b
    ensures r.Keys == events.Keys
    decreases |ids|
  {
    if ids == [] then events
    else
      var prev := Decrement(events, b, ids[..|ids| - 1]);
      var row := b[ids[|ids| - 1]];
      if row.event in prev then prev[row.event := prev[row.event].(available := prev[row.event].available - row.tickets)]
      else prev
  }

  /** One more row: its event loses that row's tickets on top of the earlier decrements. */
  lemma DecrementStep(events: map<int, Event>, b: map<int, Booking>, ids: seq<int>, i: nat)
    requires i < |ids| && forall k :: 0 <= k < |ids| ==> ids[k] in b
    ensures var prev, row := Decrement(events, b, ids[..i]), b[ids[i]];
      Decrement(events, b, ids[..i + 1])
        == if row.event in prev then prev[row.event := prev[row.event].(available := prev[row.event].available - row.tickets)]
           else prev
  {
    assert ids[..i + 1][..i] == ids[..i];
  }

  /** An event no listed row is for is left alone. */
  lemma {:induction false} DecrementOthers(events: map<int, Event>, b: map<int, Booking>, ids: seq<int>, e: int)
    requires forall k :: 0 <= k < |ids| ==> ids[k] in b
    requires e in events && forall k :: 0 <= k < |ids| ==> b[ids[k]].event != e
    ensures Decrement(events, b, ids)[e] == events[e]
    decreases |ids|
  {
    if ids != [] {
      var n := |ids| - 1;
      assert forall k :: 0 <= k < n ==> ids[..n][k] == ids[k];
      DecrementOthers(events, b, ids[..n], e);
    }
  }

  /** When the rows are for different events, row k's event loses exactly that row's tickets. */
  lemma {:induction false} DecrementOwn(events: map<int, Event>, b: map<int, Booking>, ids: seq<int>, k: nat)
    requires forall k :: 0 <= k < |ids| ==> ids[k] in b && b[ids[k]].event in events
    requires forall i, j :: 0 <= i < j < |ids| ==> b[ids[i]].event != b[ids[j]].event
    requires k < |ids|
    ensures var e := b[ids[k]].event;
      Decrement(events, b, ids)[e] == events[e].(available := events[e].available - b[ids[k]].tickets)
    decreases |ids|
  {
    var n := |ids| - 1;
    var init := ids[..n];
    assert forall j :: 0 <= j < n ==> init[j] == ids[j];
    if k == n {
      DecrementOthers(events, b, init, b[ids[n]].event);
    } else {
      DecrementOwn(events, b, init, k);
      assert b[ids[n]].event != b[ids[k]].event;
    }
  }

  /** When the rows are for different events, every row's event loses exactly its tickets and
      every other event is untouched. */
  lemma DecrementSpec(events: map<int, Event>, b: map<int, Booking>, ids: seq<int>)
    requires forall k :: 0 <= k < |ids| ==> ids[k] in b && b[ids[k]].event in events
    requires forall i, j :: 0 <= i < j < |ids| ==> b[ids[i]].event != b[ids[j]].event
    ensures forall k :: 0 <= k < |ids| ==>
      Decrement(events, b, ids)[b[ids[k]].event]
      == events[b[ids[k]].event].(available := events[b[ids[k]].event].available - b[ids[k]].tickets)
    ensures forall e :: e in events && (forall k :: 0 <= k < |ids| ==> b[ids[k]].event != e) ==>
      Decrement(events, b, ids)[e] == events[e]
  {
    forall e | e in events && (forall k :: 0 <= k < |ids| ==> b[ids[k]].event != e)
      ensures Decrement(events, b, ids)[e] == events[e]
    {
      DecrementOthers(events, b, ids, e);
    }
    forall k | 0 <= k < |ids|
      ensures Decrement(events, b, ids)[b[ids[k]].event]
        == events[b[ids[k]].event].(available := events[b[ids[k]].event].available - b[ids[k]].tickets)
    {
      DecrementOwn(events, b, ids, k);
    }
  }

  /** Two cart rows of one user are for different events. */
  lemma CartEventsDistinct(b: map<int, Booking>, user: int, items: seq<int>)
    requires OneActivePerEvent(b)
    requires Distinct(items)
    requires CartItems(b, user, items)
    ensures forall i, j :: 0 <= i < j < |items| ==> b[items[i]].event != b[items[j]].event
  {
    forall i, j | 0 <= i < j < |items|
      ensures b[items[i]].event != b[items[j]].event
    {
      assert items[i] != items[j];
    }
  }

  /** Decrementing along an enumeration of the cart, stated per row and per event. */
  lemma CartDecrement(b: map<int, Booking>, events: map<int, Event>, user: int, items: seq<int>)
    requires OneActivePerEvent(b)
    requires forall id :: id in b ==> b[id].event in events
    requires Distinct(items) && CartItems(b, user, items)
    requires forall id :: id in items <==> CartRow(b, id, user)
    ensures forall id :: CartRow(b, id, user) ==>
      var e := b[id].event;
      Decrement(events, b, items)[e] == events[e].(available := events[e].available - b[id].tickets)
    ensures forall e :: e in events && (forall id :: CartRow(b, id, user) ==> b[id].event != e) ==>
      Decrement(events, b, items)[e] == events[e]
  {
    CartEventsDistinct(b, user, items);
    forall k | 0 <= k < |items| ensures items[k] in b && b[items[k]].event in events {
      var id := items[k];
      assert id in b;
    }
    var d := Decrement(events, b, items);
    forall id | CartRow(b, id, user)
      ensures var e := b[id].event; d[e] == events[e].(available := events[e].available - b[id].tickets)
    {
      var k :| 0 <= k < |items| && items[k] == id;
      DecrementOwn(events, b, items, k);
    }
    forall e | e in events && (forall id :: CartRow(b, id, user) ==> b[id].event != e)
      ensures d[e] == events[e]
    {
      forall k | 0 <= k < |items| ensures b[items[k]].event != e {
        assert CartRow(b, items[k], user);
      }
      DecrementOthers(events, b, items, e);
    }
  }
}
