/**
 * user/my_bookings.php (lines 12-47): the user's paid rows, latest event first, split into
 * upcoming and past events.
 */
module MyBookings {
  import opened Collections
  import opened Db
  import opened Listing

  datatype Page = Page(bookings: seq<Item>, upcoming: seq<Item>, past: seq<Item>)

  /** ORDER BY e.event_date DESC. */
  function DateKey(x: Item): Key {
    Key(0, x.event.date)
  }

  /** The rows whose event is after `now` (upcoming) or not (past), in their order. */
  function ByDate(s: seq<Item>, now: int, upcoming: bool): (r: seq<Item>)
    ensures forall x :: x in r <==> x in s && (x.event.date > now <==> upcoming)
    decreases |s|
  {
    if |s| == 0 then []
    else if (s[0].event.date > now) == upcoming then [s[0]] + ByDate(s[1..], now, upcoming)
    else ByDate(s[1..], now, upcoming)
  }

  /** Upcoming and past split the rows, each row going to exactly one of them. */
  lemma {:induction false} DatePartition(s: seq<Item>, now: int)
    ensures |ByDate(s, now, true)| + |ByDate(s, now, false)| == |s|
    ensures multiset(ByDate(s, now, true)) + multiset(ByDate(s, now, false)) == multiset(s)
    decreases |s|
  {
    if |s| > 0 {
      DatePartition(s[1..], now);
      assert s == [s[0]] + s[1..];
    }
  }

  /** Sorted by DateKey: event dates never increase along the list. */
  lemma LatestFirst(s: seq<Item>)
    requires Sorted(s, DateKey)
    ensures forall i, j :: 0 <= i < j < |s| ==> s[i].event.date >= s[j].event.date
  {
    forall i, j | 0 <= i < j < |s| ensures s[i].event.date >= s[j].event.date {
      assert Before(DateKey(s[i]), DateKey(s[j]));
    }
  }

  /** `now` is the database's NOW(); `dbOk` is false when the query throws. */
  method MyBookings(b: map<int, Booking>, events: map<int, Event>, user: int, now: int, dbOk: bool)
    returns (page: Page)
    ensures !dbOk ==> page == Page([], [], [])
    ensures dbOk ==> forall x :: x in page.bookings <==> Listed(b, events, user, {Paid}, x)
    ensures dbOk ==> Distinct(page.bookings) && Sorted(page.bookings, DateKey)
    ensures page.upcoming == ByDate(page.bookings, now, true) && page.past == ByDate(page.bookings, now, false)
  {
    if !dbOk {
      return Page([], [], []);
    }
    var fetched := Fetch(b, events, user, {Paid});
    var bookings := Sort(fetched, DateKey);
    SortSorted(fetched, DateKey);
    SortKeeps(fetched, DateKey);
    CardElems(fetched);
    CardElems(bookings);
    assert Elems(bookings) == Elems(fetched);
    assert Distinct(fetched) by {
      forall i, j | 0 <= i < j < |fetched| ensures fetched[i] != fetched[j] {
        assert fetched[i].id != fetched[j].id;
      }
    }
    page := Page(bookings, ByDate(bookings, now, true), ByDate(bookings, now, false));
  }
}
