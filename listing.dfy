/**
 * The joined rows the two listing pages read (a user_bookings row with its event) and the
 * ORDER BY they ask for, modelled by an insertion sort on a two-part key: the first part
 * ascending, the second descending.
 */
module Listing {
  import opened Collections
  import opened Db

  /** A fetched row: the booking id, the booking and its event. */
  datatype Item = Item(id: int, row: Booking, event: Event)

  /** An ORDER BY key: `rank` ascending, then `recency` descending. */
  datatype Key = Key(rank: int, recency: int)

  predicate Before(a: Key, b: Key) {
    a.rank < b.rank || (a.rank == b.rank && a.recency >= b.recency)
  }

  /** The rows are in ORDER BY order. */
  predicate Sorted(s: seq<Item>, key: Item -> Key) {
    forall i, j :: 0 <= i < j < |s| ==> Before(key(s[i]), key(s[j]))
  }

  /** Puts `x` in front of the first element that must come after it. */
  function Insert(x: Item, s: seq<Item>, key: Item -> Key): (r: seq<Item>)
    ensures multiset(r) == multiset(s) + multiset{x}
    decreases |s|
  {
    if |s| == 0 then [x]
    else if Before(key(x), key(s[0])) then [x] + s
    else
      assert s == [s[0]] + s[1..];
      [s[0]] + Insert(x, s[1..], key)
  }

  /** An element that comes before every element of a sorted sequence can be put in front. */
  lemma ConsSorted(a: Item, rest: seq<Item>, key: Item -> Key)
    requires Sorted(rest, key)
    requires forall k :: 0 <= k < |rest| ==> Before(key(a), key(rest[k]))
    ensures Sorted([a] + rest, key)
  {
    var r := [a] + rest;
    forall i, j | 0 <= i < j < |r| ensures Before(key(r[i]), key(r[j])) {
      assert r[j] == rest[j - 1];
      if i > 0 {
        assert r[i] == rest[i - 1];
      }
    }
  }

  /** Inserting into a sorted sequence gives a sorted sequence. */
  lemma {:induction false} InsertSorted(x: Item, s: seq<Item>, key: Item -> Key)
    requires Sorted(s, key)
    ensures Sorted(Insert(x, s, key), key)
    decreases |s|
  {
    if |s| > 0 && !Before(key(x), key(s[0])) {
      var rest := Insert(x, s[1..], key);
      InsertSorted(x, s[1..], key);
      assert s == [s[0]] + s[1..];
      forall k | 0 <= k < |rest| ensures Before(key(s[0]), key(rest[k])) {
        var y := rest[k];
        assert y in multiset(rest);
        if y != x {
          assert y in multiset(s[1..]);
          var m :| 0 <= m < |s[1..]| && s[1..][m] == y;
          assert y == s[m + 1];
        }
      }
      ConsSorted(s[0], rest, key);
    } else if |s| > 0 {
      forall k | 0 <= k < |s| ensures Before(key(x), key(s[k])) {
        if k > 0 {
          assert Before(key(s[0]), key(s[k]));
        }
      }
      ConsSorted(x, s, key);
    }
  }

  /** ORDER BY, as an insertion sort: the same rows, ... */
  function Sort(s: seq<Item>, key: Item -> Key): (r: seq<Item>)
    ensures multiset(r) == multiset(s)
    decreases |s|
  {
    if |s| == 0 then []
    else
      assert s == [s[0]] + s[1..];
      Insert(s[0], Sort(s[1..], key), key)
  }

  /** ... now in key order. */
  lemma {:induction false} SortSorted(s: seq<Item>, key: Item -> Key)
    ensures Sorted(Sort(s, key), key)
    decreases |s|
  {
    if |s| > 0 {
      SortSorted(s[1..], key);
      InsertSorted(s[0], Sort(s[1..], key), key);
    }
  }

  /** Sorting keeps the elements and their number. */
  lemma SortKeeps(s: seq<Item>, key: Item -> Key)
    ensures |Sort(s, key)| == |s|
    ensures forall x :: x in Sort(s, key) <==> x in s
  {
    var r := Sort(s, key);
    assert |multiset(r)| == |multiset(s)|;
    forall x ensures x in r <==> x in s {
      assert x in r <==> x in multiset(r);
      assert x in s <==> x in multiset(s);
    }
  }

  /** The rows whose status is in `statuses` (array_filter on the status). */
  function WithStatus(s: seq<Item>, statuses: set<Status>): (r: seq<Item>)
    ensures forall x :: x in r <==> x in s && x.row.status in statuses
    ensures |r| <= |s|
    decreases |s|
  {
    if |s| == 0 then []
    else if s[0].row.status in statuses then [s[0]] + WithStatus(s[1..], statuses)
    else WithStatus(s[1..], statuses)
  }

  /** The filter drops only rows of other statuses: every row with a listed status stays, as
      often as it occurs. */
  lemma {:induction false} WithStatusCounts(s: seq<Item>, statuses: set<Status>)
    ensures multiset(WithStatus(s, statuses)) <= multiset(s)
    ensures forall x: Item :: x.row.status in statuses ==> multiset(WithStatus(s, statuses))[x] == multiset(s)[x]
    decreases |s|
  {
    if |s| > 0 {
      var rest := WithStatus(s[1..], statuses);
      WithStatusCounts(s[1..], statuses);
      assert s == [s[0]] + s[1..];
      assert multiset(s) == multiset{s[0]} + multiset(s[1..]);
      if s[0].row.status in statuses {
        assert WithStatus(s, statuses) == [s[0]] + rest;
        assert multiset(WithStatus(s, statuses)) == multiset{s[0]} + multiset(rest);
      } else {
        assert WithStatus(s, statuses) == rest;
      }
    }
  }

  /** Rows in ORDER BY order stay in that order through the filter. */
  lemma {:induction false} WithStatusSorted(s: seq<Item>, statuses: set<Status>, key: Item -> Key)
    requires Sorted(s, key)
    ensures Sorted(WithStatus(s, statuses), key)
    decreases |s|
  {
    if |s| > 0 {
      var rest := WithStatus(s[1..], statuses);
      assert Sorted(s[1..], key) by {
        forall i, j | 0 <= i < j < |s[1..]| ensures Before(key(s[1..][i]), key(s[1..][j])) {
          assert s[1..][i] == s[i + 1] && s[1..][j] == s[j + 1];
        }
      }
      WithStatusSorted(s[1..], statuses, key);
      if s[0].row.status in statuses {
        forall k | 0 <= k < |rest| ensures Before(key(s[0]), key(rest[k])) {
          assert rest[k] in s[1..];
          var j :| 0 <= j < |s[1..]| && s[1..][j] == rest[k];
          assert s[j + 1] == rest[k];
        }
        ConsSorted(s[0], rest, key);
      }
    }
  }

  /** A row the query returns: joined with its event, of `user`, with a status in `statuses`. */
  predicate Listed(b: map<int, Booking>, events: map<int, Event>, user: int, statuses: set<Status>, x: Item) {
    x.id in b && x.row == b[x.id] && x.row.event in events && x.event == events[x.row.event]
    && x.row.user == user && x.row.status in statuses
  }

  /** `id` names a row the query returns. */
  predicate Matches(b: map<int, Booking>, events: map<int, Event>, user: int, statuses: set<Status>, id: int) {
    id in b && b[id].user == user && b[id].status in statuses && b[id].event in events
  }

  /** SELECT ... FROM user_bookings JOIN events WHERE user_id = ? AND status IN (...), before
      ordering: each matching row once. */
  method Fetch(b: map<int, Booking>, events: map<int, Event>, user: int, statuses: set<Status>)
    returns (items: seq<Item>)
    ensures forall x :: x in items <==> Listed(b, events, user, statuses, x)
    ensures forall i, j :: 0 <= i < j < |items| ==> items[i].id != items[j].id
  {
    var rest := set id | id in b && Matches(b, events, user, statuses, id);
    items := [];
    while rest != {}
      invariant forall x :: x in items <==> Listed(b, events, user, statuses, x) && x.id !in rest
      invariant forall id :: id in rest ==> Matches(b, events, user, statuses, id)
      invariant forall id :: Matches(b, events, user, statuses, id) ==> id in rest || Item(id, b[id], events[b[id].event]) in items
      invariant forall i, j :: 0 <= i < j < |items| ==> items[i].id != items[j].id
      decreases rest
    {
      var id :| id in rest;
      var row := b[id];
      forall k | 0 <= k < |items| ensures items[k].id != id {
        assert items[k] in items;
      }
      items := items + [Item(id, row, events[row.event])];
      rest := rest - {id};
    }
  }
}
