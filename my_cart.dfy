/**
 * user/my_cart.php (lines 14-46 and 108): the user's cart and booked rows, booked first and
 * then most recently updated first, split by status, with the two totals the page shows.
 */
module MyCart {
  import opened Collections
  import opened Db
  import opened Listing
  import Checkout

  /** What the page renders. */
  datatype Page = Page(items: seq<Item>, cartItems: seq<Item>, bookedItems: seq<Item>, cartTotal: int, bookedTotal: int)

  /** ORDER BY CASE WHEN status = 'booked' THEN 1 ELSE 2 END, updated_at DESC. */
  function CartKey(x: Item): Key {
    Key(if x.row.status == Booked then 1 else 2, x.row.updatedAt)
  }

  /** A cart row costs its tickets at the event's price. */
  function CartLine(x: Item): int {
    x.row.tickets * x.event.price
  }

  /** A booked row costs its stored total when positive, else its tickets at the event's price. */
  function BookedLine(x: Item): int {
    Checkout.AmountDue(x.row, x.event.price)
  }

  /** The sum of `line` over the rows. */
  function Sum(s: seq<Item>, line: Item -> int): int
    decreases |s|
  {
    if |s| == 0 then 0 else Sum(s[..|s| - 1], line) + line(s[|s| - 1])
  }

  /** The accumulation loops of lines 32-40. */
  method Total(s: seq<Item>, line: Item -> int) returns (total: int)
    ensures total == Sum(s, line)
  {
    total := 0;
    var i := 0;
    while i < |s|
      invariant 0 <= i <= |s|
      invariant total == Sum(s[..i], line)
    {
      total := total + line(s[i]);
      i := i + 1;
      assert s[..i][..i - 1] == s[..i - 1];
    }
    assert s[..i] == s;
  }

  /** A sum of non-negative lines is non-negative. */
  lemma {:induction false} SumNonNegative(s: seq<Item>, line: Item -> int)
    requires forall k :: 0 <= k < |s| ==> line(s[k]) >= 0
    ensures Sum(s, line) >= 0
    decreases |s|
  {
    if |s| > 0 {
      SumNonNegative(s[..|s| - 1], line);
    }
  }

  /** A cart line is never negative when tickets and prices are not. */
  lemma LinesNonNegative(x: Item)
    requires x.row.tickets >= 0 && x.event.price >= 0
    ensures CartLine(x) >= 0 && BookedLine(x) >= 0
  {
  }

  /** Sorted by CartKey, no booked row follows a cart row. */
  lemma BookedFirst(s: seq<Item>)
    requires Sorted(s, CartKey)
    requires forall k :: 0 <= k < |s| ==> s[k].row.status in {Cart, Booked}
    ensures forall i, j :: 0 <= i < j < |s| && s[j].row.status == Booked ==> s[i].row.status == Booked
    ensures forall i, j :: 0 <= i < j < |s| && s[i].row.status == s[j].row.status ==> s[i].row.updatedAt >= s[j].row.updatedAt
  {
    forall i, j | 0 <= i < j < |s| && s[j].row.status == Booked ensures s[i].row.status == Booked {
      assert Before(CartKey(s[i]), CartKey(s[j]));
    }
    forall i, j | 0 <= i < j < |s| && s[i].row.status == s[j].row.status ensures s[i].row.updatedAt >= s[j].row.updatedAt {
      assert Before(CartKey(s[i]), CartKey(s[j]));
    }
  }

  /** Splitting cart and booked rows keeps every row exactly once. */
  lemma {:induction false} StatusPartition(s: seq<Item>)
    requires forall k :: 0 <= k < |s| ==> s[k].row.status in {Cart, Booked}
    ensures |WithStatus(s, {Cart})| + |WithStatus(s, {Booked})| == |s|
    ensures forall x :: x in s <==> x in WithStatus(s, {Cart}) || x in WithStatus(s, {Booked})
    ensures forall x :: !(x in WithStatus(s, {Cart}) && x in WithStatus(s, {Booked}))
    decreases |s|
  {
    if |s| > 0 {
      StatusPartition(s[1..]);
    }
  }

  /** `dbOk` is false when the query throws. */
  method MyCart(b: map<int, Booking>, events: map<int, Event>, user: int, dbOk: bool) returns (page: Page)
    ensures !dbOk ==> page == Page([], [], [], 0, 0)
    ensures dbOk ==> forall x :: x in page.items <==> Listed(b, events, user, {Cart, Booked}, x)
    ensures dbOk ==> Distinct(page.items) && Sorted(page.items, CartKey)
    ensures page.cartItems == WithStatus(page.items, {Cart}) && page.bookedItems == WithStatus(page.items, {Booked})
    ensures page.cartTotal == Sum(page.cartItems, CartLine)
    ensures page.bookedTotal == Sum(page.bookedItems, BookedLine)
  {
    if !dbOk {
      return Page([], [], [], 0, 0);
    }
    var fetched := Fetch(b, events, user, {Cart, Booked});
    var items := Sort(fetched, CartKey);
    SortSorted(fetched, CartKey);
    SortKeeps(fetched, CartKey);
    CardElems(fetched);
    CardElems(items);
    assert Elems(items) == Elems(fetched);
    assert Distinct(fetched) by {
      forall i, j | 0 <= i < j < |fetched| ensures fetched[i] != fetched[j] {
        assert fetched[i].id != fetched[j].id;
      }
    }
    var cartItems := WithStatus(items, {Cart});
    var bookedItems := WithStatus(items, {Booked});
    var cartTotal := Total(cartItems, CartLine);
    var bookedTotal := Total(bookedItems, BookedLine);
    page := Page(items, cartItems, bookedItems, cartTotal, bookedTotal);
  }
}
