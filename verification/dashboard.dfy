/** `DashboardView.get`: four figures for one day, which the handler takes from the clock
    and this model takes as a parameter. */
module Dashboard {
  import opened Collections
  import opened Schema
  import opened Bookings

  const MicrosPerDay: int := 86_400_000_000

  /** `datetime.combine(today, time.min)`. */
  function DayStart(today: int): int {
    today * MicrosPerDay
  }

  /** `datetime.combine(today, time.max)`: 23:59:59.999999. */
  function DayEnd(today: int): int {
    today * MicrosPerDay + MicrosPerDay - 1
  }

  /** `created__range = (today_min, today_max)`, both ends inclusive. */
  predicate CreatedOn(b: Book, today: int) {
    DayStart(today) <= b.created <= DayEnd(today)
  }

  /** The inclusive range covers exactly the timestamps of that calendar day. */
  lemma CreatedOnIsDay(b: Book, today: int)
    ensures CreatedOn(b, today) <==> b.created / MicrosPerDay == today
  {
    var d := b.created / MicrosPerDay;
    assert d * MicrosPerDay <= b.created < d * MicrosPerDay + MicrosPerDay;
    if d < today {
      assert d * MicrosPerDay + MicrosPerDay <= today * MicrosPerDay;
    } else if d > today {
      assert today * MicrosPerDay + MicrosPerDay <= d * MicrosPerDay;
    }
  }

  datatype Summary = Summary(newBooks: nat, incoming: nat, outcoming: nat, invoiced: Option<int>)

  /** Books created that day, cancelled ones included. */
  function CreatedToday(books: seq<Book>, today: int): seq<Book> {
    Filter(books, b => CreatedOn(b, today))
  }

  /** Books created that day and still live. */
  function BilledToday(books: seq<Book>, today: int): seq<Book> {
    Filter(books, b => CreatedOn(b, today) && b.state != Del)
  }

  /** Books created that day and cancelled since. */
  function CancelledToday(books: seq<Book>, today: int): seq<Book> {
    Filter(books, b => CreatedOn(b, today) && b.state == Del)
  }

  /** `filter(checkin = today).exclude(state = "DEL")`. */
  predicate ArrivesOn(b: Book, today: int) {
    b.checkin == today && b.state != Del
  }

  /** `filter(checkout = today).exclude(state = "DEL")`. */
  predicate LeavesOn(b: Book, today: int) {
    b.checkout == today && b.state != Del
  }

  function Arriving(books: seq<Book>, today: int): seq<Book> {
    Filter(books, b => ArrivesOn(b, today))
  }

  function Leaving(books: seq<Book>, today: int): seq<Book> {
    Filter(books, b => LeavesOn(b, today))
  }

  function SumTotals(books: seq<Book>): int {
    if books == [] then 0 else books[0].total + SumTotals(books[1..])
  }

  lemma {:induction false} SumTotalsAppend(books: seq<Book>, b: Book)
    ensures SumTotals(books + [b]) == SumTotals(books) + b.total
  {
    if books == [] {
      assert books + [b] == [b];
    } else {
      assert (books + [b])[1..] == books[1..] + [b];
      SumTotalsAppend(books[1..], b);
    }
  }

  lemma {:induction false} SumTotalsNonNegative(books: seq<Book>)
    ensures (forall b :: b in books ==> b.total >= 0) ==> SumTotals(books) >= 0
  {
    if books != [] {
      SumTotalsNonNegative(books[1..]);
    }
  }

  /** The invoiced amount read row by row: the totals of the live books created that day. */
  function InvoicedSum(books: seq<Book>, today: int): int {
    if books == [] then 0
    else (if CreatedOn(books[0], today) && books[0].state != Del then books[0].total else 0)
         + InvoicedSum(books[1..], today)
  }

  lemma {:induction false} BilledTotal(books: seq<Book>, today: int)
    ensures SumTotals(BilledToday(books, today)) == InvoicedSum(books, today)
  {
    if books != [] {
      BilledTotal(books[1..], today);
      var rest := BilledToday(books[1..], today);
      assert ([books[0]] + rest)[1..] == rest;
    }
  }

  /** Each count is the number of rows that pass its filter. */
  lemma CreatedByPosition(books: seq<Book>, today: int)
    ensures |CreatedToday(books, today)| == |set i | 0 <= i < |books| && CreatedOn(books[i], today)|
  {
    FilterCount(books, b => CreatedOn(b, today));
    assert Kept(books, b => CreatedOn(b, today)) == set i | 0 <= i < |books| && CreatedOn(books[i], today);
  }

  lemma ArrivingByPosition(books: seq<Book>, today: int)
    ensures |Arriving(books, today)| == |set i | 0 <= i < |books| && ArrivesOn(books[i], today)|
  {
    FilterCount(books, b => ArrivesOn(b, today));
    assert Kept(books, b => ArrivesOn(b, today)) == set i | 0 <= i < |books| && ArrivesOn(books[i], today);
  }

  lemma LeavingByPosition(books: seq<Book>, today: int)
    ensures |Leaving(books, today)| == |set i | 0 <= i < |books| && LeavesOn(books[i], today)|
  {
    FilterCount(books, b => LeavesOn(b, today));
    assert Kept(books, b => LeavesOn(b, today)) == set i | 0 <= i < |books| && LeavesOn(books[i], today);
  }

  /** The dashboard figures. `invoiced` is absent, as the SQL `SUM` of no rows is, when no
      live booking was created that day. */
  function Summarize(s: Store, today: int): (r: Summary)
    ensures r.newBooks == |set i | 0 <= i < |s.books| && CreatedOn(s.books[i], today)|
    ensures r.incoming == |set i | 0 <= i < |s.books| && ArrivesOn(s.books[i], today)|
    ensures r.outcoming == |set i | 0 <= i < |s.books| && LeavesOn(s.books[i], today)|
    ensures r.invoiced.None? <==> forall b :: b in s.books && CreatedOn(b, today) ==> b.state == Del
    ensures r.invoiced.Some? ==> r.invoiced.value == InvoicedSum(s.books, today)
    ensures r.newBooks <= |s.books| && r.incoming <= |s.books| && r.outcoming <= |s.books|
    ensures (forall b :: b in s.books ==> b.total >= 0) && r.invoiced.Some? ==> r.invoiced.value >= 0
  {
    var billed := BilledToday(s.books, today);
    SumTotalsNonNegative(billed);
    BilledTotal(s.books, today);
    CreatedByPosition(s.books, today);
    ArrivingByPosition(s.books, today);
    LeavingByPosition(s.books, today);
    Summary(
      |CreatedToday(s.books, today)|,
      |Arriving(s.books, today)|,
      |Leaving(s.books, today)|,
      if billed == [] then None else Some(SumTotals(billed)))
  }

  /** New bookings are the live ones plus the cancelled ones created that day; so there
      are never fewer new bookings than bookings behind the invoiced sum. */
  lemma NewBooksSplit(s: Store, today: int)
    ensures Summarize(s, today).newBooks == |BilledToday(s.books, today)| + |CancelledToday(s.books, today)|
  {
    FilterSplit(s.books,
      b => CreatedOn(b, today),
      b => CreatedOn(b, today) && b.state != Del,
      b => CreatedOn(b, today) && b.state == Del,
      (b: Book) => b.state != Del);
  }

  /** Cancelling a booking keeps the number of new bookings, and never adds arrivals,
      departures or invoiced bookings. */
  lemma DeleteEffectOnSummary(s: Store, pk: nat, today: int)
    ensures Summarize(DeleteBook(s, pk).store, today).newBooks == Summarize(s, today).newBooks
    ensures Summarize(DeleteBook(s, pk).store, today).incoming <= Summarize(s, today).incoming
    ensures Summarize(DeleteBook(s, pk).store, today).outcoming <= Summarize(s, today).outcoming
    ensures |BilledToday(DeleteBook(s, pk).store.books, today)| <= |BilledToday(s.books, today)|
  {
    var a := s.books;
    var b := DeleteBook(s, pk).store.books;
    assert forall i :: 0 <= i < |b| ==> b[i].(state := a[i].state) == a[i];
    FilterCountEqual(a, b, x => CreatedOn(x, today), x => CreatedOn(x, today));
    FilterCountMonotone(a, b, x => ArrivesOn(x, today), x => ArrivesOn(x, today));
    FilterCountMonotone(a, b, x => LeavesOn(x, today), x => LeavesOn(x, today));
    FilterCountMonotone(a, b,
      x => CreatedOn(x, today) && x.state != Del, x => CreatedOn(x, today) && x.state != Del);
  }

  /** The figures read the book table only. */
  lemma SummaryReadsBooksOnly(s: Store, t: Store, today: int)
    requires t.books == s.books
    ensures Summarize(t, today) == Summarize(s, today)
  {
  }

  /** One more booking created today, live or cancelled. */
  lemma SummaryAfterAppend(s: Store, t: Store, nb: Book, today: int)
    requires t.books == s.books + [nb] && CreatedOn(nb, today)
    ensures Summarize(t, today).newBooks == Summarize(s, today).newBooks + 1
    ensures nb.state == New ==>
              Summarize(t, today).invoiced
              == Some(nb.total + (if Summarize(s, today).invoiced.Some? then Summarize(s, today).invoiced.value else 0))
  {
    FilterAppend(s.books, nb, b => CreatedOn(b, today));
    FilterAppend(s.books, nb, b => CreatedOn(b, today) && b.state != Del);
    SumTotalsAppend(BilledToday(s.books, today), nb);
  }

  /** A booking stored today counts as new, and when it is live its total joins the
      invoiced sum; a rejected submission changes none of the figures. */
  lemma CreateEffectOnSummary(
    s: Store, pk: nat, cf: CustomerFields, bf: BookFields,
    customerValid: CustomerFields -> bool, bookValid: (Store, BookFields) -> bool, now: int, today: int)
    requires DayStart(today) <= now <= DayEnd(today)
    ensures
      var after := Summarize(CreateBooking(s, pk, cf, bf, customerValid, bookValid, now).store, today);
      var before := Summarize(s, today);
      var stored := customerValid(cf) && bookValid(WithCustomer(s, cf), Posted(bf, NextCustomerId(s.customers), pk));
      && after.newBooks == before.newBooks + (if stored then 1 else 0)
      && (stored && bf.state == New ==>
            after.invoiced == Some(bf.total + (if before.invoiced.Some? then before.invoiced.value else 0)))
      && (!stored ==> after == before)
  {
    var t := CreateBooking(s, pk, cf, bf, customerValid, bookValid, now).store;
    if customerValid(cf) && bookValid(WithCustomer(s, cf), Posted(bf, NextCustomerId(s.customers), pk)) {
      var saved := WithCustomer(s, cf);
      var nb := NewBook(saved, Posted(bf, NextCustomerId(s.customers), pk), now);
      assert t == saved.(books := s.books + [nb]);
      SummaryAfterAppend(s, t, nb, today);
    } else {
      assert t.books == s.books;
      SummaryReadsBooksOnly(s, t, today);
    }
  }

  /** A day with three bookings: one created and arriving today, one created today but
      cancelled and due to leave today, and an older one leaving today. */
  function ScenarioBooks(): seq<Book> {
    [ Book(1, "A", 1, 1, 10, 13, 300, 867_600_000_000, New),
      Book(2, "B", 2, 2, 8, 10, 200, 871_200_000_000, Del),
      Book(3, "C", 3, 3, 6, 10, 400, 518_400_000_000, New) ]
  }

  /** On day 10 the cancelled booking counts as new but neither leaves nor is invoiced. */
  lemma DashboardScenario()
    ensures Summarize(Store([], [], ScenarioBooks()), 10) == Summary(2, 1, 1, Some(300))
  {
    var books := ScenarioBooks();
    assert books[1..][1..][1..] == [];
    ScenarioCreated(books);
    ScenarioBilled(books);
    ScenarioArriving(books);
    ScenarioLeaving(books);
  }

  lemma ScenarioCreated(books: seq<Book>)
    requires books == ScenarioBooks()
    ensures |CreatedToday(books, 10)| == 2
  {
    var tail := books[1..];
    var last := tail[1..];
    assert CreatedOn(books[0], 10) && CreatedOn(tail[0], 10);
    assert last == [books[2]] && !CreatedOn(last[0], 10);
    assert CreatedToday(last, 10) == [] by {
      assert last[1..] == [];
    }
    assert |CreatedToday(tail, 10)| == 1;
  }

  lemma ScenarioBilled(books: seq<Book>)
    requires books == ScenarioBooks()
    ensures BilledToday(books, 10) == [books[0]]
  {
    assert CreatedOn(books[0], 10) && !CreatedOn(books[2], 10);
    assert BilledToday(books[1..][1..], 10) == [];
  }

  lemma ScenarioArriving(books: seq<Book>)
    requires books == ScenarioBooks()
    ensures |Arriving(books, 10)| == 1
  {
    assert Arriving(books[1..][1..], 10) == [];
  }

  lemma ScenarioLeaving(books: seq<Book>)
    requires books == ScenarioBooks()
    ensures |Leaving(books, 10)| == 1
  {
    assert books[1..][1..][1..] == [];
    assert Leaving(books[1..][1..], 10) == [books[2]];
    assert Leaving(books[1..], 10) == [books[2]];
    assert Leaving(books, 10) == [books[2]];
  }
}
