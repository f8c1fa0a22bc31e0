/** The handlers that read one booking or change the store: the confirmation form and
    booking creation (`BookView`), cancellation (`DeleteBookView`) and the customer edit
    (`EditBookView`). Form validation is not part of this model: the handlers receive the
    validity of the posted forms as predicates. */
module Bookings {
  import opened Collections
  import opened Schema
  import opened RoomSearch

  /** The posted customer form (prefix "customer"). */
  datatype CustomerFields = CustomerFields(name: string, contact: string)

  /** The posted, hidden book form (prefix "book"). */
  datatype BookFields = BookFields(
    code: string,
    room: nat,
    customer: nat,
    checkin: int,
    checkout: int,
    total: int,
    state: State)

  /** What the confirmation page shows: the room, the dates and the price of the stay. */
  datatype Quote = Quote(room: Room, checkin: int, checkout: int, total: int)

  // ---------------------------------------------------------------- BookView.get

  /** The booking confirmation page for room `pk`, priced for the requested dates. */
  function QuoteStay(s: Store, pk: nat, checkin: int, checkout: int): (r: Response<Quote>)
    ensures r.Page? || r.DoesNotExist?
    ensures r.DoesNotExist? <==> forall room :: room in s.rooms ==> room.id != pk
    ensures r.Page? ==>
              && r.data.room in s.rooms && r.data.room.id == pk
              && r.data.checkin == checkin && r.data.checkout == checkout
              && r.data.total == (checkout - checkin) * r.data.room.roomType.price
  {
    match FindRoom(s.rooms, pk)
    case None => DoesNotExist
    case Some(room) => Page(Quote(room, checkin, checkout, StayTotal(room.roomType, checkin, checkout)))
  }

  /** Following a search result to its confirmation page quotes the price the search showed. */
  lemma QuoteMatchesSearch(s: Store, q: SearchQuery, o: Offer)
    requires WellFormed(s)
    requires o in Search(s, q).offers
    ensures QuoteStay(s, o.room.id, q.checkin, q.checkout) == Page(Quote(o.room, q.checkin, q.checkout, o.total))
  {
    var offers := Search(s, q).offers;
    var i :| 0 <= i < |offers| && offers[i] == o;
    assert Rooms(offers)[i] == o.room;
    assert o.room in s.rooms;
    FindRoomUnique(s.rooms, o.room);
  }

  // ---------------------------------------------------------------- BookView.post

  /** The customer row the customer form saves. */
  function NewCustomer(s: Store, cf: CustomerFields): Customer {
    Customer(NextCustomerId(s.customers), cf.name, cf.contact)
  }

  /** The store once the customer form is saved. */
  function WithCustomer(s: Store, cf: CustomerFields): Store {
    s.(customers := s.customers + [NewCustomer(s, cf)])
  }

  /** The posted book form with its customer and room replaced by the new customer's key
      and the room in the URL. */
  function Posted(bf: BookFields, customer: nat, pk: nat): BookFields {
    bf.(customer := customer, room := pk)
  }

  /** The book row the book form saves; `now` is the creation timestamp. */
  function NewBook(s: Store, bf: BookFields, now: int): Book {
    Book(NextBookId(s.books), bf.code, bf.room, bf.customer, bf.checkin, bf.checkout, bf.total, now, bf.state)
  }

  /** Creating a booking: the customer is saved first and the book only afterwards, so a
      rejected book still leaves the new customer behind. Every outcome redirects home. */
  function CreateBooking(
    s: Store, pk: nat, cf: CustomerFields, bf: BookFields,
    customerValid: CustomerFields -> bool, bookValid: (Store, BookFields) -> bool, now: int): (r: Step<()>)
    ensures r.response == Redirect(Home)
    ensures r.store.rooms == s.rooms
    // an invalid customer changes nothing
    ensures !customerValid(cf) ==> r.store == s
    // a valid customer is appended under a fresh key
    ensures customerValid(cf) ==>
              && |r.store.customers| == |s.customers| + 1
              && r.store.customers[..|s.customers|] == s.customers
              && r.store.customers[|s.customers|].name == cf.name
              && r.store.customers[|s.customers|].contact == cf.contact
              && forall c :: c in s.customers ==> c.id != r.store.customers[|s.customers|].id
    // ... and the book follows only when its form is valid too
    ensures customerValid(cf) ==>
              var c := r.store.customers[|s.customers|];
              var posted := Posted(bf, c.id, pk);
              if !bookValid(WithCustomer(s, cf), posted) then
                r.store.books == s.books
              else
                && |r.store.books| == |s.books| + 1
                && r.store.books[..|s.books|] == s.books
                && var b := r.store.books[|s.books|];
                && b.customer == c.id && b.room == pk
                && b.code == bf.code && b.checkin == bf.checkin && b.checkout == bf.checkout
                && b.total == bf.total && b.state == bf.state && b.created == now
                && forall prior :: prior in s.books ==> prior.id != b.id
  {
    if !customerValid(cf) then
      Step(s, Redirect(Home))
    else
      var saved := WithCustomer(s, cf);
      var posted := Posted(bf, NewCustomer(s, cf).id, pk);
      if !bookValid(saved, posted) then
        Step(saved, Redirect(Home))
      else
        Step(saved.(books := saved.books + [NewBook(saved, posted, now)]), Redirect(Home))
  }

  /** Creation keeps every table's keys unique. */
  lemma CreatePreservesWellFormed(
    s: Store, pk: nat, cf: CustomerFields, bf: BookFields,
    customerValid: CustomerFields -> bool, bookValid: (Store, BookFields) -> bool, now: int)
    requires WellFormed(s)
    ensures WellFormed(CreateBooking(s, pk, cf, bf, customerValid, bookValid, now).store)
  {
    var t := CreateBooking(s, pk, cf, bf, customerValid, bookValid, now).store;
    if customerValid(cf) {
      forall i, j | 0 <= i < j < |t.customers| ensures t.customers[i].id != t.customers[j].id {
        if j == |s.customers| {
          assert t.customers[i] in s.customers;
        }
      }
      forall i, j | 0 <= i < j < |t.books| ensures t.books[i].id != t.books[j].id {
        if j == |s.books| {
          assert t.books[i] in s.books;
        }
      }
    }
  }

  /** A stored live booking blocks its room for every stay touching its dates. */
  lemma CreatedBookBlocksRoom(
    s: Store, pk: nat, cf: CustomerFields, bf: BookFields,
    customerValid: CustomerFields -> bool, bookValid: (Store, BookFields) -> bool, now: int,
    room: Room, q: SearchQuery)
    requires customerValid(cf)
    requires bookValid(WithCustomer(s, cf), Posted(bf, NextCustomerId(s.customers), pk))
    requires bf.state == New && room.id == pk
    requires bf.checkin <= q.checkout && q.checkin <= bf.checkout
    ensures room !in Rooms(Search(CreateBooking(s, pk, cf, bf, customerValid, bookValid, now).store, q).offers)
  {
    var t := CreateBooking(s, pk, cf, bf, customerValid, bookValid, now).store;
    assert Conflicts(t.books[|s.books|], room, q);
    assert t.books[|s.books|] in t.books;
  }

  /** A booking made from the confirmation page's form is charged the quoted price. */
  lemma CreatedBookChargesQuote(
    s: Store, pk: nat, cf: CustomerFields, bf: BookFields,
    customerValid: CustomerFields -> bool, bookValid: (Store, BookFields) -> bool, now: int)
    requires customerValid(cf)
    requires bookValid(WithCustomer(s, cf), Posted(bf, NextCustomerId(s.customers), pk))
    requires QuoteStay(s, pk, bf.checkin, bf.checkout).Page?
    requires bf.total == QuoteStay(s, pk, bf.checkin, bf.checkout).data.total
    ensures
      var t := CreateBooking(s, pk, cf, bf, customerValid, bookValid, now).store;
      var room := QuoteStay(s, pk, bf.checkin, bf.checkout).data.room;
      && room in t.rooms && room.id == t.books[|s.books|].room
      && t.books[|s.books|].total == (t.books[|s.books|].checkout - t.books[|s.books|].checkin) * room.roomType.price
  {
  }

  // ---------------------------------------------------------------- DeleteBookView

  /** The deletion confirmation page for book `pk`. */
  function ConfirmDelete(s: Store, pk: nat): (r: Response<Book>)
    ensures r.Page? || r.DoesNotExist?
    ensures r.DoesNotExist? <==> forall b :: b in s.books ==> b.id != pk
    ensures r.Page? ==> r.data in s.books && r.data.id == pk
  {
    match FindBook(s.books, pk)
    case None => DoesNotExist
    case Some(b) => Page(b)
  }

  /** `filter(id = pk).update(state = "DEL")` on the book table. */
  function MarkDeleted(books: seq<Book>, pk: nat): (r: seq<Book>)
    ensures |r| == |books|
    ensures forall i :: 0 <= i < |r| ==> r[i].id == pk ==> r[i].state == Del
    ensures forall i :: 0 <= i < |r| ==> r[i].(state := books[i].state) == books[i]
    ensures forall i :: 0 <= i < |r| ==> books[i].id != pk ==> r[i] == books[i]
  {
    if books == [] then []
    else
      var head := if books[0].id == pk then books[0].(state := Del) else books[0];
      [head] + MarkDeleted(books[1..], pk)
  }

  /** Cancelling a booking: only the state of the book with key `pk` changes; a missing
      key changes nothing. The response is always the redirect home. */
  function DeleteBook(s: Store, pk: nat): (r: Step<()>)
    ensures r.response == Redirect(Home)
    ensures r.store.rooms == s.rooms && r.store.customers == s.customers
    ensures |r.store.books| == |s.books|
    ensures forall i :: 0 <= i < |s.books| ==> r.store.books[i].(state := s.books[i].state) == s.books[i]
    ensures forall i :: 0 <= i < |s.books| ==>
              r.store.books[i].state == if s.books[i].id == pk then Del else s.books[i].state
  {
    Step(s.(books := MarkDeleted(s.books, pk)), Redirect(Home))
  }

  /** The lookup after `update(state = "DEL")` finds the same row, now cancelled. */
  lemma {:induction false} FindAfterMarkDeleted(books: seq<Book>, pk: nat)
    ensures FindBook(MarkDeleted(books, pk), pk)
         == if FindBook(books, pk).Some? then Some(FindBook(books, pk).value.(state := Del)) else None
  {
    if books != [] && books[0].id != pk {
      var marked := MarkDeleted(books, pk);
      assert marked[1..] == MarkDeleted(books[1..], pk);
      FindAfterMarkDeleted(books[1..], pk);
    }
  }

  /** After a cancellation the confirmation page of `pk` shows the same booking, now
      cancelled; a missing key stays missing. */
  lemma ConfirmAfterDelete(s: Store, pk: nat)
    ensures ConfirmDelete(DeleteBook(s, pk).store, pk)
         == if ConfirmDelete(s, pk).Page? then Page(ConfirmDelete(s, pk).data.(state := Del)) else DoesNotExist
  {
    FindAfterMarkDeleted(s.books, pk);
  }

  /** Cancelling twice is cancelling once. */
  lemma DeleteIdempotent(s: Store, pk: nat)
    ensures DeleteBook(DeleteBook(s, pk).store, pk) == DeleteBook(s, pk)
  {
    var once := DeleteBook(s, pk).store;
    var twice := DeleteBook(once, pk).store;
    assert twice.books == once.books by {
      forall i | 0 <= i < |once.books| ensures twice.books[i] == once.books[i] {
        assert twice.books[i].(state := once.books[i].state) == once.books[i];
      }
    }
  }

  /** Cancelling a key no book has leaves the store as it was. */
  lemma DeleteMissingIsNoOp(s: Store, pk: nat)
    requires forall b :: b in s.books ==> b.id != pk
    ensures DeleteBook(s, pk).store == s
  {
    var t := DeleteBook(s, pk).store;
    assert t.books == s.books by {
      forall i | 0 <= i < |s.books| ensures t.books[i] == s.books[i] {
        assert s.books[i] in s.books;
        assert t.books[i].(state := s.books[i].state) == s.books[i];
      }
    }
  }

  lemma DeletePreservesWellFormed(s: Store, pk: nat)
    requires WellFormed(s)
    ensures WellFormed(DeleteBook(s, pk).store)
  {
    var t := DeleteBook(s, pk).store;
    forall i, j | 0 <= i < j < |t.books| ensures t.books[i].id != t.books[j].id {
      assert t.books[i].(state := s.books[i].state) == s.books[i];
      assert t.books[j].(state := s.books[j].state) == s.books[j];
    }
  }

  /** After cancelling `pk`, a room is free for a stay exactly when it is big enough and
      no live booking other than `pk` touches the dates: the cancelled booking stops
      blocking and nothing new blocks. */
  lemma AvailabilityAfterDelete(s: Store, pk: nat, room: Room, q: SearchQuery)
    ensures Available(DeleteBook(s, pk).store.books, room, q)
        <==> Fits(room, q.guests) && forall b :: b in s.books && b.id != pk ==> !Conflicts(b, room, q)
  {
    var t := DeleteBook(s, pk).store.books;
    if Fits(room, q.guests) && forall b :: b in s.books && b.id != pk ==> !Conflicts(b, room, q) {
      forall b | b in t ensures !Conflicts(b, room, q) {
        var i :| 0 <= i < |t| && t[i] == b;
        assert t[i].(state := s.books[i].state) == s.books[i];
        assert s.books[i] in s.books;
      }
    }
    if Available(t, room, q) {
      forall b | b in s.books && b.id != pk ensures !Conflicts(b, room, q) {
        var i :| 0 <= i < |s.books| && s.books[i] == b;
        assert t[i].(state := s.books[i].state) == s.books[i];
        assert t[i] in t;
      }
    }
  }

  // ---------------------------------------------------------------- EditBookView

  /** The edit page: book `pk` with its customer. */
  function EditForm(s: Store, pk: nat): (r: Response<(Book, Customer)>)
    ensures r.Page? || r.DoesNotExist?
    ensures r.Page? ==>
              && r.data.0 in s.books && r.data.0.id == pk
              && r.data.1 in s.customers && r.data.1.id == r.data.0.customer
    ensures (forall b :: b in s.books ==> b.id != pk) ==> r.DoesNotExist?
    ensures FindBook(s.books, pk).Some? && FindCustomer(s.customers, FindBook(s.books, pk).value.customer).Some?
            ==> r.Page?
  {
    match FindBook(s.books, pk)
    case None => DoesNotExist
    case Some(b) =>
      match FindCustomer(s.customers, b.customer)
      case None => DoesNotExist
      case Some(c) => Page((b, c))
  }

  /** With unique keys the edit page shows exactly the book with key `pk` and the customer
      it references, whenever both exist. */
  lemma EditFormShows(s: Store, b: Book, c: Customer)
    requires WellFormed(s)
    requires b in s.books && c in s.customers && c.id == b.customer
    ensures EditForm(s, b.id) == Page((b, c))
  {
    FindBookUnique(s.books, b);
    FindCustomerUnique(s.customers, c);
  }

  /** Saves the customer form over the customer with key `id`. */
  function UpdateCustomer(customers: seq<Customer>, id: nat, cf: CustomerFields): (r: seq<Customer>)
    ensures |r| == |customers|
    ensures forall i :: 0 <= i < |r| ==> r[i].id == customers[i].id
    ensures forall i :: 0 <= i < |r| && customers[i].id == id ==> r[i].name == cf.name && r[i].contact == cf.contact
    ensures forall i :: 0 <= i < |r| && customers[i].id != id ==> r[i] == customers[i]
  {
    if customers == [] then []
    else
      var head := if customers[0].id == id then Customer(id, cf.name, cf.contact) else customers[0];
      [head] + UpdateCustomer(customers[1..], id, cf)
  }

  /** Editing booking `pk`: only its customer's fields change, and only when the customer
      form is valid; an invalid form changes nothing and produces no response at all. */
  function EditBooking(s: Store, pk: nat, cf: CustomerFields, customerValid: CustomerFields -> bool): (r: Step<()>)
    ensures r.store.rooms == s.rooms && r.store.books == s.books
    ensures EditForm(s, pk).DoesNotExist? ==> r == Step(s, DoesNotExist)
    ensures EditForm(s, pk).Page? && !customerValid(cf) ==> r == Step(s, NoResponse)
    ensures EditForm(s, pk).Page? && customerValid(cf) ==>
              && r.response == Redirect(Home)
              && var id := EditForm(s, pk).data.1.id;
              && |r.store.customers| == |s.customers|
              && (forall i :: 0 <= i < |s.customers| && s.customers[i].id == id ==>
                    r.store.customers[i] == Customer(id, cf.name, cf.contact))
              && (forall i :: 0 <= i < |s.customers| && s.customers[i].id != id ==>
                    r.store.customers[i] == s.customers[i])
  {
    match EditForm(s, pk)
    case Page((b, c)) =>
      if customerValid(cf) then
        Step(s.(customers := UpdateCustomer(s.customers, c.id, cf)), Redirect(Home))
      else
        Step(s, NoResponse)
    case _ => Step(s, DoesNotExist)
  }

  /** After a valid edit the edit page of `pk` shows the same book and the edited customer. */
  lemma EditFormAfterEdit(s: Store, pk: nat, cf: CustomerFields, customerValid: CustomerFields -> bool)
    requires EditForm(s, pk).Page? && customerValid(cf)
    ensures EditForm(EditBooking(s, pk, cf, customerValid).store, pk).Page?
    ensures EditForm(EditBooking(s, pk, cf, customerValid).store, pk).data.1.id == EditForm(s, pk).data.1.id
  {
    var once := EditBooking(s, pk, cf, customerValid).store;
    var c := EditForm(s, pk).data.1;
    var i :| 0 <= i < |s.customers| && s.customers[i] == c;
    assert once.customers[i] in once.customers;
  }

  /** Submitting the same valid edit twice is submitting it once. */
  lemma EditIdempotent(s: Store, pk: nat, cf: CustomerFields, customerValid: CustomerFields -> bool)
    requires EditForm(s, pk).Page? && customerValid(cf)
    ensures EditBooking(EditBooking(s, pk, cf, customerValid).store, pk, cf, customerValid)
         == EditBooking(s, pk, cf, customerValid)
  {
    var once := EditBooking(s, pk, cf, customerValid).store;
    EditFormAfterEdit(s, pk, cf, customerValid);
    var twice := EditBooking(once, pk, cf, customerValid).store;
    assert twice.customers == once.customers;
  }

  lemma EditPreservesWellFormed(s: Store, pk: nat, cf: CustomerFields, customerValid: CustomerFields -> bool)
    requires WellFormed(s)
    ensures WellFormed(EditBooking(s, pk, cf, customerValid).store)
  {
  }
}
