/** The relational store the booking views read and write: room types, rooms,
    customers and books, each table a sequence of immutable records. */
module Schema {
  import opened Collections

  /** A book is live (`New`) or cancelled (`Del`); nothing is ever hard-deleted. */
  datatype State = New | Del

  /** Static reference data: nightly price (whole currency units) and guest capacity. */
  datatype RoomType = RoomType(id: nat, name: string, price: int, maxGuests: int)

  /** A room carries the row of its type, as `room.room_type` reaches it through the foreign key. */
  datatype Room = Room(id: nat, name: string, roomType: RoomType)

  datatype Customer = Customer(id: nat, name: string, contact: string)

  /** A booking. `room` and `customer` are foreign keys; `checkin` and `checkout` are day
      numbers; `created` is a timestamp in microseconds since the epoch. */
  datatype Book = Book(
    id: nat,
    code: string,
    room: nat,
    customer: nat,
    checkin: int,
    checkout: int,
    total: int,
    created: int,
    state: State)

  datatype Store = Store(rooms: seq<Room>, customers: seq<Customer>, books: seq<Book>)

  /** What a handler hands back: a redirect, a rendered page with its data, nothing at all
      (a view that falls off its end), or the ORM's `DoesNotExist` for a missing id. */
  datatype Response<+T> = Redirect(location: string) | Page(data: T) | NoResponse | DoesNotExist

  /** A handler that writes: the store afterwards and the response. */
  datatype Step<+T> = Step(store: Store, response: Response<T>)

  const Home: string := "/"

  /** Primary keys are unique in every table. */
  ghost predicate WellFormed(s: Store) {
    && (forall i, j :: 0 <= i < j < |s.rooms| ==> s.rooms[i].id != s.rooms[j].id)
    && (forall i, j :: 0 <= i < j < |s.customers| ==> s.customers[i].id != s.customers[j].id)
    && (forall i, j :: 0 <= i < j < |s.books| ==> s.books[i].id != s.books[j].id)
  }

  /** `Room.objects.get(id = pk)`. */
  function FindRoom(rooms: seq<Room>, pk: nat): (r: Option<Room>)
    ensures r.Some? ==> r.value in rooms && r.value.id == pk
    ensures r.None? <==> forall room :: room in rooms ==> room.id != pk
  {
    if rooms == [] then None
    else if rooms[0].id == pk then Some(rooms[0])
    else FindRoom(rooms[1..], pk)
  }

  /** `Customer.objects.get(id = pk)`, the target of a book's `customer` key. */
  function FindCustomer(customers: seq<Customer>, pk: nat): (r: Option<Customer>)
    ensures r.Some? ==> r.value in customers && r.value.id == pk
    ensures r.None? <==> forall c :: c in customers ==> c.id != pk
  {
    if customers == [] then None
    else if customers[0].id == pk then Some(customers[0])
    else FindCustomer(customers[1..], pk)
  }

  /** `Book.objects.get(id = pk)`. */
  function FindBook(books: seq<Book>, pk: nat): (r: Option<Book>)
    ensures r.Some? ==> r.value in books && r.value.id == pk
    ensures r.None? <==> forall b :: b in books ==> b.id != pk
  {
    if books == [] then None
    else if books[0].id == pk then Some(books[0])
    else FindBook(books[1..], pk)
  }

  /** With unique keys the lookup finds the one book with that key. */
  lemma FindBookUnique(books: seq<Book>, b: Book)
    requires forall i, j :: 0 <= i < j < |books| ==> books[i].id != books[j].id
    requires b in books
    ensures FindBook(books, b.id) == Some(b)
  {
    if books[0] != b {
      assert b in books[1..];
      FindBookUnique(books[1..], b);
    }
  }

  /** With unique keys the lookup finds the one room with that key. */
  lemma FindRoomUnique(rooms: seq<Room>, room: Room)
    requires forall i, j :: 0 <= i < j < |rooms| ==> rooms[i].id != rooms[j].id
    requires room in rooms
    ensures FindRoom(rooms, room.id) == Some(room)
  {
    if rooms[0] != room {
      assert room in rooms[1..];
      FindRoomUnique(rooms[1..], room);
    }
  }

  /** With unique keys the lookup finds the one customer with that key. */
  lemma FindCustomerUnique(customers: seq<Customer>, c: Customer)
    requires forall i, j :: 0 <= i < j < |customers| ==> customers[i].id != customers[j].id
    requires c in customers
    ensures FindCustomer(customers, c.id) == Some(c)
  {
    if customers[0] != c {
      assert c in customers[1..];
      FindCustomerUnique(customers[1..], c);
    }
  }

  /** The key the database assigns to a new customer row: above every key in use. */
  function NextCustomerId(customers: seq<Customer>): (r: nat)
    ensures forall c :: c in customers ==> c.id < r
  {
    if customers == [] then 1
    else
      var rest := NextCustomerId(customers[1..]);
      if customers[0].id < rest then rest else customers[0].id + 1
  }

  /** The key the database assigns to a new book row: above every key in use. */
  function NextBookId(books: seq<Book>): (r: nat)
    ensures forall b :: b in books ==> b.id < r
  {
    if books == [] then 1
    else
      var rest := NextBookId(books[1..]);
      if books[0].id < rest then rest else books[0].id + 1
  }
}
