/** `RoomSearchView.post`: the rooms that can host the requested number of guests and
    have no live booking touching the requested dates, each priced for the stay, ordered
    by (capacity, name), together with a per-room-type count ordered by capacity.

    The exclusion is read per booking: a room is excluded when ONE live booking of it meets
    both date conditions. (The ORM's `exclude` across the multi-valued `book` relation may
    let the three conditions be met by different bookings; that reading is not modelled.) */
module RoomSearch {
  import opened Collections
  import opened Text
  import opened Schema

  /** The posted search form: dates as day numbers and the guest count. */
  datatype SearchQuery = SearchQuery(checkin: int, checkout: int, guests: int)

  /** A listed room with the price of the whole stay (`annotate(total = …)`). */
  datatype Offer = Offer(room: Room, total: int)

  /** One row of the per-type listing: a room type and how many of its rooms are free. */
  datatype TypeCount = TypeCount(roomType: RoomType, count: nat)

  datatype SearchResult = SearchResult(totalDays: int, offers: seq<Offer>, counts: seq<TypeCount>)

  /** Nights of a stay: the day difference, not checked to be positive. */
  function Nights(checkin: int, checkout: int): int {
    checkout - checkin
  }

  /** Price of a stay in a room of type `rt`. */
  function StayTotal(rt: RoomType, checkin: int, checkout: int): int {
    Nights(checkin, checkout) * rt.price
  }

  /** `room_type__max_guests__gte = guests`. */
  predicate Fits(room: Room, guests: int) {
    room.roomType.maxGuests >= guests
  }

  /** `b` is a live booking of `room` whose stay touches the requested dates; both ends
      are inclusive, so a stay ending on the requested check-in day conflicts. */
  predicate Conflicts(b: Book, room: Room, q: SearchQuery) {
    b.room == room.id && b.state == New && b.checkin <= q.checkout && b.checkout >= q.checkin
  }

  predicate Available(books: seq<Book>, room: Room, q: SearchQuery) {
    Fits(room, q.guests) && forall b :: b in books ==> !Conflicts(b, room, q)
  }

  /** The filtered, unordered room set both queries of the handler start from. */
  function AvailableRooms(s: Store, q: SearchQuery): seq<Room> {
    Filter(s.rooms, room => Available(s.books, room, q))
  }

  /** `order_by("room_type__max_guests", "name")`. */
  predicate RoomLe(a: Room, b: Room) {
    || a.roomType.maxGuests < b.roomType.maxGuests
    || (a.roomType.maxGuests == b.roomType.maxGuests && StrLe(a.name, b.name))
  }

  lemma RoomOrderIsTotal()
    ensures TotalPreorder(RoomLe)
  {
    forall a: Room, b: Room ensures RoomLe(a, b) || RoomLe(b, a) {
      StrLeTotal(a.name, b.name);
    }
    forall a: Room, b: Room, c: Room | RoomLe(a, b) && RoomLe(b, c) ensures RoomLe(a, c) {
      if a.roomType.maxGuests == b.roomType.maxGuests == c.roomType.maxGuests {
        StrLeTransitive(a.name, b.name, c.name);
      }
    }
  }

  function Rooms(offers: seq<Offer>): (r: seq<Room>)
    ensures |r| == |offers|
    ensures forall i :: 0 <= i < |r| ==> r[i] == offers[i].room
  {
    seq(|offers|, i requires 0 <= i < |offers| => offers[i].room)
  }

  /** Prices every room for the stay, keeping the order. */
  function Annotate(rooms: seq<Room>, checkin: int, checkout: int): (r: seq<Offer>)
    ensures Rooms(r) == rooms
    ensures forall i :: 0 <= i < |r| ==> r[i].total == StayTotal(rooms[i].roomType, checkin, checkout)
  {
    seq(|rooms|, i requires 0 <= i < |rooms| => Offer(rooms[i], StayTotal(rooms[i].roomType, checkin, checkout)))
  }

  /** Number of rooms of type `t`: the `Count('room_type')` of one group. */
  function CountOfType(rooms: seq<Room>, t: RoomType): nat {
    if rooms == [] then 0
    else (if rooms[0].roomType == t then 1 else 0) + CountOfType(rooms[1..], t)
  }

  lemma {:induction false} CountOfTypeAppend(a: seq<Room>, b: seq<Room>, t: RoomType)
    ensures CountOfType(a + b, t) == CountOfType(a, t) + CountOfType(b, t)
  {
    if a != [] {
      assert (a + b)[1..] == a[1..] + b;
      CountOfTypeAppend(a[1..], b, t);
    } else {
      assert a + b == b;
    }
  }

  /** Counting does not depend on the order of the rooms. */
  lemma {:induction false} CountOfTypePermutation(a: seq<Room>, b: seq<Room>, t: RoomType)
    requires multiset(a) == multiset(b)
    ensures CountOfType(a, t) == CountOfType(b, t)
    decreases |a|
  {
    if a != [] {
      assert a[0] in multiset(b);
      var k :| 0 <= k < |b| && b[k] == a[0];
      var rest := b[..k] + b[k + 1..];
      assert b == b[..k] + ([b[k]] + b[k + 1..]);
      RemoveMatching(a, b, k);
      CountOfTypePermutation(a[1..], rest, t);
      CountOfTypeAppend(b[..k], [b[k]] + b[k + 1..], t);
      CountOfTypeAppend(b[..k], b[k + 1..], t);
    }
  }

  lemma {:induction false} CountOfTypePositive(rooms: seq<Room>, t: RoomType)
    requires exists room :: room in rooms && room.roomType == t
    ensures CountOfType(rooms, t) > 0
  {
    if rooms[0].roomType != t {
      var room :| room in rooms && room.roomType == t;
      assert room in rooms[1..];
      CountOfTypePositive(rooms[1..], t);
    }
  }

  lemma {:induction false} CountOfTypeAbsent(rooms: seq<Room>, t: RoomType)
    requires forall room :: room in rooms ==> room.roomType != t
    ensures CountOfType(rooms, t) == 0
  {
    if rooms != [] {
      CountOfTypeAbsent(rooms[1..], t);
    }
  }

  /** The distinct room types of `rooms` (the `values("room_type__name", "room_type")` groups). */
  function Kinds(rooms: seq<Room>): (r: seq<RoomType>)
    ensures forall t :: t in r <==> exists room :: room in rooms && room.roomType == t
    ensures forall i, j :: 0 <= i < j < |r| ==> r[i] != r[j]
  {
    if rooms == [] then []
    else
      var rest := Kinds(rooms[1..]);
      assert forall room :: room in rooms <==> room == rooms[0] || room in rooms[1..];
      if rooms[0].roomType in rest then rest else [rooms[0].roomType] + rest
  }

  function Counts(kinds: seq<RoomType>, rooms: seq<Room>): (r: seq<TypeCount>)
    ensures |r| == |kinds|
    ensures forall i :: 0 <= i < |r| ==> r[i] == TypeCount(kinds[i], CountOfType(rooms, kinds[i]))
  {
    seq(|kinds|, i requires 0 <= i < |kinds| => TypeCount(kinds[i], CountOfType(rooms, kinds[i])))
  }

  function SumCounts(cs: seq<TypeCount>): int {
    if cs == [] then 0 else cs[0].count + SumCounts(cs[1..])
  }

  /** How often `t` occurs in `kinds`. */
  function Occurrences(kinds: seq<RoomType>, t: RoomType): nat {
    if kinds == [] then 0 else (if kinds[0] == t then 1 else 0) + Occurrences(kinds[1..], t)
  }

  lemma {:induction false} OccurrencesDistinct(kinds: seq<RoomType>, t: RoomType)
    requires forall i, j :: 0 <= i < j < |kinds| ==> kinds[i] != kinds[j]
    ensures Occurrences(kinds, t) == if t in kinds then 1 else 0
  {
    if kinds != [] {
      OccurrencesDistinct(kinds[1..], t);
      if kinds[0] == t {
        assert t !in kinds[1..];
      }
    }
  }

  /** Counting over one more room adds one to the group of that room's type only. */
  lemma {:induction false} SumCountsStep(kinds: seq<RoomType>, rooms: seq<Room>)
    requires rooms != []
    ensures SumCounts(Counts(kinds, rooms))
         == Occurrences(kinds, rooms[0].roomType) + SumCounts(Counts(kinds, rooms[1..]))
  {
    if kinds != [] {
      SumCountsStep(kinds[1..], rooms);
      assert Counts(kinds, rooms)[1..] == Counts(kinds[1..], rooms);
      assert Counts(kinds, rooms[1..])[1..] == Counts(kinds[1..], rooms[1..]);
    }
  }

  /** The groups of a room list add up to its length. */
  lemma {:induction false} TallyAddsUp(rooms: seq<Room>)
    ensures SumCounts(Counts(Kinds(rooms), rooms)) == |rooms|
  {
    if rooms != [] {
      var h := rooms[0].roomType;
      var rest := Kinds(rooms[1..]);
      TallyAddsUp(rooms[1..]);
      if h in rest {
        SumCountsStep(rest, rooms);
        OccurrencesDistinct(rest, h);
      } else {
        var ks := [h] + rest;
        assert Counts(ks, rooms)[1..] == Counts(rest, rooms);
        SumCountsStep(rest, rooms);
        OccurrencesDistinct(rest, h);
        CountOfTypeAbsent(rooms[1..], h);
      }
    }
  }

  /** The types of a capacity-ordered room list appear in capacity order. */
  lemma {:induction false} KindsOrdered(rooms: seq<Room>)
    ensures SortedBy(rooms, RoomLe) ==>
              forall i, j :: 0 <= i < j < |Kinds(rooms)| ==> Kinds(rooms)[i].maxGuests <= Kinds(rooms)[j].maxGuests
  {
    if rooms != [] && SortedBy(rooms, RoomLe) {
      KindsOrdered(rooms[1..]);
      var rest := Kinds(rooms[1..]);
      forall t | t in rest ensures rooms[0].roomType.maxGuests <= t.maxGuests {
        var room :| room in rooms[1..] && room.roomType == t;
        var k :| 0 <= k < |rooms[1..]| && rooms[1..][k] == room;
        assert RoomLe(rooms[0], rooms[k + 1]);
      }
    }
  }

  /** Every distinct type has a room, and every room's type is among them. */
  lemma KindsAreCounted(rooms: seq<Room>)
    ensures forall i :: 0 <= i < |Kinds(rooms)| ==> CountOfType(rooms, Kinds(rooms)[i]) > 0
    ensures forall room :: room in rooms ==> exists i :: 0 <= i < |Kinds(rooms)| && Kinds(rooms)[i] == room.roomType
  {
    var ks := Kinds(rooms);
    forall i | 0 <= i < |ks| ensures CountOfType(rooms, ks[i]) > 0 {
      assert ks[i] in ks;
      CountOfTypePositive(rooms, ks[i]);
    }
    forall room | room in rooms ensures exists i :: 0 <= i < |ks| && ks[i] == room.roomType {
      assert room.roomType in ks;
      var i :| 0 <= i < |ks| && ks[i] == room.roomType;
    }
  }

  /** The per-type listing of a room list. */
  function Tally(rooms: seq<Room>): (r: seq<TypeCount>)
    ensures forall i :: 0 <= i < |r| ==> r[i].count == CountOfType(rooms, r[i].roomType) && r[i].count > 0
    ensures forall i, j :: 0 <= i < j < |r| ==> r[i].roomType != r[j].roomType
    ensures forall room :: room in rooms ==> exists i :: 0 <= i < |r| && r[i].roomType == room.roomType
    ensures SumCounts(r) == |rooms|
    ensures SortedBy(rooms, RoomLe) ==>
              forall i, j :: 0 <= i < j < |r| ==> r[i].roomType.maxGuests <= r[j].roomType.maxGuests
  {
    var ks := Kinds(rooms);
    KindsOrdered(rooms);
    TallyAddsUp(rooms);
    KindsAreCounted(rooms);
    Counts(ks, rooms)
  }

  /** The available rooms in listing order. */
  function OrderedRooms(s: Store, q: SearchQuery): (r: seq<Room>)
    ensures forall room :: room in r <==> room in s.rooms && Available(s.books, room, q)
    ensures multiset(r) == multiset(AvailableRooms(s, q))
    ensures SortedBy(r, RoomLe)
  {
    RoomOrderIsTotal();
    var free := AvailableRooms(s, q);
    var ordered := SortBy(free, RoomLe);
    assert forall room :: room in ordered <==> room in free by {
      forall room ensures room in ordered <==> room in free {
        assert room in ordered <==> room in multiset(ordered);
      }
    }
    ordered
  }

  /** The handler: the rooms listing and the per-type listing for one posted query. */
  function Search(s: Store, q: SearchQuery): (r: SearchResult)
    ensures r.totalDays == q.checkout - q.checkin
    // every listed room is priced for the whole stay
    ensures forall i :: 0 <= i < |r.offers| ==> r.offers[i].total == r.totalDays * r.offers[i].room.roomType.price
    // a room is listed iff it is big enough and no live booking of it touches the dates
    ensures forall room :: room in Rooms(r.offers) <==> room in s.rooms && Available(s.books, room, q)
    ensures multiset(Rooms(r.offers)) == multiset(AvailableRooms(s, q))
    ensures SortedBy(Rooms(r.offers), RoomLe)
    // one row per type of listed room, counting its free rooms, in capacity order
    ensures forall i :: 0 <= i < |r.counts| ==>
              r.counts[i].count == CountOfType(AvailableRooms(s, q), r.counts[i].roomType) && r.counts[i].count > 0
    ensures forall i, j :: 0 <= i < j < |r.counts| ==> r.counts[i].roomType != r.counts[j].roomType
    ensures forall room :: room in Rooms(r.offers) ==>
              exists i :: 0 <= i < |r.counts| && r.counts[i].roomType == room.roomType
    ensures forall i, j :: 0 <= i < j < |r.counts| ==> r.counts[i].roomType.maxGuests <= r.counts[j].roomType.maxGuests
    ensures SumCounts(r.counts) == |r.offers|
  {
    var ordered := OrderedRooms(s, q);
    var counts := Tally(ordered);
    assert forall t :: CountOfType(ordered, t) == CountOfType(AvailableRooms(s, q), t) by {
      forall t ensures CountOfType(ordered, t) == CountOfType(AvailableRooms(s, q), t) {
        CountOfTypePermutation(ordered, AvailableRooms(s, q), t);
      }
    }
    SearchResult(Nights(q.checkin, q.checkout), Annotate(ordered, q.checkin, q.checkout), counts)
  }

  /** Room 101 (price 100, two guests) with one live booking from day 10 to day 12. */
  function BoundaryStore(): Store {
    Store([Room(101, "101", RoomType(1, "Double", 100, 2))],
          [Customer(1, "Ann", "")],
          [Book(1, "B1", 101, 1, 10, 12, 200, 0, New)])
  }

  /** The inclusive boundary on a concrete store: a stay from day 12, the day the existing
      booking checks out, is refused; a stay from day 13 is offered at 100 a night. */
  lemma InclusiveBoundaryScenario()
    ensures BoundaryStore().rooms[0] !in Rooms(Search(BoundaryStore(), SearchQuery(12, 14, 2)).offers)
    ensures Search(BoundaryStore(), SearchQuery(13, 14, 2)).offers == [Offer(BoundaryStore().rooms[0], 100)]
  {
    BoundaryRefused();
    BoundaryOffered();
  }

  lemma BoundaryRefused()
    ensures BoundaryStore().rooms[0] !in Rooms(Search(BoundaryStore(), SearchQuery(12, 14, 2)).offers)
  {
    var s := BoundaryStore();
    assert Conflicts(s.books[0], s.rooms[0], SearchQuery(12, 14, 2));
  }

  lemma BoundaryOffered()
    ensures Search(BoundaryStore(), SearchQuery(13, 14, 2)).offers == [Offer(BoundaryStore().rooms[0], 100)]
  {
    var s := BoundaryStore();
    var room := s.rooms[0];
    assert Available(s.books, room, SearchQuery(13, 14, 2));
    var r := Search(s, SearchQuery(13, 14, 2));
    assert room in Rooms(r.offers);
    assert multiset(Rooms(r.offers)) == multiset{room} by {
      assert AvailableRooms(s, SearchQuery(13, 14, 2)) == [room];
    }
    assert |Rooms(r.offers)| == 1;
  }

  /** Cancelled bookings never block a room, and neither do live ones whose stay lies
      wholly before or after the requested dates. */
  lemma OnlyTouchingLiveBookingsBlock(b: Book, room: Room, q: SearchQuery)
    ensures b.state == Del ==> !Conflicts(b, room, q)
    ensures q.checkout < b.checkin || q.checkin > b.checkout ==> !Conflicts(b, room, q)
    ensures b.room == room.id && b.state == New && q.checkin <= b.checkout && b.checkin <= q.checkout ==> Conflicts(b, room, q)
  {
  }
}
