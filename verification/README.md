# Hotel booking views, modelled in Dafny

A model of the request handlers of a small hotel-room booking administration tool
(`pms/views_.py`). Each handler is an ORM query or update over four tables (room types,
rooms, customers, books). Here each becomes a pure function over an in-memory `Store`:
queries return data, and writing handlers return the next store together with the
response (`Redirect`, `Page(data)`, `NoResponse` for a view that returns nothing, or
`DoesNotExist` for a `get` on a missing key).

Modules, leaves first:

- `Collections` (collections.dfy): `Option`, order-keeping `Filter`, and `SortBy` (insertion sort by a
  total preorder) with lemmas on counting filtered elements.
- `Text` (text.dfy): the `icontains` lookup (ASCII case folding, substring test) and the
  code-point lexicographic order used for room names.
- `Schema` (schema.dfy): the records, the `Store`, the `Response` tag, `objects.get` lookups and
  the fresh keys the database hands out.
- `RoomSearch` (search.dfy): `RoomSearchView.post`, the availability search and the
  per-room-type counts.
- `Bookings` (bookings.dfy): `BookView.get`/`post`, `DeleteBookView.get`/`post` and
  `EditBookView.get`/`post`.
- `Listing` (listing.dfy): `HomeView.get` and `BookSearchView.get`.
- `Dashboard` (dashboard.dfy): `DashboardView.get` for a given day.

Representation choices:

- Dates are integer day numbers. The nights of a stay are `checkout - checkin`, and this
  difference is not checked to be positive, as in the source.
- `created` is a timestamp in microseconds. The dashboard keeps the source's inclusive range
  from `time.min` to `time.max` of the day. `Dashboard.CreatedOnIsDay` proves that this range
  is exactly "the creation timestamp falls on that day".
- Prices and totals are unbounded integers.
- A room carries its room-type row. The per-type counts group by that whole row. The source
  groups by the type's name and key, and in the database these determine the row.
- The availability exclusion is read per booking. A room is excluded when one live (`NEW`)
  booking of it satisfies both `checkin <= requested checkout` and
  `checkout >= requested checkin`. This is an explicit assumption. The ORM's `exclude()`
  across the multi-valued `book` relation can let different bookings meet different
  conditions, and that is not modelled.
- Form validity is a parameter: `customerValid` for the customer form and `bookValid` for
  the book form. `bookValid` sees the store after the customer was saved, and the posted
  fields after `book-customer` and `book-room` were overwritten. The created book's state,
  code and total are parameters: the posted values. The handler itself does not set them,
  and whether the form or the model class does is not modelled.
- The `order_by` sorts leave ties unspecified. The model promises an ordered permutation.

Where the handlers behave in ways worth noting, the model follows the code:

- A missing `filter` parameter redirects home. Missing `checkin`/`checkout`/`guests`
  parameters make `RoomSearchView.post` raise; they do not redirect. In the same way a
  missing `checkin`/`checkout` makes `BookView.get` raise. The model takes these values as
  typed arguments (a query for the search, two day numbers for the confirmation page).
- `EditBookView.post` does not check the book's state, so a cancelled booking's customer
  can still be edited. The model allows it too.
- An invalid customer edit returns nothing (`NoResponse`), not a redirect.

## Model

| member | source | states |
|---|---|---|
| RoomSearch.Search | pms/views_.py:43-69 | a room is listed iff it is in the store, its type holds at least `guests`, and no live booking of it has `checkin <= requested checkout` and `checkout >= requested checkin`; the listing is a permutation of the available rooms ordered by (max guests, name); each listed room costs nights × price; one count row per type of listed room, with distinct types, each count equal to the number of available rooms of that type and positive, rows in max-guests order, counts summing to the number of listed rooms |
| RoomSearch.OrderedRooms | pms/views_.py:58-63 | the rooms result holds exactly the available rooms, as many times as the store does, ordered by (max guests, name) |
| RoomSearch.Tally | pms/views_.py:64-69 | per-type counting of a room list: distinct types, each count equal to that type's rooms and positive, every room's type present, counts summing to the list length, capacity order kept |
| RoomSearch.TallyAddsUp | pms/views_.py:64-69 | the per-type counts of a room list add up to its length |
| RoomSearch.CountOfTypePermutation | pms/views_.py:64-69 | the count of a type does not depend on the order of the rooms, so counting the ordered listing counts the store's available rooms |
| RoomSearch.KindsOrdered | pms/views_.py:69 | the types of a room list ordered by (max guests, name) appear in max-guests order |
| RoomSearch.RoomOrderIsTotal | pms/views_.py:62 | the (max guests, name) ordering is total and transitive, so the sort is well defined |
| RoomSearch.InclusiveBoundaryScenario | pms/views_.py:53-57 | room 101 with a live stay from day 10 to day 12 is refused for a stay starting on day 12 and offered at 100 for a stay starting on day 13 |
| RoomSearch.OnlyTouchingLiveBookingsBlock | pms/views_.py:53-57 | cancelled bookings never block; stays wholly before or after never block; a live stay of the room sharing even one boundary day blocks |
| Bookings.QuoteStay | pms/views_.py:113-124 | the confirmation page exists iff the room key exists, and quotes that room with total = (checkout − checkin) × its type's price |
| Bookings.QuoteMatchesSearch | pms/views_.py:118-123 | with unique room keys, the confirmation page of a listed room quotes the same total the search listed for it |
| Bookings.CreateBooking | pms/views_.py:96-111 | always redirects home; an invalid customer leaves the store unchanged; a valid customer is appended under a fresh key; the book is appended only if its form is also valid, and it then has a fresh key, the new customer, room `pk`, the posted dates, total and state, and the given creation time; otherwise the books stay as they were |
| Bookings.CreatePreservesWellFormed | pms/views_.py:96-111 | creation keeps every table's primary keys unique |
| Bookings.CreatedBookBlocksRoom | pms/views_.py:108-110 | once a live book is stored for room `pk`, that room is missing from every search whose dates touch the book's stay |
| Bookings.CreatedBookChargesQuote | pms/views_.py:103-110 | a book created from the confirmation page's total is charged nights × the room type's price |
| Bookings.ConfirmDelete | pms/views_.py:138-144 | the deletion page shows the book with key `pk`, or `DoesNotExist` exactly when no book has that key |
| Bookings.ConfirmAfterDelete | pms/views_.py:138-149 | after cancelling `pk`, the deletion page shows the same booking with state DEL; a missing key stays missing |
| Bookings.MarkDeleted | pms/views_.py:148 | the update sets the state of the books with key `pk` to DEL, changes no other field, and leaves all other books unchanged |
| Bookings.DeleteBook | pms/views_.py:147-149 | always redirects home; rooms and customers unchanged; only the state of book `pk` changes, to DEL |
| Bookings.DeleteIdempotent | pms/views_.py:147-149 | deleting twice gives the same store and response as deleting once |
| Bookings.DeleteMissingIsNoOp | pms/views_.py:148 | deleting a key no book has leaves the store unchanged |
| Bookings.DeletePreservesWellFormed | pms/views_.py:147-149 | deletion keeps book keys unique |
| Bookings.AvailabilityAfterDelete | pms/views_.py:148 | after deleting `pk`, a room is available iff it fits and no live booking other than `pk` touches the dates |
| Bookings.EditForm | pms/views_.py:154-164 | the edit page shows book `pk` and the customer it references; it is shown whenever that book and its customer exist; a missing book gives `DoesNotExist` |
| Bookings.EditFormShows | pms/views_.py:156-158 | with unique keys, the edit page of an existing book shows exactly that book and the customer it references |
| Bookings.UpdateCustomer | pms/views_.py:171-173 | saving the customer form rewrites name and contact of the customer with that key and no other customer |
| Bookings.EditBooking | pms/views_.py:169-174 | rooms and books never change; a missing book or customer gives `DoesNotExist` and no change; an invalid form gives `NoResponse` and no change; a valid form redirects home and rewrites only the booked customer |
| Bookings.EditFormAfterEdit | pms/views_.py:169-174 | after a valid edit the booking still leads to the same customer key |
| Bookings.EditIdempotent | pms/views_.py:169-174 | submitting the same valid edit twice gives the same result as submitting it once |
| Bookings.EditPreservesWellFormed | pms/views_.py:169-174 | editing keeps every table's keys unique |
| Listing.HomeBooks | pms/views_.py:87-92 | the home page lists every book, cancelled ones included, as a permutation of the book table, newest first |
| Listing.SearchBooks | pms/views_.py:16-29 | without a `filter` parameter the handler redirects home; otherwise it lists exactly the books whose code or customer name contains the filter ignoring case, newest first |
| Listing.EmptyFilterListsEverything | pms/views_.py:20-22 | an empty filter matches every book, so the search lists the same books as the home page in the same order, ties aside (the model breaks ties in `created` the same way in both listings; two database queries need not) |
| Listing.SearchIgnoresCase | pms/views_.py:21 | lower-casing the filter text does not change the search result |
| Text.Contains | pms/views_.py:21 | the substring test is true iff the needle occurs at some position of the text |
| Text.IContainsIgnoresCase | pms/views_.py:21 | the case of the text or of the needle does not change `icontains` |
| Text.IContainsEmpty | pms/views_.py:21 | the empty needle is contained in every text |
| Dashboard.Summarize | pms/views_.py:177-216 | new bookings = the number of rows created within the day, cancelled ones included; arrivals = the number of live rows with check-in that day; departures = the number of live rows with check-out that day; invoiced is absent iff every book created that day is cancelled, and otherwise is the row-by-row sum of the totals of the live books created that day; with non-negative totals the invoiced sum is non-negative |
| Dashboard.CreatedOnIsDay | pms/views_.py:182-186 | the inclusive [00:00:00, 23:59:59.999999] range holds exactly the timestamps whose day is `today` |
| Dashboard.NewBooksSplit | pms/views_.py:185-209 | new bookings = bookings behind the invoiced sum + cancelled bookings created that day |
| Dashboard.DeleteEffectOnSummary | pms/views_.py:185-209 | a deletion keeps the new-bookings count and never raises the arrivals, the departures or the number of invoiced bookings |
| Dashboard.CreateEffectOnSummary | pms/views_.py:185-209 | a book stored today adds one new booking, and a live one adds its total to the invoiced sum; a rejected submission changes no figure |
| Dashboard.SummaryAfterAppend | pms/views_.py:185-209 | one more book created today adds one to new bookings and, when live, its total to the invoiced sum |
| Dashboard.DashboardScenario | pms/views_.py:177-216 | for one live arrival, one cancelled departure created today and an older live departure, the figures are 2 new, 1 arriving, 1 leaving, 300 invoiced |
| Schema.FindRoom | pms/views_.py:119 | the lookup returns a room with the key, and fails exactly when no room has it |
| Schema.FindBook | pms/views_.py:140 | the lookup returns a book with the key, and fails exactly when no book has it |
| Schema.NextCustomerId | pms/views_.py:101 | a saved customer's key differs from every key in use |
| Collections.SortBy | pms/views_.py:88 | `order_by` yields an ordered permutation of its input |

## Left out

- Template rendering, the `context` dictionaries, `url_query`/`urlencode`, the CSRF
  decorator and the `print` call are not modelled. They are presentation.
  `RoomSearchView.get` only renders an empty form and is not modelled.
- Django form validation: `forms.py` is not part of this model. Validity is a parameter,
  and the fields of a customer are reduced to a name and one contact field.
- Parsing of `Ymd` dates: `form_dates` is not part of this model. Dates are day numbers.
- Prices as decimals: totals are integers.
- Timezones: timestamps are naive.
- The ORM's exclusion semantics across the multi-valued `book` relation are not modelled.
  The model reads the exclusion per booking, as described above.
- The race between a search and a later insert, and transaction semantics, are not
  modelled. This is concurrency.
- Database errors on save (integrity errors) are not modelled.
- `MultipleObjectsReturned` cannot happen under unique keys and is not modelled. Lookups
  return the first row with the key.
- `icontains` folds ASCII letters only. Other Unicode case pairs are not folded.
- Room names are ordered by code point, not by the database collation.
- The unused imports (`multiprocessing.context`, `urllib.request`) are not modelled.
- Listing.EmptyFilterListsEverything: the equality of order holds for the model's sort,
  which breaks ties in `created` the same way in both listings. The database does not
  promise that for two separate queries, so in the source the order agrees only up to ties.
