/** The booking listings: the home page (`HomeView.get`), every booking newest first, and
    the free-text search (`BookSearchView.get`), the bookings whose code or customer name
    contains the `filter` parameter, ignoring case, newest first. */
module Listing {
  import opened Collections
  import opened Text
  import opened Schema

  /** `order_by("-created")`. */
  predicate NewerFirst(a: Book, b: Book) {
    a.created >= b.created
  }

  lemma NewerFirstIsTotal()
    ensures TotalPreorder(NewerFirst)
  {
  }

  /** The home page: every booking, cancelled ones included, newest first. */
  function HomeBooks(s: Store): (r: seq<Book>)
    ensures multiset(r) == multiset(s.books)
    ensures SortedBy(r, NewerFirst)
  {
    NewerFirstIsTotal();
    SortBy(s.books, NewerFirst)
  }

  /** `Q(code__icontains = text) | Q(customer__name__icontains = text)`. */
  predicate Matches(s: Store, b: Book, text: string) {
    || IContains(b.code, text)
    || (match FindCustomer(s.customers, b.customer)
        case Some(c) => IContains(c.name, text)
        case None => false)
  }

  function MatchingBooks(s: Store, text: string): seq<Book> {
    Filter(s.books, b => Matches(s, b, text))
  }

  /** The search handler: without a `filter` parameter it redirects home; otherwise it
      lists the matching bookings newest first. */
  function SearchBooks(s: Store, params: map<string, string>): (r: Response<seq<Book>>)
    ensures r.Redirect? || r.Page?
    ensures r.Redirect? <==> "filter" !in params
    ensures r.Redirect? ==> r.location == Home
    ensures r.Page? ==> forall b :: b in r.data <==> b in s.books && Matches(s, b, params["filter"])
    ensures r.Page? ==> multiset(r.data) == multiset(MatchingBooks(s, params["filter"]))
    ensures r.Page? ==> SortedBy(r.data, NewerFirst)
  {
    if "filter" !in params then
      Redirect(Home)
    else
      NewerFirstIsTotal();
      var found := SortBy(MatchingBooks(s, params["filter"]), NewerFirst);
      assert forall b :: b in found <==> b in MatchingBooks(s, params["filter"]) by {
        forall b ensures b in found <==> b in MatchingBooks(s, params["filter"]) {
          assert b in found <==> b in multiset(found);
        }
      }
      Page(found)
  }

  /** An empty filter matches everything, so the search shows the home page's list. */
  lemma EmptyFilterListsEverything(s: Store)
    ensures SearchBooks(s, map["filter" := ""]) == Page(HomeBooks(s))
  {
    forall b | b in s.books ensures Matches(s, b, "") {
      IContainsEmpty(b.code);
    }
    FilterAll(s.books, b => Matches(s, b, ""));
  }

  /** Upper- and lower-case filter text find the same bookings in the same order. */
  lemma SearchIgnoresCase(s: Store, text: string)
    ensures SearchBooks(s, map["filter" := Lower(text)]) == SearchBooks(s, map["filter" := text])
  {
    forall b | b in s.books ensures Matches(s, b, Lower(text)) == Matches(s, b, text) {
      IContainsIgnoresCase(b.code, text);
      match FindCustomer(s.customers, b.customer)
      case Some(c) => IContainsIgnoresCase(c.name, text);
      case None =>
    }
    FilterExtensional(s.books, b => Matches(s, b, Lower(text)), b => Matches(s, b, text));
  }
}
