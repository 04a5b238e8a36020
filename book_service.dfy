/** BookService: the combined shelf search. The repository's `LIKE` queries
    are given as functions from the keyword to the books they return. */
module BookService {
  import opened Wrappers
  import opened Text
  import opened Sequences
  import opened Entities

  /** What `searchBooks(keyword)` returns: every book for a null or blank
      keyword; otherwise the title, author and publisher hits, in that order,
      with repeated books dropped after their first appearance. */
  function SearchResult(keyword: Option<string>, all: seq<Book>,
                        byTitle: string -> seq<Book>, byAuthor: string -> seq<Book>,
                        byPublisher: string -> seq<Book>): seq<Book>
  {
    if IsNullOrBlank(keyword) then all
    else Distinct(byTitle(keyword.value) + byAuthor(keyword.value) + byPublisher(keyword.value))
  }

  /** `searchBooks`: `all` is `getAllBooks()`. */
  method SearchBooks(keyword: Option<string>, all: seq<Book>,
                     byTitle: string -> seq<Book>, byAuthor: string -> seq<Book>,
                     byPublisher: string -> seq<Book>)
    returns (books: seq<Book>)
    ensures books == SearchResult(keyword, all, byTitle, byAuthor, byPublisher)
    ensures IsNullOrBlank(keyword) ==> books == all
  {
    if keyword.None? || IsBlank(keyword.value) {
      return all;
    }
    var results: seq<Book> := [];
    results := results + byTitle(keyword.value);
    results := results + byAuthor(keyword.value);
    results := results + byPublisher(keyword.value);
    assert results == byTitle(keyword.value) + byAuthor(keyword.value) + byPublisher(keyword.value);
    books := Distinct(results);
  }

  /** For a real keyword: no book twice; a book is found iff one of the three
      queries returned it; and the books keep the order in which they first
      appear among the title, then author, then publisher hits. */
  lemma SearchFindsEachMatchOnce(keyword: Option<string>, all: seq<Book>,
                                 byTitle: string -> seq<Book>, byAuthor: string -> seq<Book>,
                                 byPublisher: string -> seq<Book>)
    requires !IsNullOrBlank(keyword)
    ensures var r := SearchResult(keyword, all, byTitle, byAuthor, byPublisher);
      var hits := byTitle(keyword.value) + byAuthor(keyword.value) + byPublisher(keyword.value);
      NoDuplicates(r) &&
      (forall b :: b in r <==>
        b in byTitle(keyword.value) || b in byAuthor(keyword.value) || b in byPublisher(keyword.value)) &&
      (forall i, j :: 0 <= i < j < |r| ==> IndexOf(hits, r[i]) < IndexOf(hits, r[j]))
  {
    var hits := byTitle(keyword.value) + byAuthor(keyword.value) + byPublisher(keyword.value);
    DistinctKeepsFirstOccurrenceOrder(hits);
    var r := Distinct(hits);
    forall b ensures b in r <==> b in hits {
      if b in r {
        var i :| 0 <= i < |r| && r[i] == b;
      }
      if b in hits {
        var i :| 0 <= i < |hits| && hits[i] == b;
      }
    }
  }
}
