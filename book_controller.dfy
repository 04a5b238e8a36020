/** BookController: the Kakao search page, the registration forms filled
    from an API hit, and the shelf list with five librarian
    recommendations. */
module BookController {
  import opened Wrappers
  import opened Text
  import opened Http
  import opened Json
  import opened Entities
  import opened Shuffle
  import Xml
  import KakaoBookApiService
  import NationalLibraryApiService

  const RecommendedCount := 5

  /** The model of the `books/search` template: the hits and the query, set
      only when a search was made. */
  datatype SearchPage = SearchPage(books: Option<seq<BookApiDto>>, query: Option<string>)

  /** `searchApiPage`: Kakao is asked only for a query that is not blank,
      `api(query)` being its answer. */
  method SearchApiPage(query: Option<string>, api: string -> Reply<Body>) returns (page: SearchPage)
    ensures page.books.Some? <==> !IsNullOrBlank(query)
    ensures page.books.Some? ==>
      page.query == query &&
      (api(query.value).CallFailed? ==> page.books.value == []) &&
      (api(query.value).Answered? ==> page.books.value == KakaoBookApiService.ParsedBooks(api(query.value).body))
    ensures page.books.None? ==> page.query.None?
  {
    if query.None? || IsBlank(query.value) {
      return SearchPage(None, None);
    }
    var books := KakaoBookApiService.Search(api(query.value));
    page := SearchPage(Some(books), query);
  }

  /** The book `newBookFromApi` puts in the form: title, author and
      publisher of the hit with the default genre "소설", or an empty book
      when there is no hit. */
  function BookFromApi(apiBook: Option<BookApiDto>): (b: Book)
    ensures apiBook.None? ==> b == EmptyBook
    ensures apiBook.Some? ==>
      b.title == apiBook.value.title && b.author == apiBook.value.author &&
      b.publisher == apiBook.value.publisher && b.genre == Some(KakaoBookApiService.Novel) &&
      b.(title := None, author := None, publisher := None, genre := None) == EmptyBook
  {
    match apiBook
    case None => EmptyBook
    case Some(a) => EmptyBook.(title := a.title, author := a.author, publisher := a.publisher,
                               genre := Some(KakaoBookApiService.Novel))
  }

  /** `newBookFromApi`: `reply` is Kakao's answer to the lookup of the ISBN. */
  method NewBookFromApi(reply: Reply<Body>) returns (book: Book)
    ensures reply.CallFailed? ==> book == EmptyBook
    ensures reply.Answered? ==>
      var hits := KakaoBookApiService.ParsedBooks(reply.body);
      book == BookFromApi(if hits == [] then None else Some(hits[0]))
  {
    var apiBook := KakaoBookApiService.GetBookByIsbn(reply);
    book := BookFromApi(apiBook);
  }

  /** The genre `newBookFromRecommend` derives from a National Library
      subject: literature wins, then history, science or technology,
      philosophy or religion, and anything else is "기타". */
  function SubjectGenre(subject: string): (g: string)
    ensures g == "소설" <==> Contains(subject, "문학")
    ensures g == "역사" <==> !Contains(subject, "문학") && Contains(subject, "역사")
    ensures g == "과학" <==>
      !Contains(subject, "문학") && !Contains(subject, "역사") &&
      (Contains(subject, "과학") || Contains(subject, "기술"))
    ensures g == "인문" <==>
      !Contains(subject, "문학") && !Contains(subject, "역사") &&
      !Contains(subject, "과학") && !Contains(subject, "기술") &&
      (Contains(subject, "철학") || Contains(subject, "종교"))
    ensures g == "기타" <==>
      !Contains(subject, "문학") && !Contains(subject, "역사") &&
      !Contains(subject, "과학") && !Contains(subject, "기술") &&
      !Contains(subject, "철학") && !Contains(subject, "종교")
  {
    if Contains(subject, "문학") then "소설"
    else if Contains(subject, "역사") then "역사"
    else if Contains(subject, "과학") || Contains(subject, "기술") then "과학"
    else if Contains(subject, "철학") || Contains(subject, "종교") then "인문"
    else "기타"
  }

  /** The book `newBookFromRecommend` puts in the form: title, author and
      publisher of the hit, and a genre only when the hit has a subject. */
  function BookFromRecommended(apiBook: Option<BookApiDto>): (b: Book)
    ensures apiBook.None? ==> b == EmptyBook
    ensures apiBook.Some? ==>
      b.title == apiBook.value.title && b.author == apiBook.value.author &&
      b.publisher == apiBook.value.publisher &&
      (apiBook.value.subject.None? ==> b.genre.None?) &&
      (apiBook.value.subject.Some? ==> b.genre == Some(SubjectGenre(apiBook.value.subject.value))) &&
      b.(title := None, author := None, publisher := None, genre := None) == EmptyBook
  {
    match apiBook
    case None => EmptyBook
    case Some(a) =>
      EmptyBook.(title := a.title, author := a.author, publisher := a.publisher,
                 genre := if a.subject.None? then None else Some(SubjectGenre(a.subject.value)))
  }

  /** `newBookFromRecommend`: `reply` is the National Library's answer to
      the lookup of the ISBN. */
  method NewBookFromRecommend(reply: Reply<Body>) returns (book: Book)
    ensures var hits := NationalLibraryApiService.SearchResults(reply);
      book == BookFromRecommended(if hits == [] then None else Some(hits[0]))
  {
    var apiBook := NationalLibraryApiService.GetBookByIsbn(reply);
    book := BookFromRecommended(apiBook);
  }

  /** A non-negative `count` bounds the latest recommendations. */
  lemma LatestRecommendedAtMost(count: int, reply: Reply<Xml.Body>, draw: Draw, entropy: int)
    requires count >= 0
    ensures |NationalLibraryApiService.LatestRecommended(count, reply, draw, entropy)| <= count
  {
    if reply.Answered? && reply.body.Text? && !IsBlank(reply.body.text) {
      NationalLibraryApiService.LatestRecommendedDrawsFromAnswer(count, reply.body, draw, entropy);
    }
  }

  /** `list`: the shelf and at most five of the latest librarian
      recommendations, asked for in one request of 50 rows. */
  method List(all: seq<Book>, api: int -> Reply<Xml.Body>, draw: Draw, entropy: int)
    returns (books: seq<Book>, recommended: seq<RecommendedBookDto>)
    ensures books == all
    ensures recommended == NationalLibraryApiService.LatestRecommended(RecommendedCount, api(50), draw, entropy)
    ensures |recommended| <= RecommendedCount
  {
    books := all;
    assert FetchCount(RecommendedCount) == 50;
    recommended := NationalLibraryApiService.GetLatestRecommendedBooks(RecommendedCount, api, draw, entropy);
    LatestRecommendedAtMost(RecommendedCount, api(50), draw, entropy);
  }
}
