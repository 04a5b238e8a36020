/** The records the services and controllers pass around. A field Java may
    leave `null` is an `Option`. */
module Entities {
  import opened Wrappers

  /** A search hit from the Kakao or the National Library search API. */
  datatype BookApiDto = BookApiDto(
    title: Option<string>,
    author: Option<string>,
    publisher: Option<string>,
    isbn: Option<string>,
    coverUrl: Option<string>,
    publishDate: Option<string>,
    page: Option<string>,
    subject: Option<string>,
    description: Option<string>)

  /** A librarian's recommendation from the National Library. */
  datatype RecommendedBookDto = RecommendedBookDto(
    title: string,
    author: string,
    publisher: string,
    isbn: string,
    coverUrl: Option<string>,
    contents: string,
    category: string,
    categoryCode: string,
    publishYear: Option<int>)

  /** A bestseller or new release from Aladin. */
  datatype AladinBookDto = AladinBookDto(
    title: string,
    author: string,
    publisher: string,
    isbn: string,
    coverUrl: string,
    pubDate: string,
    description: string,
    categoryName: string,
    priceStandard: int,
    priceSales: int,
    link: string)

  /** A recommendation read back from the OpenAI answer. Its `isbn` and
      `coverUrl` are never set by the parser, so they are not fields here. */
  datatype AiRecommendedBookDto = AiRecommendedBookDto(
    title: string,
    author: string,
    publisher: string,
    category: string,
    description: string,
    reason: string)

  /** A book on a user's shelf. `status` is the reading state ("READ",
      "READING", "WANT_TO_READ") the services read; `owner` is the username of
      the user the book belongs to. */
  datatype Book = Book(
    id: Option<int>,
    title: Option<string>,
    author: Option<string>,
    publisher: Option<string>,
    genre: Option<string>,
    rating: Option<int>,
    review: Option<string>,
    status: Option<string>,
    owner: Option<string>)

  /** `new Book()`. */
  const EmptyBook := Book(None, None, None, None, None, None, None, None, None)

  /** An account. */
  datatype User = User(
    id: Option<int>,
    username: string,
    password: string,
    name: string,
    email: string,
    role: string)

  /** A community post; `author` is the username of the user it belongs to. */
  datatype Post = Post(
    id: Option<int>,
    title: Option<string>,
    content: Option<string>,
    category: Option<string>,
    author: Option<string>,
    viewCount: int)

  /** A comment on the post `postId`; `author` is the username of the user who
      wrote it. */
  datatype Comment = Comment(
    id: Option<int>,
    content: string,
    postId: int,
    author: Option<string>)

  /** The sum of the ratings of the rated books. */
  function RatingSum(books: seq<Book>): int
  {
    if books == [] then 0 else (if books[0].rating.Some? then books[0].rating.value else 0) + RatingSum(books[1..])
  }

  /** How many of the books are rated. */
  function RatedCount(books: seq<Book>): nat
  {
    if books == [] then 0 else (if books[0].rating.Some? then 1 else 0) + RatedCount(books[1..])
  }
}
