/** AladinApiService: bestsellers and new releases from Aladin, of which a
    sample is shown that changes once a day. */
module AladinApiService {
  import opened Wrappers
  import opened Text
  import opened Sequences
  import opened Http
  import opened Json
  import opened Entities
  import opened Shuffle

  const BestsellerQuery := "Bestseller"
  const NewBooksQuery := "ItemNewAll"

  /** One entry of `item`: strings read with `optString(key, "")`, prices with
      `optInt(key, 0)`; an entry that is not an object makes `getJSONObject`
      throw (None). */
  function ParseItem(item: Json): (r: Option<AladinBookDto>)
    ensures r.Some? <==> item.JObj?
  {
    match item
    case JObj(o, _) =>
      Some(AladinBookDto(
        title := OptString(o, "title", ""),
        author := OptString(o, "author", ""),
        publisher := OptString(o, "publisher", ""),
        isbn := OptString(o, "isbn13", ""),
        coverUrl := OptString(o, "cover", ""),
        pubDate := OptString(o, "pubDate", ""),
        description := OptString(o, "description", ""),
        categoryName := OptString(o, "categoryName", ""),
        priceStandard := OptInt(o, "priceStandard", 0),
        priceSales := OptInt(o, "priceSales", 0),
        link := OptString(o, "link", "")))
    case _ => None
  }

  /** The fields of an entry: the strings as `optString` gives them, the
      prices 0 when missing and always within Java's `int`. */
  lemma ParseItemFields(item: Json)
    requires item.JObj?
    ensures var o := item.fields; var r := ParseItem(item).value;
      r.title == OptString(o, "title", "") && r.author == OptString(o, "author", "") &&
      r.publisher == OptString(o, "publisher", "") && r.isbn == OptString(o, "isbn13", "") &&
      r.coverUrl == OptString(o, "cover", "") && r.pubDate == OptString(o, "pubDate", "") &&
      r.description == OptString(o, "description", "") &&
      r.categoryName == OptString(o, "categoryName", "") && r.link == OptString(o, "link", "") &&
      IsInt32(r.priceStandard) && IsInt32(r.priceSales) &&
      (!Has(o, "priceStandard") ==> r.priceStandard == 0) &&
      (!Has(o, "priceSales") ==> r.priceSales == 0)
  {
  }

  /** The `item` array of a body that is a JSON object and has one; a null
      body makes the `JSONObject` constructor throw. */
  function Items(body: Body): Option<seq<Json>>
  {
    match body
    case NullBody => None
    case Text(_, parsed) =>
      match parsed
      case None => None
      case Some(o) => if !Has(o, "item") then None else GetArray(o, "item")
  }

  /** What `parseResponse` returns: the entries read until the first one that
      throws; nothing without an `item` array. */
  function ParsedBooks(body: Body): (r: seq<AladinBookDto>)
    ensures Items(body).None? ==> r == []
    ensures body.Text? && body.parsed.Some? && !Has(body.parsed.value, "item") ==> r == []
  {
    match Items(body)
    case None => []
    case Some(items) => ParseWhile(ParseItem, items)
  }

  /** `parseResponse`. */
  method ParseResponse(body: Body) returns (books: seq<AladinBookDto>)
    ensures books == ParsedBooks(body)
  {
    books := [];
    var found := Items(body);
    if found.None? {
      return;
    }
    var items := found.value;
    books := ParseEach(ParseItem, items);
  }

  /** What `getBookList(queryType, count)` returns for the answer to its
      request on day `epochDay`: nothing when the call fails or the answer is
      null or blank; otherwise the selection made from the parsed books with a
      `Random` seeded by the day, and nothing when that selection throws. */
  function BookList(count: int, reply: Reply<Body>, draw: Draw, epochDay: int): seq<AladinBookDto>
  {
    match reply
    case CallFailed => []
    case Answered(body) =>
      if IsNullOrBlankBody(body) then []
      else Selection(ParsedBooks(body), count, draw, epochDay).GetOr([])
  }

  /** `getBookList`. `api(queryType, rows)` is the answer to a request for
      `rows` items of the list `queryType`; `epochDay` is `LocalDate.now()`'s
      day number and `draw` the numbers a `Random` seeded with it produces. */
  method GetBookList(queryType: string, count: int, api: (string, int) -> Reply<Body>,
                     draw: Draw, epochDay: int)
    returns (books: seq<AladinBookDto>)
    requires IsInt32(count)
    ensures books == BookList(count, api(queryType, FetchCount(count)), draw, epochDay)
  {
    var fetchCount := FetchCount(count);
    var reply := api(queryType, fetchCount);
    if reply.CallFailed? || IsNullOrBlankBody(reply.body) {
      return [];
    }
    var all := ParseResponse(reply.body);
    var picked := Select(all, count, draw, epochDay);
    books := picked.GetOr([]);
  }

  /** `getBestsellers`. */
  method GetBestsellers(count: int, api: (string, int) -> Reply<Body>, draw: Draw, epochDay: int)
    returns (books: seq<AladinBookDto>)
    requires IsInt32(count)
    ensures books == BookList(count, api(BestsellerQuery, FetchCount(count)), draw, epochDay)
  {
    books := GetBookList(BestsellerQuery, count, api, draw, epochDay);
  }

  /** `getNewBooks`. */
  method GetNewBooks(count: int, api: (string, int) -> Reply<Body>, draw: Draw, epochDay: int)
    returns (books: seq<AladinBookDto>)
    requires IsInt32(count)
    ensures books == BookList(count, api(NewBooksQuery, FetchCount(count)), draw, epochDay)
  {
    books := GetBookList(NewBooksQuery, count, api, draw, epochDay);
  }

  /** The list shown is `count` of the books received, each at most as often
      as received, when more than `count` arrived; all of them otherwise. */
  lemma BookListDrawsFromAnswer(count: int, body: Body, draw: Draw, epochDay: int)
    requires !IsNullOrBlankBody(body)
    ensures var all := ParsedBooks(body);
      var r := BookList(count, Answered(body), draw, epochDay);
      (0 <= count < |all| ==> |r| == count && multiset(r) <= multiset(all)) &&
      (|all| <= count ==> r == all) &&
      (count < 0 && |all| > 0 ==> r == [])
  {
    SelectionDrawsFromList(ParsedBooks(body), count, draw, epochDay);
  }
}
